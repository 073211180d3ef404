/** MethodInfo: the narrowing information of one handler method. */
module Methods {
  import opened Nullable
  import JavaStrings
  import opened Params
  import opened Contents

  /**
   * The immutable method record; each getter is the field of the same name.
   * `uniqueName` is the per-class disambiguated name the collector computes.
   */
  datatype MethodInfo = MethodInfo(
    javaMethodName: string,
    uniqueName: string,
    javaDoc: Option<string>,
    javaDocFirstSentence: Option<string>,
    paths: Option<seq<string>>,
    methods: Option<seq<string>>,
    params: Option<seq<string>>,
    headers: Option<seq<string>>,
    consumes: Option<seq<string>>,
    produces: Option<seq<string>>,
    paramInfos: Option<seq<ParamInfo>>,
    requestInfo: Option<ContentsInfo>,
    responseInfo: Option<ContentsInfo>)
  {
    /** compareTo: String.compareTo of the Java method names. */
    function CompareTo(other: MethodInfo): (c: int)
      ensures c == 0 <==> javaMethodName == other.javaMethodName
      ensures c < 0 <==> JavaStrings.LexLess(javaMethodName, other.javaMethodName)
    {
      JavaStrings.CompareToZero(javaMethodName, other.javaMethodName);
      JavaStrings.CompareToNegative(javaMethodName, other.javaMethodName);
      JavaStrings.CompareTo(javaMethodName, other.javaMethodName)
    }
  }

  /** compareTo is antisymmetric, and overloads (same Java name) compare equal. */
  lemma {:induction false} CompareToAntisymmetric(a: MethodInfo, b: MethodInfo)
    ensures a.CompareTo(b) == -b.CompareTo(a)
    ensures a.javaMethodName == b.javaMethodName ==> a.CompareTo(b) == 0
  {
    JavaStrings.CompareToAntisymmetric(a.javaMethodName, b.javaMethodName);
  }
}
