/** ClassInfo: the controller class an end-point belongs to. */
module Classes {
  import opened Nullable
  import JavaStrings

  /** The immutable class record; each getter is the field of the same name. */
  datatype ClassInfo = ClassInfo(
    className: string,
    typeName: Option<string>,
    javaDoc: Option<string>,
    javaDocFirstSentence: Option<string>,
    paths: Option<seq<string>>)
  {
    /** equals: false for null, otherwise a comparison of the type names only. */
    function Equals(other: Option<ClassInfo>): (b: bool)
      ensures b <==> other.Some? && other.value.typeName == typeName
    {
      if other.None? then false
      else if typeName.None? then other.value.typeName.None?
      else other.value.typeName.Some? && typeName.value == other.value.typeName.value
    }

    /** hashCode: the type name's hash, or 0 for a null type name. */
    function HashCode(): (h: int)
      ensures -0x8000_0000 <= h < 0x8000_0000
      ensures typeName.None? ==> h == 0
    {
      if typeName.None? then 0 else JavaStrings.HashCode(typeName.value)
    }

    /** compareTo: String.compareTo of the class names. */
    function CompareTo(other: ClassInfo): (c: int)
      ensures c == 0 <==> className == other.className
      ensures c < 0 <==> JavaStrings.LexLess(className, other.className)
    {
      JavaStrings.CompareToZero(className, other.className);
      JavaStrings.CompareToNegative(className, other.className);
      JavaStrings.CompareTo(className, other.className)
    }
  }

  /** equals is an equivalence relation and ignores everything but the type name. */
  lemma EqualsIsEquivalence(a: ClassInfo, b: ClassInfo, c: ClassInfo)
    ensures a.Equals(Some(a))
    ensures a.Equals(Some(b)) <==> b.Equals(Some(a))
    ensures a.Equals(Some(b)) && b.Equals(Some(c)) ==> a.Equals(Some(c))
    ensures a.typeName == b.typeName ==> a.Equals(Some(b))
  {
  }

  /** Equal records have equal hash codes. */
  lemma EqualsImpliesSameHash(a: ClassInfo, b: ClassInfo)
    requires a.Equals(Some(b))
    ensures a.HashCode() == b.HashCode()
  {
  }

  /** compareTo is antisymmetric and transitive in sign. */
  lemma {:induction false} CompareToIsOrder(a: ClassInfo, b: ClassInfo, c: ClassInfo)
    ensures a.CompareTo(b) == -b.CompareTo(a)
    ensures a.CompareTo(b) <= 0 && b.CompareTo(c) <= 0 ==> a.CompareTo(c) <= 0
  {
    JavaStrings.CompareToAntisymmetric(a.className, b.className);
    if a.CompareTo(b) <= 0 && b.CompareTo(c) <= 0 {
      JavaStrings.CompareToTransitive(a.className, b.className, c.className);
    }
  }

  /** compareTo and equals disagree: same class name, different type names. */
  lemma CompareToInconsistentWithEquals()
    ensures var a := ClassInfo("Login", Some("a.Login"), None, None, None);
            var b := ClassInfo("Login", Some("b.Login"), None, None, None);
            a.CompareTo(b) == 0 && !a.Equals(Some(b))
  {
  }
}
