/**
 * What the end-point collector computes, as functions of the declaration tree:
 * the parameter classification, the body and response contents, the method record,
 * the end-points of one method and the progress through one class.
 */
module CollectorSpec {
  import opened Nullable
  import opened Declarations
  import opened JavaStrings
  import opened Params
  import opened Contents
  import opened Classes
  import opened Methods
  import opened PathText
  import opened Annotations
  import opened DocComments
  import opened Fields
  import opened UniqueNames
  import opened EndPoints

  const RequestMappingAnnotationName: string := "RequestMapping"
  const RequestParamAnnotationName: string := "RequestParam"
  const RequestBodyAnnotationName: string := "RequestBody"
  const PathVariableAnnotationName: string := "PathVariable"
  const RequestHeaderAnnotationName: string := "RequestHeader"

  /** Some annotation in the list has the given simple type name. */
  predicate HasAnnotation(annotations: seq<Annotation>, name: string) {
    exists a :: a in annotations && a.typeName == name
  }

  /** generateTypeName: the type name followed by its dimension text, if any. */
  function TypeNameOf(t: TypeDesc): (r: string)
    ensures t.typeName <= r
    ensures t.dimension.None? ==> r == t.typeName
    ensures t.dimension.Some? ==> r[|t.typeName|..] == t.dimension.value
  {
    if t.dimension.Some? then t.typeName + t.dimension.value else t.typeName
  }

  /** The required flag of a request parameter: true unless a `required` value is given, then its parse. */
  function RequiredOf(pairs: seq<ElementValue>): (b: bool)
    ensures (forall p :: p in pairs ==> p.name != "required") ==> b
    ensures FieldValueNamed(pairs, "required").Some? ==> b == ParseBoolean(FieldValueNamed(pairs, "required"))
  {
    var requiredStr := FieldValueNamed(pairs, "required");
    if requiredStr.Some? then ParseBoolean(requiredStr) else true
  }

  /**
   * handleParam: a request parameter beats a path variable, which beats a header.
   * The header branch reads the fields of the absent request-parameter annotation and
   * so always fails; a parameter with none of the three gives nothing.
   */
  function ClassifyParam(p: ParamDecl, methodJavaDoc: Option<string>): (r: Result<Option<ParamInfo>>)
    ensures r.Success? && r.value.Some? ==> r.value.value.javaParamName == p.name
  {
    var javaDoc := ParamDoc(methodJavaDoc, p.name);
    var typeName := TypeNameOf(p.paramType);
    var requestParam := AnnotationNamed(p.annotations, RequestParamAnnotationName);
    var pathVariable := AnnotationNamed(p.annotations, PathVariableAnnotationName);
    var requestHeader := AnnotationNamed(p.annotations, RequestHeaderAnnotationName);
    if requestParam.Some? then
      var pairs := requestParam.value.elementValues;
      Success(Some(FromRequestParam(p.name, typeName, FieldValueNamed(pairs, "value"), RequiredOf(pairs),
                                    FieldValueNamed(pairs, "defaultValue"), javaDoc)))
    else if pathVariable.Some? then
      Success(Some(FromPathVariable(p.name, typeName, FieldValueNamed(pathVariable.value.elementValues, "value"),
                                    true, None, javaDoc)))
    else if requestHeader.Some? then
      Failure(NullPointerException)
    else
      Success(None)
  }

  /** The cases of handleParam, in terms of which annotations the parameter carries. */
  lemma ClassifyParamCases(p: ParamDecl, methodJavaDoc: Option<string>)
    ensures var r := ClassifyParam(p, methodJavaDoc);
      r.Failure? <==>
        !HasAnnotation(p.annotations, RequestParamAnnotationName) &&
        !HasAnnotation(p.annotations, PathVariableAnnotationName) &&
        HasAnnotation(p.annotations, RequestHeaderAnnotationName)
    ensures var r := ClassifyParam(p, methodJavaDoc);
      r == Success(None) <==>
        !HasAnnotation(p.annotations, RequestParamAnnotationName) &&
        !HasAnnotation(p.annotations, PathVariableAnnotationName) &&
        !HasAnnotation(p.annotations, RequestHeaderAnnotationName)
    ensures var r := ClassifyParam(p, methodJavaDoc);
      r.Success? && r.value.Some? ==>
        r.value.value.requestKind != Header &&
        r.value.value.javaTypeName == TypeNameOf(p.paramType) &&
        r.value.value.javaDoc == ParamDoc(methodJavaDoc, p.name)
    ensures var r := ClassifyParam(p, methodJavaDoc);
      HasAnnotation(p.annotations, RequestParamAnnotationName) ==>
        r.Success? && r.value.Some? && r.value.value.requestKind == Query &&
        var rp := AnnotationNamed(p.annotations, RequestParamAnnotationName).value.elementValues;
        r.value.value.requestName == FieldValueNamed(rp, "value") &&
        r.value.value.required == RequiredOf(rp) &&
        r.value.value.defaultValue == FieldValueNamed(rp, "defaultValue")
    ensures var r := ClassifyParam(p, methodJavaDoc);
      !HasAnnotation(p.annotations, RequestParamAnnotationName) && HasAnnotation(p.annotations, PathVariableAnnotationName) ==>
        var pv := AnnotationNamed(p.annotations, PathVariableAnnotationName).value.elementValues;
        r.Success? && r.value.Some? && r.value.value.requestKind == Path &&
        r.value.value.requestName == FieldValueNamed(pv, "value") &&
        r.value.value.required && r.value.value.defaultValue.None?
  {
  }

  /**
   * handleParam as evidently intended: the header branch reads the header annotation's
   * own `required` and `defaultValue`; every other case is as written.
   */
  function IntendedClassifyParam(p: ParamDecl, methodJavaDoc: Option<string>): (r: Result<Option<ParamInfo>>)
    ensures r.Success?
  {
    match ClassifyParam(p, methodJavaDoc)
    case Failure(_) =>
      var pairs := AnnotationNamed(p.annotations, RequestHeaderAnnotationName).value.elementValues;
      Success(Some(FromRequestHeader(p.name, TypeNameOf(p.paramType), FieldValueNamed(pairs, "value"), RequiredOf(pairs),
                                     FieldValueNamed(pairs, "defaultValue"), ParamDoc(methodJavaDoc, p.name))))
    case ok => ok
  }

  /**
   * The intended classification never fails, agrees with the written one wherever that
   * succeeds, and turns a parameter carrying only a header annotation into a header
   * parameter whose flags come from that annotation.
   */
  lemma IntendedClassifyParamAgrees(p: ParamDecl, methodJavaDoc: Option<string>)
    ensures ClassifyParam(p, methodJavaDoc).Success? ==> IntendedClassifyParam(p, methodJavaDoc) == ClassifyParam(p, methodJavaDoc)
    ensures var r := IntendedClassifyParam(p, methodJavaDoc);
      !HasAnnotation(p.annotations, RequestParamAnnotationName) &&
      !HasAnnotation(p.annotations, PathVariableAnnotationName) &&
      HasAnnotation(p.annotations, RequestHeaderAnnotationName) ==>
        var pairs := AnnotationNamed(p.annotations, RequestHeaderAnnotationName).value.elementValues;
        r.Success? && r.value.Some? && r.value.value.requestKind == Header &&
        r.value.value.javaParamName == p.name &&
        r.value.value.requestName == FieldValueNamed(pairs, "value") &&
        r.value.value.required == RequiredOf(pairs) &&
        r.value.value.defaultValue == FieldValueNamed(pairs, "defaultValue")
  {
    ClassifyParamCases(p, methodJavaDoc);
  }

  /** A header-only parameter: the written classification fails on it, the intended one does not. */
  lemma HeaderParamExample()
    ensures var p := ParamDecl("contentType", TypeDesc("String", None, false, None),
                               [Annotation(RequestHeaderAnnotationName, [ElementValue("value", "Content-Type", None)])]);
      ClassifyParam(p, None) == Failure(NullPointerException) &&
      IntendedClassifyParam(p, None).value.value.requestKind == Header &&
      IntendedClassifyParam(p, None).value.value.requestName == Some("Content-Type")
  {
    var p := ParamDecl("contentType", TypeDesc("String", None, false, None),
                       [Annotation(RequestHeaderAnnotationName, [ElementValue("value", "Content-Type", None)])]);
    ClassifyParamCases(p, None);
    IntendedClassifyParamAgrees(p, None);
    assert HasAnnotation(p.annotations, RequestHeaderAnnotationName) by {
      assert p.annotations[0] in p.annotations;
    }
  }

  /** The explicit `required = "false"` of a request parameter makes it optional. */
  lemma RequiredFalse(rest: seq<ElementValue>)
    ensures !RequiredOf([ElementValue("required", "false", None)] + rest)
  {
    var pairs := [ElementValue("required", "false", None)] + rest;
    assert FieldValueNamed(pairs, "required") == Some(StripQuotes("false"));
    assert !Quoted("false");
  }

  /**
   * The parameter loop of handleMethod: each parameter is classified in order, the
   * unannotated ones are dropped, and a header parameter aborts the method.
   */
  function ParamInfosOf(params: seq<ParamDecl>, methodJavaDoc: Option<string>): (r: Result<seq<ParamInfo>>)
    ensures r.Success? ==> |r.value| <= |params|
    decreases |params|
  {
    if params == [] then Success([])
    else
      match ParamInfosOf(params[..|params| - 1], methodJavaDoc)
      case Failure(e) => Failure(e)
      case Success(infos) =>
        match ClassifyParam(params[|params| - 1], methodJavaDoc)
        case Failure(e) => Failure(e)
        case Success(None) => Success(infos)
        case Success(Some(q)) => Success(infos + [q])
  }

  /** The parameter loop for any classification: a failure aborts it, an absent record is dropped. */
  function KeptBy(params: seq<ParamDecl>, classify: ParamDecl -> Result<Option<ParamInfo>>): (r: Result<seq<ParamInfo>>)
    decreases |params|
  {
    if params == [] then Success([])
    else
      match KeptBy(params[..|params| - 1], classify)
      case Failure(e) => Failure(e)
      case Success(infos) =>
        match classify(params[|params| - 1])
        case Failure(e) => Failure(e)
        case Success(None) => Success(infos)
        case Success(Some(q)) => Success(infos + [q])
  }

  /**
   * The loop fails exactly when classifying some parameter fails, and every record it
   * keeps is the classification of one of the parameters.
   */
  lemma {:induction false} KeptByCases(params: seq<ParamDecl>, classify: ParamDecl -> Result<Option<ParamInfo>>)
    ensures KeptBy(params, classify).Failure? <==> exists i :: 0 <= i < |params| && classify(params[i]).Failure?
    ensures KeptBy(params, classify).Success? ==> forall q :: q in KeptBy(params, classify).value ==>
      exists i :: 0 <= i < |params| && classify(params[i]) == Success(Some(q))
    decreases |params|
  {
    if params != [] {
      var front := params[..|params| - 1];
      var n := |params| - 1;
      KeptByCases(front, classify);
      var r0 := KeptBy(front, classify);
      if r0.Failure? {
        var i :| 0 <= i < |front| && classify(front[i]).Failure?;
        assert front[i] == params[i];
      } else if classify(params[n]).Success? {
        forall i | 0 <= i < |params| ensures classify(params[i]).Success? {
          if i < n {
            assert front[i] == params[i];
          }
        }
        forall q | q in KeptBy(params, classify).value
          ensures exists i :: 0 <= i < |params| && classify(params[i]) == Success(Some(q))
        {
          if q in r0.value {
            var i :| 0 <= i < |front| && classify(front[i]) == Success(Some(q));
            assert front[i] == params[i];
          } else {
            assert classify(params[n]) == Success(Some(q));
          }
        }
      }
    }
  }

  /** Once a prefix fails, the whole list fails with the same error. */
  lemma {:induction false} KeptByFailureStays(params: seq<ParamDecl>, j: nat, classify: ParamDecl -> Result<Option<ParamInfo>>)
    requires 0 < j <= |params|
    requires KeptBy(params[..j], classify).Failure?
    ensures KeptBy(params, classify) == KeptBy(params[..j], classify)
    decreases |params| - j
  {
    if j < |params| {
      var front := params[..|params| - 1];
      assert front[..j] == params[..j];
      KeptByFailureStays(front, j, classify);
    } else {
      assert params[..j] == params;
    }
  }

  /** The collector's parameter loop is the loop for handleParam's classification. */
  lemma {:induction false} ParamInfosOfIsKeptBy(params: seq<ParamDecl>, methodJavaDoc: Option<string>)
    ensures ParamInfosOf(params, methodJavaDoc) == KeptBy(params, p => ClassifyParam(p, methodJavaDoc))
    decreases |params|
  {
    if params != [] {
      ParamInfosOfIsKeptBy(params[..|params| - 1], methodJavaDoc);
    }
  }

  /**
   * The parameter loop fails exactly when some parameter is a header parameter; otherwise
   * every kept record is the classification of one of the parameters, and none is a header.
   */
  lemma ParamInfosOfCases(params: seq<ParamDecl>, methodJavaDoc: Option<string>)
    ensures var r := ParamInfosOf(params, methodJavaDoc);
      r.Failure? <==> exists i :: 0 <= i < |params| && ClassifyParam(params[i], methodJavaDoc).Failure?
    ensures var r := ParamInfosOf(params, methodJavaDoc);
      r.Success? ==> forall q :: q in r.value ==>
        q.requestKind != Header && exists i :: 0 <= i < |params| && ClassifyParam(params[i], methodJavaDoc) == Success(Some(q))
  {
    var classify := p => ClassifyParam(p, methodJavaDoc);
    ParamInfosOfIsKeptBy(params, methodJavaDoc);
    KeptByCases(params, classify);
    var r := ParamInfosOf(params, methodJavaDoc);
    if r.Success? {
      forall q | q in r.value
        ensures q.requestKind != Header && exists i :: 0 <= i < |params| && ClassifyParam(params[i], methodJavaDoc) == Success(Some(q))
      {
        var i :| 0 <= i < |params| && classify(params[i]) == Success(Some(q));
        ClassifyParamCases(params[i], methodJavaDoc);
      }
    }
  }

  /** The reference filter: the records of the parameters that classify to one, in parameter order. */
  function Kept(params: seq<ParamDecl>, methodJavaDoc: Option<string>): (r: seq<ParamInfo>)
    decreases |params|
  {
    if params == [] then []
    else
      Kept(params[..|params| - 1], methodJavaDoc) +
      match ClassifyParam(params[|params| - 1], methodJavaDoc)
      case Success(Some(q)) => [q]
      case _ => []
  }

  /**
   * When no parameter fails, the parameter loop keeps every record a parameter
   * classifies to, and only those, in parameter order.
   */
  lemma {:induction false} ParamInfosOfComplete(params: seq<ParamDecl>, methodJavaDoc: Option<string>)
    requires forall i :: 0 <= i < |params| ==> ClassifyParam(params[i], methodJavaDoc).Success?
    ensures ParamInfosOf(params, methodJavaDoc) == Success(Kept(params, methodJavaDoc))
    decreases |params|
  {
    if params != [] {
      var front := params[..|params| - 1];
      assert forall i :: 0 <= i < |front| ==> front[i] == params[i];
      ParamInfosOfComplete(front, methodJavaDoc);
      var last := ClassifyParam(params[|params| - 1], methodJavaDoc);
      assert last.Success?;
      if last.value.Some? {
        assert ParamInfosOf(params, methodJavaDoc) == Success(Kept(front, methodJavaDoc) + [last.value.value]);
      } else {
        assert ParamInfosOf(params, methodJavaDoc) == Success(Kept(front, methodJavaDoc));
        assert Kept(params, methodJavaDoc) == Kept(front, methodJavaDoc) + [];
        assert Kept(front, methodJavaDoc) + [] == Kept(front, methodJavaDoc);
      }
    }
  }

  /** handleRequestBodyParam: the contents of a parameter annotated as the request body. */
  function RequestBodyFrom(p: ParamDecl, methodJavaDoc: Option<string>, toLowerCase: char -> char): (r: Option<ContentsInfo>)
    ensures r.Some? <==> HasAnnotation(p.annotations, RequestBodyAnnotationName)
    ensures r.Some? ==> r.value.javaParamName == Some(p.name) && r.value.javaTypeName == TypeNameOf(p.paramType) &&
                        r.value.javaDoc == ParamDoc(methodJavaDoc, p.name) &&
                        r.value.fieldInfos == FieldInfosOf(p.paramType, toLowerCase)
  {
    if AnnotationNamed(p.annotations, RequestBodyAnnotationName).None? then None
    else Some(FromRequestBody(p.name, TypeNameOf(p.paramType), ParamDoc(methodJavaDoc, p.name),
                              FieldInfosOf(p.paramType, toLowerCase)))
  }

  /** The request-body loop of handleMethod: the first body parameter wins. */
  function RequestBodyOf(params: seq<ParamDecl>, methodJavaDoc: Option<string>, toLowerCase: char -> char): (r: Option<ContentsInfo>)
    ensures r.None? <==> forall i :: 0 <= i < |params| ==> !HasAnnotation(params[i].annotations, RequestBodyAnnotationName)
    ensures r.Some? ==> exists i :: 0 <= i < |params| && r == RequestBodyFrom(params[i], methodJavaDoc, toLowerCase) &&
                          forall j :: 0 <= j < i ==> !HasAnnotation(params[j].annotations, RequestBodyAnnotationName)
    decreases |params|
  {
    if params == [] then None
    else
      var b := RequestBodyFrom(params[0], methodJavaDoc, toLowerCase);
      if b.Some? then b
      else
        var r := RequestBodyOf(params[1..], methodJavaDoc, toLowerCase);
        assert forall i :: 0 <= i < |params[1..]| ==> params[1..][i] == params[i + 1];
        if r.Some? then
          var i :| 0 <= i < |params[1..]| && r == RequestBodyFrom(params[1..][i], methodJavaDoc, toLowerCase) &&
                   forall j :: 0 <= j < i ==> !HasAnnotation(params[1..][j].annotations, RequestBodyAnnotationName);
          assert r == RequestBodyFrom(params[i + 1], methodJavaDoc, toLowerCase);
          r
        else r
  }

  /**
   * handleResponseBody: nothing for a missing or void return type; otherwise the
   * response contents, documented by the first sentence of the @return text.
   */
  function ResponseOf(m: MethodDecl, toLowerCase: char -> char): (r: Option<ContentsInfo>)
    ensures r.None? <==> m.returnType.None? || m.returnType.value.typeName == "void"
    ensures r.Some? ==> r.value.javaParamName.None? && r.value.javaTypeName == TypeNameOf(m.returnType.value) &&
                        r.value.fieldInfos == FieldInfosOf(m.returnType.value, toLowerCase)
    ensures r.Some? ==> r.value.javaDoc == FirstSentenceOf(ReturnTagText(m.rawComment))
    ensures r.Some? && r.value.javaDoc.Some? ==>
      ReturnTagText(m.rawComment).Some? && r.value.javaDoc.value <= ReturnTagText(m.rawComment).value
    ensures r.Some? && ReturnTagText(m.rawComment).Some? ==> r.value.javaDoc.Some?
  {
    if m.returnType.None? || m.returnType.value.typeName == "void" then None
    else
      var t := m.returnType.value;
      Some(FromResponse(TypeNameOf(t), FirstSentenceOf(ReturnTagText(m.rawComment)), FieldInfosOf(t, toLowerCase)))
  }

  /** The verbs of a mapping with the RequestMethod package prefix removed from each. */
  function Verbs(values: seq<string>): (r: seq<string>)
    ensures |r| == |values|
    ensures forall i :: 0 <= i < |values| && RequestMethodPrefix <= values[i] ==> values[i] == RequestMethodPrefix + r[i]
    ensures forall i :: 0 <= i < |values| && !(RequestMethodPrefix <= values[i]) ==> r[i] == values[i]
  {
    seq(|values|, i requires 0 <= i < |values| => WithoutRequestMethodPrefix(values[i]))
  }

  /** What handleMethod makes of one method declaration. */
  datatype MethodResult = Skipped | Failed(error: JavaError) | Mapped(methodInfo: MethodInfo)

  /**
   * handleMethod up to the end-points: methods without a request mapping are skipped,
   * a header parameter aborts, and otherwise the method record is built with the
   * first unused unique name.
   */
  function MethodInfoFor(m: MethodDecl, names: set<string>, toLowerCase: char -> char): (r: MethodResult)
    ensures r.Mapped? ==> r.methodInfo.uniqueName == UniqueName(names, m.name)
  {
    var requestMapping := AnnotationNamed(m.annotations, RequestMappingAnnotationName);
    if requestMapping.None? then Skipped
    else
      match ParamInfosOf(m.parameters, m.rawComment)
      case Failure(e) => Failed(e)
      case Success(infos) => Mapped(MappedInfo(m, requestMapping.value.elementValues, names, infos, toLowerCase))
  }

  /** The record of a mapped method, from the mapping's element-value pairs and the kept parameters. */
  function MappedInfo(m: MethodDecl, pairs: seq<ElementValue>, names: set<string>, infos: seq<ParamInfo>,
                      toLowerCase: char -> char): (mi: MethodInfo)
    ensures mi.uniqueName == UniqueName(names, m.name)
  {
    var verbs := FieldValuesNamed(pairs, "method");
    MethodInfo(
      m.name, UniqueName(names, m.name), m.rawComment, FirstSentenceOf(m.rawComment),
      FieldValuesNamed(pairs, "value"),
      if verbs.Some? then Some(Verbs(verbs.value)) else None,
      FieldValuesNamed(pairs, "params"), FieldValuesNamed(pairs, "headers"),
      FieldValuesNamed(pairs, "consumes"), FieldValuesNamed(pairs, "produces"),
      if infos == [] then None else Some(infos),
      RequestBodyOf(m.parameters, m.rawComment, toLowerCase),
      ResponseOf(m, toLowerCase))
  }

  /**
   * A method is skipped exactly when it has no request mapping and fails exactly when it
   * has one and a header parameter; a mapped record carries the method's own name, doc,
   * request body and response, and a parameter list that is absent rather than empty.
   */
  lemma MethodInfoForCases(m: MethodDecl, names: set<string>, toLowerCase: char -> char)
    ensures var r := MethodInfoFor(m, names, toLowerCase);
      r.Skipped? <==> !HasAnnotation(m.annotations, RequestMappingAnnotationName)
    ensures var r := MethodInfoFor(m, names, toLowerCase);
      r.Failed? <==> HasAnnotation(m.annotations, RequestMappingAnnotationName) &&
                     exists i :: 0 <= i < |m.parameters| && ClassifyParam(m.parameters[i], m.rawComment).Failure?
    ensures var r := MethodInfoFor(m, names, toLowerCase);
      r.Mapped? ==>
        r.methodInfo.javaMethodName == m.name && r.methodInfo.uniqueName !in names &&
        r.methodInfo.javaDoc == m.rawComment && r.methodInfo.javaDocFirstSentence == FirstSentenceOf(m.rawComment) &&
        (r.methodInfo.paramInfos.Some? ==> r.methodInfo.paramInfos.value != []) &&
        r.methodInfo.paramInfos ==
          (if Kept(m.parameters, m.rawComment) == [] then None else Some(Kept(m.parameters, m.rawComment))) &&
        r.methodInfo.requestInfo == RequestBodyOf(m.parameters, m.rawComment, toLowerCase) &&
        r.methodInfo.responseInfo == ResponseOf(m, toLowerCase)
  {
    ParamInfosOfCases(m.parameters, m.rawComment);
    if HasAnnotation(m.annotations, RequestMappingAnnotationName) &&
       forall i :: 0 <= i < |m.parameters| ==> ClassifyParam(m.parameters[i], m.rawComment).Success? {
      ParamInfosOfComplete(m.parameters, m.rawComment);
    }
  }

  /**
   * addClassPathInfo: under one class path (unquoted), one end-point keyed by the class
   * path when the method has no paths, else one per method path, in order.
   */
  function ClassPathEndPoints(ci: ClassInfo, mi: MethodInfo, classPath: Option<string>): (r: seq<EndPoint>)
    ensures |r| == if mi.paths.None? then 1 else |mi.paths.value|
    ensures forall e :: e in r ==> e.classInfo == ci && e.methodInfo == mi
    ensures mi.paths.None? ==> r == [EndPoint(PathNoQuotes(classPath), ci, mi)]
    ensures mi.paths.Some? ==> forall j :: 0 <= j < |r| ==>
      r[j].path == Some(CalculatePath(PathNoQuotes(classPath), mi.paths.value[j]))
  {
    var c := PathNoQuotes(classPath);
    if mi.paths.None? then [EndPoint(c, ci, mi)]
    else seq(|mi.paths.value|, j requires 0 <= j < |mi.paths.value| =>
               EndPoint(Some(CalculatePath(c, mi.paths.value[j])), ci, mi))
  }

  /** One more class path adds one more row of method paths. */
  lemma MulSucc(n: nat, k: nat)
    ensures n * k + k == (n + 1) * k
  {
  }

  /** The end-points of a method under each of a list of class paths, in order. */
  function EndPointsOver(ci: ClassInfo, mi: MethodInfo, classPaths: seq<string>): (r: seq<EndPoint>)
    ensures |r| == |classPaths| * (if mi.paths.None? then 1 else |mi.paths.value|)
    ensures forall e :: e in r ==> e.classInfo == ci && e.methodInfo == mi
    decreases |classPaths|
  {
    if classPaths == [] then []
    else
      var front := EndPointsOver(ci, mi, classPaths[..|classPaths| - 1]);
      var more := ClassPathEndPoints(ci, mi, Some(classPaths[|classPaths| - 1]));
      MulSucc(|classPaths| - 1, |more|);
      assert forall e :: e in front + more ==> e in front || e in more;
      front + more
  }

  /** The end-points of one mapped method: the cross product of class paths and method paths. */
  function EndPointsFor(ci: ClassInfo, mi: MethodInfo): (r: seq<EndPoint>)
    ensures forall e :: e in r ==> e.classInfo == ci && e.methodInfo == mi
  {
    if ci.paths.None? then ClassPathEndPoints(ci, mi, None) else EndPointsOver(ci, mi, ci.paths.value)
  }

  /**
   * One method adds (class paths or 1) times (method paths or 1) end-points, so an
   * empty path list on either side adds none.
   */
  lemma EndPointsForCount(ci: ClassInfo, mi: MethodInfo)
    ensures |EndPointsFor(ci, mi)| ==
      (if ci.paths.None? then 1 else |ci.paths.value|) * (if mi.paths.None? then 1 else |mi.paths.value|)
    ensures (ci.paths.Some? && ci.paths.value == []) || (mi.paths.Some? && mi.paths.value == []) ==>
      EndPointsFor(ci, mi) == []
  {
  }

  /** Where the methods loop of processClass has got to. */
  datatype Progress = Progress(names: set<string>, methodInfos: seq<MethodInfo>, endPoints: seq<EndPoint>, outcome: Outcome)

  /** One step of the methods loop, given what handleMethod makes of the next method. */
  function Advance(ci: ClassInfo, p: Progress, r: MethodResult): Progress {
    match r
    case Skipped => p
    case Failed(e) => p.(outcome := Fail(e))
    case Mapped(mi) => Progress(p.names + {mi.uniqueName}, p.methodInfos + [mi], p.endPoints + EndPointsFor(ci, mi), Pass)
  }

  /**
   * The methods loop of processClass over a prefix of the methods: each mapped method
   * takes a unique name from the per-class set and adds its end-points; a failure stops it.
   */
  function MethodsProgress(ci: ClassInfo, methods: seq<MethodDecl>, toLowerCase: char -> char): (r: Progress)
    ensures |r.methodInfos| <= |methods|
    decreases |methods|
  {
    if methods == [] then Progress({}, [], [], Pass)
    else
      var p := MethodsProgress(ci, methods[..|methods| - 1], toLowerCase);
      if p.outcome.Fail? then p
      else Advance(ci, p, MethodInfoFor(methods[|methods| - 1], p.names, toLowerCase))
  }

  /** The names are in the set and pairwise distinct, and every end-point is the class's and one of its records'. */
  ghost predicate NamesDistinct(ci: ClassInfo, p: Progress) {
    (forall i :: 0 <= i < |p.methodInfos| ==> p.methodInfos[i].uniqueName in p.names) &&
    (forall i, j :: 0 <= i < j < |p.methodInfos| ==> p.methodInfos[i].uniqueName != p.methodInfos[j].uniqueName) &&
    (forall e :: e in p.endPoints ==> e.classInfo == ci && e.methodInfo in p.methodInfos)
  }

  /** A step that maps a method to a name not yet in the set keeps the names distinct. */
  lemma AdvanceDistinct(ci: ClassInfo, p: Progress, r: MethodResult)
    requires NamesDistinct(ci, p)
    requires r.Mapped? ==> r.methodInfo.uniqueName !in p.names
    ensures NamesDistinct(ci, Advance(ci, p, r))
  {
    if r.Mapped? {
      var more := EndPointsFor(ci, r.methodInfo);
      assert forall e :: e in p.endPoints + more ==> e in p.endPoints || e in more;
    }
  }

  /**
   * Within one class the unique names are pairwise distinct and all in the name set,
   * and every end-point belongs to the class and to one of the mapped methods.
   */
  lemma {:induction false} MethodsProgressUnique(ci: ClassInfo, methods: seq<MethodDecl>, toLowerCase: char -> char)
    ensures NamesDistinct(ci, MethodsProgress(ci, methods, toLowerCase))
    decreases |methods|
  {
    if methods != [] {
      var p := MethodsProgress(ci, methods[..|methods| - 1], toLowerCase);
      MethodsProgressUnique(ci, methods[..|methods| - 1], toLowerCase);
      if p.outcome.Pass? {
        AdvanceDistinct(ci, p, MethodInfoFor(methods[|methods| - 1], p.names, toLowerCase));
      }
    }
  }

  /** Once the loop has failed, the remaining methods change nothing. */
  lemma {:induction false} ProgressFailureSticks(ci: ClassInfo, methods: seq<MethodDecl>, k: nat, toLowerCase: char -> char)
    requires k <= |methods| && MethodsProgress(ci, methods[..k], toLowerCase).outcome.Fail?
    ensures MethodsProgress(ci, methods, toLowerCase) == MethodsProgress(ci, methods[..k], toLowerCase)
    decreases |methods| - k
  {
    if k < |methods| {
      assert methods[..k + 1][..k] == methods[..k];
      ProgressFailureSticks(ci, methods, k + 1, toLowerCase);
    } else {
      assert methods[..k] == methods;
    }
  }

  /** The ClassInfo of a class with a request mapping. */
  function ClassInfoOf(c: ClassDecl, requestMapping: Annotation): (r: ClassInfo)
    ensures r.className == c.name && r.typeName == Some(c.qualifiedTypeName)
    ensures r.javaDoc == c.rawComment && r.javaDocFirstSentence == FirstSentenceOf(c.rawComment)
    ensures r.paths == FieldValuesNamed(requestMapping.elementValues, "value")
  {
    ClassInfo(c.name, Some(c.qualifiedTypeName), c.rawComment, FirstSentenceOf(c.rawComment),
              FieldValuesNamed(requestMapping.elementValues, "value"))
  }

  /** processClass as a function: nothing for a class without a request mapping. */
  function ClassStep(c: ClassDecl, toLowerCase: char -> char): (r: Progress)
    ensures !HasAnnotation(c.annotations, RequestMappingAnnotationName) ==> r == Progress({}, [], [], Pass)
    ensures forall e :: e in r.endPoints ==> e.classInfo.className == c.name && e.classInfo.typeName == Some(c.qualifiedTypeName)
  {
    var requestMapping := AnnotationNamed(c.annotations, RequestMappingAnnotationName);
    if requestMapping.None? then Progress({}, [], [], Pass)
    else
      var ci := ClassInfoOf(c, requestMapping.value);
      MethodsProgressUnique(ci, c.methods, toLowerCase);
      MethodsProgress(ci, c.methods, toLowerCase)
  }

  /**
   * Two overloads named sayHello under the class path "/auth/test", both mapped without
   * paths: they are named sayHello and sayHello2 and each is filed under the class path.
   */
  lemma OverloadedMethodsExample(toLowerCase: char -> char)
    ensures var ci := ClassInfo("TestController", Some("com.j256.auth.TestController"), None, None, Some(["/auth/test"]));
      var m := MethodDecl("sayHello", None, [Annotation(RequestMappingAnnotationName, [])], [], None);
      var r := MethodsProgress(ci, [m, m], toLowerCase);
      r.outcome == Pass && |r.methodInfos| == 2 &&
      r.methodInfos[0].uniqueName == "sayHello" && r.methodInfos[1].uniqueName == "sayHello2" &&
      |r.endPoints| == 2 && r.endPoints[0].path == Some("/auth/test") && r.endPoints[1].path == Some("/auth/test")
  {
    var ci := ClassInfo("TestController", Some("com.j256.auth.TestController"), None, None, Some(["/auth/test"]));
    var m := MethodDecl("sayHello", None, [Annotation(RequestMappingAnnotationName, [])], [], None);
    UniqueNameExamples();
    assert [m, m][..1] == [m] && [m][..0] == [];
    assert AnnotationNamed(m.annotations, RequestMappingAnnotationName) == Some(Annotation(RequestMappingAnnotationName, []));
    assert ParamInfosOf([], None) == Success([]);
    var r1 := MethodInfoFor(m, {}, toLowerCase);
    assert r1.Mapped? && r1.methodInfo.uniqueName == "sayHello";
    assert MethodsProgress(ci, [], toLowerCase) == Progress({}, [], [], Pass);
    var p1 := MethodsProgress(ci, [m], toLowerCase);
    assert p1 == Progress({"sayHello"}, [r1.methodInfo], EndPointsFor(ci, r1.methodInfo), Pass);
    assert p1.methodInfos[0].uniqueName == "sayHello";
    assert p1.names == {"sayHello"};
    assert ci.paths.value[..0] == [];
    assert EndPointsFor(ci, p1.methodInfos[0])[0].path == Some("/auth/test");
  }
}
