/**
 * The end-point collector: a map from path to the end-points registered under it,
 * filled class by class. Each method is proved against the functions of CollectorSpec.
 */
module Collector {
  import opened Nullable
  import opened Declarations
  import opened JavaStrings
  import opened Params
  import opened Contents
  import opened Classes
  import opened Methods
  import opened PathText
  import opened Annotations
  import opened DocComments
  import opened Fields
  import opened UniqueNames
  import opened EndPoints
  import opened CollectorSpec

  /** Rewrites each verb in place, dropping the RequestMethod package prefix. */
  method StripRequestMethodPrefixes(httpMethods: array<string>)
    modifies httpMethods
    ensures httpMethods[..] == Verbs(old(httpMethods[..]))
  {
    for i := 0 to httpMethods.Length
      invariant forall j :: 0 <= j < i ==> httpMethods[j] == WithoutRequestMethodPrefix(old(httpMethods[j]))
      invariant forall j :: i <= j < httpMethods.Length ==> httpMethods[j] == old(httpMethods[j])
    {
      if RequestMethodPrefix <= httpMethods[i] {
        httpMethods[i] := httpMethods[i][|RequestMethodPrefix|..];
      }
    }
  }

  /** handleParam. */
  method HandleParam(param: ParamDecl, methodJavaDoc: Option<string>) returns (r: Result<Option<ParamInfo>>)
    ensures r == ClassifyParam(param, methodJavaDoc)
  {
    var javaDoc := ExtractParamDocs(methodJavaDoc, param.name);
    var typeName := TypeNameOf(param.paramType);
    var requestParam := FindAnnotation(param.annotations, RequestParamAnnotationName);
    if requestParam.Some? {
      var queryParamName := FindAnnotationFieldValue(requestParam.value, "value");
      var required := true;
      var requiredStr := FindAnnotationFieldValue(requestParam.value, "required");
      if requiredStr.Some? {
        required := ParseBoolean(requiredStr);
      }
      var defaultValue := FindAnnotationFieldValue(requestParam.value, "defaultValue");
      return Success(Some(FromRequestParam(param.name, typeName, queryParamName, required, defaultValue, javaDoc)));
    }
    var pathVariable := FindAnnotation(param.annotations, PathVariableAnnotationName);
    if pathVariable.Some? {
      var pathVariableName := FindAnnotationFieldValue(pathVariable.value, "value");
      return Success(Some(FromPathVariable(param.name, typeName, pathVariableName, true, None, javaDoc)));
    }
    var requestHeader := FindAnnotation(param.annotations, RequestHeaderAnnotationName);
    if requestHeader.Some? {
      // the `required` lookup that follows goes to the absent request-parameter annotation
      return Failure(NullPointerException);
    }
    return Success(None);
  }

  /** handleRequestBodyParam. */
  method HandleRequestBodyParam(param: ParamDecl, methodJavaDoc: Option<string>, toLowerCase: char -> char)
    returns (r: Option<ContentsInfo>)
    ensures r == RequestBodyFrom(param, methodJavaDoc, toLowerCase)
  {
    var requestBody := FindAnnotation(param.annotations, RequestBodyAnnotationName);
    if requestBody.None? {
      return None;
    }
    var javaDoc := ExtractParamDocs(methodJavaDoc, param.name);
    var typeName := TypeNameOf(param.paramType);
    var fieldInfos := ExtractFieldInfos(param.paramType, toLowerCase);
    return Some(FromRequestBody(param.name, typeName, javaDoc, fieldInfos));
  }

  /** handleResponseBody. */
  method HandleResponseBody(methodDoc: MethodDecl, toLowerCase: char -> char) returns (r: Option<ContentsInfo>)
    ensures r == ResponseOf(methodDoc, toLowerCase)
  {
    if methodDoc.returnType.None? || methodDoc.returnType.value.typeName == "void" {
      return None;
    }
    var t := methodDoc.returnType.value;
    var javaDoc: Option<string> := None;
    if methodDoc.rawComment.Some? {
      var text := ReturnTagText(methodDoc.rawComment);
      if text.Some? {
        javaDoc := JavaDocFirstSentence(text);
      }
    }
    var fieldInfos := ExtractFieldInfos(t, toLowerCase);
    return Some(FromResponse(TypeNameOf(t), javaDoc, fieldInfos));
  }

  /** The parameter loop of handleMethod: classify each parameter, keep the annotated ones. */
  method CollectParamInfos(parameters: seq<ParamDecl>, methodJavaDoc: Option<string>) returns (r: Result<seq<ParamInfo>>)
    ensures r == ParamInfosOf(parameters, methodJavaDoc)
  {
    var paramInfos: seq<ParamInfo> := [];
    ghost var classify := p => ClassifyParam(p, methodJavaDoc);
    ParamInfosOfIsKeptBy(parameters, methodJavaDoc);
    var i := 0;
    while i < |parameters|
      invariant 0 <= i <= |parameters|
      invariant KeptBy(parameters[..i], classify) == Success(paramInfos)
    {
      assert parameters[..i + 1][..i] == parameters[..i];
      var paramInfo := HandleParam(parameters[i], methodJavaDoc);
      assert classify(parameters[..i + 1][i]) == paramInfo;
      if paramInfo.Failure? {
        KeptByFailureStays(parameters, i + 1, classify);
        return Failure(paramInfo.error);
      }
      if paramInfo.value.Some? {
        paramInfos := paramInfos + [paramInfo.value.value];
      }
      i := i + 1;
    }
    assert parameters[..i] == parameters;
    return Success(paramInfos);
  }

  /** The request-body loop of handleMethod: the first parameter annotated as the body. */
  method FindRequestBody(parameters: seq<ParamDecl>, methodJavaDoc: Option<string>, toLowerCase: char -> char)
    returns (requestInfo: Option<ContentsInfo>)
    ensures requestInfo == RequestBodyOf(parameters, methodJavaDoc, toLowerCase)
  {
    var j := 0;
    while j < |parameters|
      invariant 0 <= j <= |parameters|
      invariant RequestBodyOf(parameters[j..], methodJavaDoc, toLowerCase) ==
                RequestBodyOf(parameters, methodJavaDoc, toLowerCase)
    {
      var contentsInfo := HandleRequestBodyParam(parameters[j], methodJavaDoc, toLowerCase);
      if contentsInfo.Some? {
        return contentsInfo;
      }
      assert parameters[j..][1..] == parameters[j + 1..];
      j := j + 1;
    }
    return None;
  }

  /** The contents of an optional fresh array. */
  function ArrayContents(a: Option<array<string>>): Option<seq<string>>
    reads if a.Some? then {a.value} else {}
  {
    if a.Some? then Some(a.value[..]) else None
  }

  /**
   * The array-valued fields of a method's request mapping: paths, verbs (rewritten in
   * place without their package prefix), params, headers, consumes and produces.
   */
  method MappingFields(mapping: Annotation)
    returns (paths: Option<seq<string>>, httpMethods: Option<seq<string>>, params: Option<seq<string>>,
             headers: Option<seq<string>>, consumes: Option<seq<string>>, produces: Option<seq<string>>)
    ensures var pairs := mapping.elementValues;
      paths == FieldValuesNamed(pairs, "value") &&
      httpMethods == (var verbs := FieldValuesNamed(pairs, "method"); if verbs.Some? then Some(Verbs(verbs.value)) else None) &&
      params == FieldValuesNamed(pairs, "params") && headers == FieldValuesNamed(pairs, "headers") &&
      consumes == FieldValuesNamed(pairs, "consumes") && produces == FieldValuesNamed(pairs, "produces")
  {
    var pathArray := FindAnnotationFieldValues(mapping, "value");
    paths := ArrayContents(pathArray);
    var verbArray := FindAnnotationFieldValues(mapping, "method");
    if verbArray.Some? {
      StripRequestMethodPrefixes(verbArray.value);
    }
    httpMethods := ArrayContents(verbArray);
    var paramArray := FindAnnotationFieldValues(mapping, "params");
    params := ArrayContents(paramArray);
    var headerArray := FindAnnotationFieldValues(mapping, "headers");
    headers := ArrayContents(headerArray);
    var consumeArray := FindAnnotationFieldValues(mapping, "consumes");
    consumes := ArrayContents(consumeArray);
    var produceArray := FindAnnotationFieldValues(mapping, "produces");
    produces := ArrayContents(produceArray);
  }

  class EndPointCollector {
    /** The path index, keyed by composed path (None when there is none). */
    var pathInfoMap: PathMap
    /** Character.toLowerCase, which the accessor-to-field naming uses. */
    const toLowerCase: char -> char

    ghost predicate Valid()
      reads this
    {
      WellFormed(pathInfoMap)
    }

    constructor(toLowerCase: char -> char)
      ensures Valid()
      ensures pathInfoMap == map[] && this.toLowerCase == toLowerCase
    {
      pathInfoMap := map[];
      this.toLowerCase := toLowerCase;
    }

    /** getPathInfoMap. */
    function GetPathInfoMap(): (m: PathMap)
      requires Valid()
      reads this
      ensures WellFormed(m)
    {
      pathInfoMap
    }

    /**
     * processClass: a class without a request mapping adds nothing; otherwise its
     * methods are handled in order with a fresh name set, and a failure stops the class.
     */
    method ProcessClass(classDoc: ClassDecl) returns (outcome: Outcome)
      requires Valid()
      modifies this
      ensures Valid()
      ensures var step := ClassStep(classDoc, toLowerCase);
        outcome == step.outcome && pathInfoMap == AppendedAll(old(pathInfoMap), step.endPoints)
    {
      var requestMapping := FindAnnotation(classDoc.annotations, RequestMappingAnnotationName);
      if requestMapping.None? {
        return Pass;
      }
      var paths := FindAnnotationFieldValues(requestMapping.value, "value");
      var javaDoc := classDoc.rawComment;
      var firstSentence := JavaDocFirstSentence(javaDoc);
      var classInfo := ClassInfo(classDoc.name, Some(classDoc.qualifiedTypeName), javaDoc, firstSentence, ArrayContents(paths));
      assert classInfo == ClassInfoOf(classDoc, requestMapping.value);
      outcome := ProcessMethods(classInfo, classDoc.methods);
    }

    /** The methods loop of processClass, with the per-class name set starting empty. */
    method ProcessMethods(classInfo: ClassInfo, methods: seq<MethodDecl>) returns (outcome: Outcome)
      requires Valid()
      modifies this
      ensures Valid()
      ensures var p := MethodsProgress(classInfo, methods, toLowerCase);
        outcome == p.outcome && pathInfoMap == AppendedAll(old(pathInfoMap), p.endPoints)
    {
      ghost var start := pathInfoMap;
      var methodNameSet: set<string> := {};
      outcome := Pass;
      var i := 0;
      while i < |methods|
        invariant 0 <= i <= |methods|
        invariant Valid()
        invariant outcome == Pass
        invariant var p := MethodsProgress(classInfo, methods[..i], toLowerCase);
          p.outcome == Pass && methodNameSet == p.names && pathInfoMap == AppendedAll(start, p.endPoints)
      {
        ghost var p := MethodsProgress(classInfo, methods[..i], toLowerCase);
        ghost var r := MethodInfoFor(methods[i], methodNameSet, toLowerCase);
        assert methods[..i + 1][..i] == methods[..i];
        var names;
        outcome, names := HandleMethod(classInfo, methodNameSet, methods[i]);
        if outcome.Fail? {
          assert r.Failed? && pathInfoMap == AppendedAll(start, p.endPoints);
          assert MethodsProgress(classInfo, methods[..i + 1], toLowerCase) == p.(outcome := outcome);
          ProgressFailureSticks(classInfo, methods, i + 1, toLowerCase);
          assert MethodsProgress(classInfo, methods, toLowerCase) == p.(outcome := outcome);
          return;
        }
        if r.Mapped? {
          AppendedAllConcat(start, p.endPoints, EndPointsFor(classInfo, r.methodInfo));
        }
        methodNameSet := names;
        i := i + 1;
      }
      assert methods[..i] == methods;
    }

    /**
     * handleMethod: the method's record is built from its mapping, parameters and
     * return type, given the first unused unique name, and filed under every path of
     * the class-path by method-path product.
     */
    method HandleMethod(classInfo: ClassInfo, methodNameSet: set<string>, methodDoc: MethodDecl)
      returns (outcome: Outcome, names: set<string>)
      requires Valid()
      modifies this
      ensures Valid()
      ensures var r := MethodInfoFor(methodDoc, methodNameSet, toLowerCase);
        outcome == (if r.Failed? then Fail(r.error) else Pass) &&
        names == (if r.Mapped? then methodNameSet + {r.methodInfo.uniqueName} else methodNameSet) &&
        pathInfoMap == AppendedAll(old(pathInfoMap), if r.Mapped? then EndPointsFor(classInfo, r.methodInfo) else [])
    {
      var requestMapping := FindAnnotation(methodDoc.annotations, RequestMappingAnnotationName);
      if requestMapping.None? {
        return Pass, methodNameSet;
      }
      var mapping := requestMapping.value;
      var paths, httpMethods, params, headers, consumes, produces := MappingFields(mapping);
      var methodJavaDoc := methodDoc.rawComment;
      var parameters := methodDoc.parameters;

      var paramInfos := CollectParamInfos(parameters, methodJavaDoc);
      if paramInfos.Failure? {
        return Fail(paramInfos.error), methodNameSet;
      }
      var requestInfo := FindRequestBody(parameters, methodJavaDoc, toLowerCase);
      var responseInfo := HandleResponseBody(methodDoc, toLowerCase);
      var uniqueName;
      uniqueName, names := AddUniqueName(methodNameSet, methodDoc.name);
      var firstSentence := JavaDocFirstSentence(methodJavaDoc);
      var methodInfo := MethodInfo(
        methodDoc.name, uniqueName, methodJavaDoc, firstSentence, paths, httpMethods,
        params, headers, consumes, produces,
        if paramInfos.value == [] then None else Some(paramInfos.value), requestInfo, responseInfo);
      assert methodInfo == MappedInfo(methodDoc, mapping.elementValues, methodNameSet, paramInfos.value, toLowerCase);

      AddEndPoints(classInfo, methodInfo);
      outcome := Pass;
    }

    /** The class-path loop of handleMethod. */
    method AddEndPoints(classInfo: ClassInfo, methodInfo: MethodInfo)
      requires Valid()
      modifies this
      ensures Valid()
      ensures pathInfoMap == AppendedAll(old(pathInfoMap), EndPointsFor(classInfo, methodInfo))
    {
      if classInfo.paths.None? {
        AddClassPathInfo(classInfo, methodInfo, None);
        return;
      }
      var classPaths := classInfo.paths.value;
      ghost var start := pathInfoMap;
      var k := 0;
      while k < |classPaths|
        invariant 0 <= k <= |classPaths|
        invariant Valid()
        invariant pathInfoMap == AppendedAll(start, EndPointsOver(classInfo, methodInfo, classPaths[..k]))
      {
        assert classPaths[..k + 1][..k] == classPaths[..k];
        AppendedAllConcat(start, EndPointsOver(classInfo, methodInfo, classPaths[..k]),
                          ClassPathEndPoints(classInfo, methodInfo, Some(classPaths[k])));
        AddClassPathInfo(classInfo, methodInfo, Some(classPaths[k]));
        k := k + 1;
      }
      assert classPaths[..k] == classPaths;
    }

    /** addClassPathInfo: files the method under the class path, or under each composed path. */
    method AddClassPathInfo(classInfo: ClassInfo, methodInfo: MethodInfo, classPath: Option<string>)
      requires Valid()
      modifies this
      ensures Valid()
      ensures pathInfoMap == AppendedAll(old(pathInfoMap), ClassPathEndPoints(classInfo, methodInfo, classPath))
    {
      var unquoted := PathNoQuotes(classPath);
      if methodInfo.paths.None? {
        AddPathInfo(classInfo, methodInfo, unquoted);
        assert ClassPathEndPoints(classInfo, methodInfo, classPath)[..0] == [];
        return;
      }
      var methodPaths := methodInfo.paths.value;
      ghost var start := pathInfoMap;
      ghost var all := ClassPathEndPoints(classInfo, methodInfo, classPath);
      var j := 0;
      while j < |methodPaths|
        invariant 0 <= j <= |methodPaths|
        invariant Valid()
        invariant pathInfoMap == AppendedAll(start, all[..j])
      {
        var path := CalculatePath(unquoted, methodPaths[j]);
        assert all[..j + 1][..j] == all[..j];
        assert all[j] == EndPoint(Some(path), classInfo, methodInfo);
        assert AppendedAll(start, all[..j + 1]) == Appended(AppendedAll(start, all[..j]), all[j]);
        AddPathInfo(classInfo, methodInfo, Some(path));
        j := j + 1;
      }
      assert all[..j] == all;
    }

    /** addPathInfo: appends one end-point to its path's list, creating the list if absent. */
    method AddPathInfo(classInfo: ClassInfo, methodInfo: MethodInfo, path: Option<string>)
      requires Valid()
      modifies this
      ensures Valid()
      ensures pathInfoMap == Appended(old(pathInfoMap), EndPoint(path, classInfo, methodInfo))
    {
      AppendedWellFormed(pathInfoMap, EndPoint(path, classInfo, methodInfo));
      var pathInfos: seq<EndPoint>;
      if path in pathInfoMap {
        pathInfos := pathInfoMap[path];
      } else {
        pathInfos := [];
        pathInfoMap := pathInfoMap[path := pathInfos];
      }
      pathInfos := pathInfos + [EndPoint(path, classInfo, methodInfo)];
      pathInfoMap := pathInfoMap[path := pathInfos];
    }
  }
}
