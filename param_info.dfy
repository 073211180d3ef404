/** ParamInfo: how one method parameter gets its value from the request. */
module Params {
  import opened Nullable

  /** ParamRequestKind: where in the request a parameter comes from. */
  datatype ParamRequestKind = Query | Header | Path {
    /** The human-readable name the writer shows. */
    function Description(): (d: string)
      ensures this == Query <==> d == "Query"
      ensures this == Header <==> d == "Header"
      ensures this == Path <==> d == "Path"
    {
      match this
      case Query => "Query"
      case Header => "Header"
      case Path => "Path"
    }
  }

  /** Different kinds never share a description. */
  lemma DescriptionInjective(a: ParamRequestKind, b: ParamRequestKind)
    requires a.Description() == b.Description()
    ensures a == b
  {
  }

  /** The immutable parameter record; each getter is the field of the same name. */
  datatype ParamInfo = ParamInfo(
    javaParamName: string,
    javaTypeName: string,
    requestKind: ParamRequestKind,
    requestName: Option<string>,
    required: bool,
    defaultValue: Option<string>,
    javaDoc: Option<string>)

  /** fromRequestParam: a query parameter that keeps every argument. */
  function FromRequestParam(javaParamName: string, javaTypeName: string, queryParamName: Option<string>,
                            required: bool, defaultValue: Option<string>, javaDoc: Option<string>): (p: ParamInfo)
    ensures p.requestKind == Query
    ensures p.javaParamName == javaParamName && p.javaTypeName == javaTypeName
    ensures p.requestName == queryParamName && p.required == required
    ensures p.defaultValue == defaultValue && p.javaDoc == javaDoc
  {
    ParamInfo(javaParamName, javaTypeName, Query, queryParamName, required, defaultValue, javaDoc)
  }

  /** fromPathVariable: a path-segment parameter that keeps every argument. */
  function FromPathVariable(javaParamName: string, javaTypeName: string, pathVariableName: Option<string>,
                            required: bool, defaultValue: Option<string>, javaDoc: Option<string>): (p: ParamInfo)
    ensures p.requestKind == Path
    ensures p.javaParamName == javaParamName && p.javaTypeName == javaTypeName
    ensures p.requestName == pathVariableName && p.required == required
    ensures p.defaultValue == defaultValue && p.javaDoc == javaDoc
  {
    ParamInfo(javaParamName, javaTypeName, Path, pathVariableName, required, defaultValue, javaDoc)
  }

  /** fromRequestHeader: a header parameter that keeps every argument. */
  function FromRequestHeader(javaParamName: string, javaTypeName: string, requestHeaderName: Option<string>,
                             required: bool, defaultValue: Option<string>, javaDoc: Option<string>): (p: ParamInfo)
    ensures p.requestKind == Header
    ensures p.javaParamName == javaParamName && p.javaTypeName == javaTypeName
    ensures p.requestName == requestHeaderName && p.required == required
    ensures p.defaultValue == defaultValue && p.javaDoc == javaDoc
  {
    ParamInfo(javaParamName, javaTypeName, Header, requestHeaderName, required, defaultValue, javaDoc)
  }

  /** Every record is the factory of its kind applied to its own getters. */
  lemma FactoryOfGetters(p: ParamInfo)
    ensures p.requestKind == Query ==>
      p == FromRequestParam(p.javaParamName, p.javaTypeName, p.requestName, p.required, p.defaultValue, p.javaDoc)
    ensures p.requestKind == Path ==>
      p == FromPathVariable(p.javaParamName, p.javaTypeName, p.requestName, p.required, p.defaultValue, p.javaDoc)
    ensures p.requestKind == Header ==>
      p == FromRequestHeader(p.javaParamName, p.javaTypeName, p.requestName, p.required, p.defaultValue, p.javaDoc)
  {
  }
}
