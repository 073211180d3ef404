/** ContentsInfo and FieldInfo: the shape of a request body or a response. */
module Contents {
  import opened Nullable

  /** One field of a body type, derived from an accessor method. */
  datatype FieldInfo = FieldInfo(fieldName: string, typeName: string, javaDoc: Option<string>)

  /** The immutable contents record; each getter is the field of the same name. */
  datatype ContentsInfo = ContentsInfo(
    javaParamName: Option<string>,
    javaTypeName: string,
    javaDoc: Option<string>,
    fieldInfos: Option<seq<FieldInfo>>)

  /** fromRequestBody: the contents of a body parameter, which keeps its name. */
  function FromRequestBody(javaParamName: string, javaTypeName: string, javaDoc: Option<string>,
                           fieldInfos: Option<seq<FieldInfo>>): (c: ContentsInfo)
    ensures c.javaParamName == Some(javaParamName)
    ensures c.javaTypeName == javaTypeName && c.javaDoc == javaDoc && c.fieldInfos == fieldInfos
  {
    ContentsInfo(Some(javaParamName), javaTypeName, javaDoc, fieldInfos)
  }

  /** fromResponse: the contents of a return value, which has no parameter name. */
  function FromResponse(javaTypeName: string, javaDoc: Option<string>,
                        fieldInfos: Option<seq<FieldInfo>>): (c: ContentsInfo)
    ensures c.javaParamName.None?
    ensures c.javaTypeName == javaTypeName && c.javaDoc == javaDoc && c.fieldInfos == fieldInfos
  {
    ContentsInfo(None, javaTypeName, javaDoc, fieldInfos)
  }

  /** The parameter name tells the two factories apart, and each rebuilds its records. */
  lemma FactoryOfGetters(c: ContentsInfo)
    ensures c.javaParamName.None? ==> c == FromResponse(c.javaTypeName, c.javaDoc, c.fieldInfos)
    ensures c.javaParamName.Some? ==>
      c == FromRequestBody(c.javaParamName.value, c.javaTypeName, c.javaDoc, c.fieldInfos)
  {
  }
}
