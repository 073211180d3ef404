/** extractFieldInfos: the fields of a body or response type, one per accessor. */
module Fields {
  import opened Nullable
  import opened Declarations
  import opened DocComments
  import opened Contents

  /** The boxed and string types whose fields are not listed. */
  predicate IsScalarTypeName(name: string) {
    name == "Boolean" || name == "Byte" || name == "Short" || name == "Integer" ||
    name == "Long" || name == "Float" || name == "Double" || name == "String"
  }

  /**
   * The field an accessor name stands for: getX... and isX... give X... with its first
   * character lower-cased (by the supplied Character.toLowerCase); other names give none.
   */
  function AccessorFieldName(methodName: string, toLowerCase: char -> char): (r: Option<string>)
    ensures r.Some? <==> ("get" <= methodName && |methodName| > 3) || ("is" <= methodName && |methodName| > 2)
    ensures r.Some? ==> |r.value| > 0
    ensures "get" <= methodName && |methodName| > 3 ==>
              r.value == [toLowerCase(methodName[3])] + methodName[4..]
    ensures !("get" <= methodName) && "is" <= methodName && |methodName| > 2 ==>
              r.value == [toLowerCase(methodName[2])] + methodName[3..]
  {
    if "get" <= methodName && |methodName| > 3 then Some([toLowerCase(methodName[3])] + methodName[4..])
    else if "is" <= methodName && |methodName| > 2 then Some([toLowerCase(methodName[2])] + methodName[3..])
    else None
  }

  /** Accessor names for a field are recognised: getter and boolean getter. */
  lemma AccessorFieldNameOfAccessor(c: char, rest: string, toLowerCase: char -> char)
    ensures AccessorFieldName("get" + [c] + rest, toLowerCase) == Some([toLowerCase(c)] + rest)
    ensures c != 'e' ==> AccessorFieldName("is" + [c] + rest, toLowerCase) == Some([toLowerCase(c)] + rest)
  {
    var g := "get" + [c] + rest;
    assert "get" <= g && g[3] == c && g[4..] == rest;
    var i := "is" + [c] + rest;
    assert "is" <= i && i[2] == c && i[3..] == rest;
    if c != 'e' {
      assert !("get" <= i) by { assert i[1] == 's'; }
    }
  }

  /** The fields of a method list, in declaration order; non-accessors are skipped. */
  function AccessorFields(methods: seq<MemberDoc>, toLowerCase: char -> char): (r: seq<FieldInfo>)
    ensures |r| <= |methods|
    decreases |methods|
  {
    if methods == [] then []
    else
      var last := methods[|methods| - 1];
      var prefix := AccessorFields(methods[..|methods| - 1], toLowerCase);
      match AccessorFieldName(last.name, toLowerCase)
      case None => prefix
      case Some(f) => prefix + [FieldInfo(f, last.returnTypeName, FirstSentenceOf(last.rawComment))]
  }

  /** Field extraction distributes over concatenation of the method list. */
  lemma {:induction false} AccessorFieldsAppend(a: seq<MemberDoc>, b: seq<MemberDoc>, toLowerCase: char -> char)
    ensures AccessorFields(a + b, toLowerCase) == AccessorFields(a, toLowerCase) + AccessorFields(b, toLowerCase)
    decreases |b|
  {
    if b != [] {
      assert (a + b)[..|a + b| - 1] == a + b[..|b| - 1];
      AccessorFieldsAppend(a, b[..|b| - 1], toLowerCase);
    } else {
      assert a + b == a;
    }
  }

  /** One method gives one field exactly when it is an accessor, named by its suffix. */
  lemma AccessorFieldsSingle(m: MemberDoc, toLowerCase: char -> char)
    ensures AccessorFieldName(m.name, toLowerCase).None? ==> AccessorFields([m], toLowerCase) == []
    ensures AccessorFieldName(m.name, toLowerCase).Some? ==>
      AccessorFields([m], toLowerCase) ==
        [FieldInfo(AccessorFieldName(m.name, toLowerCase).value, m.returnTypeName, FirstSentenceOf(m.rawComment))]
  {
    assert [m][..0] == [];
  }

  /** extractFieldInfos as a function: none for primitives, scalars and undocumented types. */
  function FieldInfosOf(t: TypeDesc, toLowerCase: char -> char): (r: Option<seq<FieldInfo>>)
    ensures t.isPrimitive || IsScalarTypeName(t.typeName) || t.classMethods.None? ==> r.None?
    ensures !(t.isPrimitive || IsScalarTypeName(t.typeName) || t.classMethods.None?) ==>
      r == Some(AccessorFields(t.classMethods.value, toLowerCase))
  {
    if t.isPrimitive || IsScalarTypeName(t.typeName) || t.classMethods.None? then None
    else Some(AccessorFields(t.classMethods.value, toLowerCase))
  }

  /** extractFieldInfos: the loop over the type's methods. */
  method ExtractFieldInfos(t: TypeDesc, toLowerCase: char -> char) returns (r: Option<seq<FieldInfo>>)
    ensures r == FieldInfosOf(t, toLowerCase)
  {
    if t.isPrimitive {
      return None;
    }
    var typeName := t.typeName;
    if typeName == "Boolean" || typeName == "Byte" || typeName == "Short" ||
       typeName == "Integer" || typeName == "Long" || typeName == "Float" ||
       typeName == "Double" || typeName == "String" {
      return None;
    }
    if t.classMethods.None? {
      return None;
    }
    var methodDocs := t.classMethods.value;
    var fieldInfos: seq<FieldInfo> := [];
    var i := 0;
    while i < |methodDocs|
      invariant 0 <= i <= |methodDocs|
      invariant fieldInfos == AccessorFields(methodDocs[..i], toLowerCase)
    {
      var methodName := methodDocs[i].name;
      var fieldName: Option<string> := None;
      if "get" <= methodName && |methodName| > 3 {
        fieldName := Some([toLowerCase(methodName[3])] + methodName[4..]);
      } else if "is" <= methodName && |methodName| > 2 {
        fieldName := Some([toLowerCase(methodName[2])] + methodName[3..]);
      }
      if fieldName.Some? {
        var doc := JavaDocFirstSentence(methodDocs[i].rawComment);
        fieldInfos := fieldInfos + [FieldInfo(fieldName.value, methodDocs[i].returnTypeName, doc)];
      }
      assert methodDocs[..i + 1][..i] == methodDocs[..i];
      i := i + 1;
    }
    assert methodDocs[..i] == methodDocs;
    return Some(fieldInfos);
  }
}
