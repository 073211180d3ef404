/** Looking up annotations and their element values on a declaration. */
module Annotations {
  import opened Nullable
  import opened Declarations
  import opened PathText

  /** The first annotation whose type has the given simple name. */
  function AnnotationNamed(annotations: seq<Annotation>, name: string): (r: Option<Annotation>)
    ensures r.Some? ==> r.value in annotations && r.value.typeName == name
    ensures r.None? <==> forall a :: a in annotations ==> a.typeName != name
  {
    if annotations == [] then None
    else if annotations[0].typeName == name then Some(annotations[0])
    else AnnotationNamed(annotations[1..], name)
  }

  /** The annotation found is the first one with that name. */
  lemma {:induction false} AnnotationNamedIsFirst(annotations: seq<Annotation>, name: string, i: nat)
    requires i < |annotations| && annotations[i].typeName == name
    requires forall j :: 0 <= j < i ==> annotations[j].typeName != name
    ensures AnnotationNamed(annotations, name) == Some(annotations[i])
  {
    if i > 0 {
      AnnotationNamedIsFirst(annotations[1..], name, i - 1);
    }
  }

  /** findAnnotation: the loop over the annotations. */
  method FindAnnotation(annotations: seq<Annotation>, name: string) returns (r: Option<Annotation>)
    ensures r == AnnotationNamed(annotations, name)
  {
    var i := 0;
    while i < |annotations|
      invariant 0 <= i <= |annotations|
      invariant AnnotationNamed(annotations[i..], name) == AnnotationNamed(annotations, name)
    {
      if annotations[i].typeName == name {
        return Some(annotations[i]);
      }
      assert annotations[i..][1..] == annotations[i + 1..];
      i := i + 1;
    }
    return None;
  }

  /**
   * The unquoted elements of the first array-valued pair with the given name; a pair
   * with that name whose value is not an array is passed over.
   */
  function FieldValuesNamed(pairs: seq<ElementValue>, field: string): (r: Option<seq<string>>)
    ensures r.Some? ==> exists p :: p in pairs && p.name == field && p.elements.Some? &&
                          |r.value| == |p.elements.value| &&
                          forall i :: 0 <= i < |r.value| ==> r.value[i] == StripQuotes(p.elements.value[i])
    ensures r.None? <==> forall p :: p in pairs ==> p.name != field || p.elements.None?
  {
    if pairs == [] then None
    else if pairs[0].name == field && pairs[0].elements.Some? then
      Some(seq(|pairs[0].elements.value|, i requires 0 <= i < |pairs[0].elements.value| =>
                 StripQuotes(pairs[0].elements.value[i])))
    else FieldValuesNamed(pairs[1..], field)
  }

  /** findAnnotationFieldValues: a fresh array filled element by element. */
  method FindAnnotationFieldValues(annotation: Annotation, field: string) returns (r: Option<array<string>>)
    ensures r.None? <==> FieldValuesNamed(annotation.elementValues, field).None?
    ensures r.Some? ==> fresh(r.value) && r.value[..] == FieldValuesNamed(annotation.elementValues, field).value
  {
    var pairs := annotation.elementValues;
    var k := 0;
    while k < |pairs|
      invariant 0 <= k <= |pairs|
      invariant FieldValuesNamed(pairs[k..], field) == FieldValuesNamed(pairs, field)
    {
      var pair := pairs[k];
      if field == pair.name && pair.elements.Some? {
        var values := pair.elements.value;
        var result := new string[|values|];
        var i := 0;
        while i < |values|
          invariant 0 <= i <= |values|
          invariant forall j :: 0 <= j < i ==> result[j] == StripQuotes(values[j])
        {
          result[i] := StripQuotes(values[i]);
          i := i + 1;
        }
        assert pairs[k..][0] == pair;
        assert result[..] == FieldValuesNamed(pairs[k..], field).value;
        return Some(result);
      }
      assert pairs[k..][1..] == pairs[k + 1..];
      k := k + 1;
    }
    return None;
  }

  /** The unquoted text of the first pair with the given name. */
  function FieldValueNamed(pairs: seq<ElementValue>, field: string): (r: Option<string>)
    ensures r.Some? ==> exists p :: p in pairs && p.name == field && r.value == StripQuotes(p.text)
    ensures r.None? <==> forall p :: p in pairs ==> p.name != field
  {
    if pairs == [] then None
    else if pairs[0].name == field then Some(StripQuotes(pairs[0].text))
    else FieldValueNamed(pairs[1..], field)
  }

  /** findAnnotationFieldValue: the loop over the element-value pairs. */
  method FindAnnotationFieldValue(annotation: Annotation, field: string) returns (r: Option<string>)
    ensures r == FieldValueNamed(annotation.elementValues, field)
  {
    var pairs := annotation.elementValues;
    var k := 0;
    while k < |pairs|
      invariant 0 <= k <= |pairs|
      invariant FieldValueNamed(pairs[k..], field) == FieldValueNamed(pairs, field)
    {
      if field == pairs[k].name {
        return Some(StripQuotes(pairs[k].text));
      }
      assert pairs[k..][1..] == pairs[k + 1..];
      k := k + 1;
    }
    return None;
  }
}
