/**
 * Javadoc text snippets: the first sentence, and a scanner with the behaviour of the
 * patterns `(?s)@param\s+([^\s]+)\s+([^@]+)` and `(?s)@return\s+([^@]+)` under
 * Matcher.find, including the one backtracking case they allow.
 */
module DocComments {
  import opened Nullable

  /** The characters that end a first sentence. */
  predicate IsTerminator(c: char) {
    c == '.' || c == '!' || c == '?' || c == '@'
  }

  /** The shortest prefix ending in a terminator, or the whole text when there is none. */
  function FirstSentence(s: string): (r: string)
    ensures r <= s
    ensures forall i :: 0 <= i < |r| - 1 ==> !IsTerminator(s[i])
    ensures |r| < |s| ==> |r| > 0 && IsTerminator(s[|r| - 1])
  {
    if s == [] then []
    else if IsTerminator(s[0]) then [s[0]]
    else [s[0]] + FirstSentence(s[1..])
  }

  /** Taking the first sentence twice is the same as taking it once. */
  lemma {:induction false} FirstSentenceIdempotent(s: string)
    ensures FirstSentence(FirstSentence(s)) == FirstSentence(s)
  {
    if s != [] && !IsTerminator(s[0]) {
      FirstSentenceIdempotent(s[1..]);
      var r := FirstSentence(s);
      assert r[0] == s[0] && r[1..] == FirstSentence(s[1..]);
    }
  }

  /** Worked examples; the empty text gives the empty text, not null. */
  lemma FirstSentenceExamples()
    ensures FirstSentence("") == ""
    ensures FirstSentence("Hi. There") == "Hi."
    ensures FirstSentence("no stop") == "no stop"
  {
    var a := "Hi. There";
    FirstSentenceAt(a, 2);
    assert a[..3] == "Hi.";
    var b := "no stop";
    forall j | 0 <= j < |b| ensures !IsTerminator(b[j]) {
    }
    FirstSentenceAt(b, |b|);
  }

  /** javaDocFirstSentence on a possibly null comment. */
  function FirstSentenceOf(javaDoc: Option<string>): (r: Option<string>)
    ensures r.None? <==> javaDoc.None?
    ensures javaDoc.Some? ==> r.value == FirstSentence(javaDoc.value)
  {
    match javaDoc
    case None => None
    case Some(s) => Some(FirstSentence(s))
  }

  /** Past a terminator-free prefix of length i, the first sentence is decided at i. */
  lemma {:induction false} FirstSentenceAt(s: string, i: nat)
    requires i <= |s|
    requires forall j :: 0 <= j < i ==> !IsTerminator(s[j])
    ensures i < |s| && IsTerminator(s[i]) ==> FirstSentence(s) == s[..i + 1]
    ensures i == |s| ==> FirstSentence(s) == s
  {
    if i > 0 {
      FirstSentenceAt(s[1..], i - 1);
      if i < |s| {
        assert [s[0]] + s[1..][..i] == s[..i + 1];
      }
    }
  }

  /** javaDocFirstSentence: the scan for the first terminator. */
  method JavaDocFirstSentence(javaDoc: Option<string>) returns (r: Option<string>)
    ensures r == FirstSentenceOf(javaDoc)
  {
    if javaDoc.None? {
      return None;
    }
    var s := javaDoc.value;
    var i := 0;
    while i < |s|
      invariant 0 <= i <= |s|
      invariant forall j :: 0 <= j < i ==> !IsTerminator(s[j])
    {
      if s[i] == '.' || s[i] == '!' || s[i] == '?' || s[i] == '@' {
        FirstSentenceAt(s, i);
        return Some(s[..i + 1]);
      }
      i := i + 1;
    }
    FirstSentenceAt(s, i);
    return Some(s);
  }

  /** The characters that `\s` matches. */
  predicate IsSpace(c: char) {
    c == ' ' || c == '\t' || c == '\n' || c == '\U{000B}' || c == '\U{000C}' || c == '\r'
  }

  /** The end of the run of whitespace starting at i. */
  function SpaceEnd(s: string, i: nat): (e: nat)
    requires i <= |s|
    ensures i <= e <= |s|
    ensures forall k :: i <= k < e ==> IsSpace(s[k])
    ensures e < |s| ==> !IsSpace(s[e])
    decreases |s| - i
  {
    if i == |s| || !IsSpace(s[i]) then i else SpaceEnd(s, i + 1)
  }

  /** The end of the run of non-whitespace starting at i. */
  function NonSpaceEnd(s: string, i: nat): (e: nat)
    requires i <= |s|
    ensures i <= e <= |s|
    ensures forall k :: i <= k < e ==> !IsSpace(s[k])
    ensures e < |s| ==> IsSpace(s[e])
    decreases |s| - i
  {
    if i == |s| || IsSpace(s[i]) then i else NonSpaceEnd(s, i + 1)
  }

  /** The position of the first '@' at or after i, or the end of the text. */
  function AtEnd(s: string, i: nat): (e: nat)
    requires i <= |s|
    ensures i <= e <= |s|
    ensures forall k :: i <= k < e ==> s[k] != '@'
    ensures e < |s| ==> s[e] == '@'
    decreases |s| - i
  {
    if i == |s| || s[i] == '@' then i else AtEnd(s, i + 1)
  }

  /** Which of the two tags a scan looks for. */
  datatype Tag = ParamTag | ReturnTag {
    function Word(): string {
      match this
      case ParamTag => "@param"
      case ReturnTag => "@return"
    }
  }

  /** One match: where it starts, the captured name (empty for @return), the text, and its end. */
  datatype TagMatch = TagMatch(start: nat, name: string, text: string, end: nat)

  /** A text group that is non-empty and holds no '@'. */
  predicate IsSnippet(t: string) {
    |t| > 0 && forall k :: 0 <= k < |t| ==> t[k] != '@'
  }

  /**
   * `\s+([^@]+)` at j, greedily: the text runs from the first non-space to the next '@'.
   * When the spaces are followed by '@' or the end, the engine gives back one space
   * to the text group, which needs at least two spaces.
   */
  function TextAfterSpaces(s: string, start: nat, name: string, j: nat): (r: Option<TagMatch>)
    requires start <= j <= |s|
    ensures r.Some? ==> r.value.start == start && r.value.name == name
    ensures r.Some? ==> j < r.value.end <= |s| && IsSnippet(r.value.text)
    ensures r.Some? ==> j < r.value.end - |r.value.text| + 1 &&
                        r.value.text == s[r.value.end - |r.value.text|..r.value.end]
  {
    var p := SpaceEnd(s, j);
    if p == j then None
    else if p < |s| && s[p] != '@' then Some(TagMatch(start, name, s[p..AtEnd(s, p)], AtEnd(s, p)))
    else if p - j >= 2 then Some(TagMatch(start, name, [s[p - 1]], p))
    else None
  }

  /** The whole pattern of a tag, matched at exactly position i. */
  function MatchAt(tag: Tag, s: string, i: nat): (r: Option<TagMatch>)
    requires i <= |s|
    ensures r.Some? ==> r.value.start == i && i < r.value.end <= |s| && IsSnippet(r.value.text)
    ensures r.Some? ==> tag.Word() <= s[i..]
    ensures r.Some? && tag == ParamTag ==> |r.value.name| > 0 && forall k :: 0 <= k < |r.value.name| ==> !IsSpace(r.value.name[k])
  {
    var w := tag.Word();
    if !(w <= s[i..]) then None
    else
      var j := i + |w|;
      match tag
      case ReturnTag => TextAfterSpaces(s, i, [], j)
      case ParamTag =>
        var k := SpaceEnd(s, j);
        if k == j then None
        else
          var m := NonSpaceEnd(s, k);
          if m == k then None
          else TextAfterSpaces(s, i, s[k..m], m)
  }

  /** Matcher.find(start): the leftmost match starting at or after start. */
  function FindTag(tag: Tag, s: string, start: nat): (r: Option<TagMatch>)
    requires start <= |s|
    ensures r.Some? ==> start <= r.value.start <= |s| && MatchAt(tag, s, r.value.start) == r
    decreases |s| - start
  {
    var m := MatchAt(tag, s, start);
    if m.Some? then m
    else if start == |s| then None
    else FindTag(tag, s, start + 1)
  }

  /** No match starts before the one find returns: it is the leftmost. */
  lemma {:induction false} FindTagIsLeftmost(tag: Tag, s: string, start: nat, i: nat)
    requires start <= i <= |s| && MatchAt(tag, s, i).Some?
    ensures FindTag(tag, s, start).Some? && FindTag(tag, s, start).value.start <= i
    decreases i - start
  {
    var m := MatchAt(tag, s, start);
    if m.None? {
      assert start < i;
      assert FindTag(tag, s, start) == FindTag(tag, s, start + 1);
      FindTagIsLeftmost(tag, s, start + 1, i);
    } else {
      assert FindTag(tag, s, start) == m;
    }
  }

  /** find skips only positions without a match, and finds nothing only when there is none. */
  lemma FindTagSkipsNoMatch(tag: Tag, s: string, start: nat)
    requires start <= |s|
    ensures var r := FindTag(tag, s, start);
      r.Some? ==> forall k :: start <= k < r.value.start ==> MatchAt(tag, s, k).None?
    ensures var r := FindTag(tag, s, start);
      r.None? ==> forall k :: start <= k <= |s| ==> MatchAt(tag, s, k).None?
  {
    var r := FindTag(tag, s, start);
    var last := if r.Some? then r.value.start else |s| + 1;
    forall k | start <= k < last ensures MatchAt(tag, s, k).None? {
      if MatchAt(tag, s, k).Some? {
        FindTagIsLeftmost(tag, s, start, k);
      }
    }
  }

  /** The text of the first @param match from start on whose name is the parameter's. */
  function ParamDocFrom(s: string, name: string, start: nat): (r: Option<string>)
    requires start <= |s|
    ensures r.Some? ==> IsSnippet(r.value)
    decreases |s| - start
  {
    match FindTag(ParamTag, s, start)
    case None => None
    case Some(m) => if m.name == name then Some(m.text) else ParamDocFrom(s, name, m.end)
  }

  /**
   * The find chain reaches a @param match of that name at i when every match that
   * starts before it, from start on, has another name and ends no later than i.
   */
  lemma {:induction false} ParamDocFromFinds(s: string, name: string, start: nat, i: nat)
    requires start <= i <= |s|
    requires MatchAt(ParamTag, s, i).Some? && MatchAt(ParamTag, s, i).value.name == name
    requires forall k :: start <= k < i && MatchAt(ParamTag, s, k).Some? ==>
      MatchAt(ParamTag, s, k).value.name != name && MatchAt(ParamTag, s, k).value.end <= i
    ensures ParamDocFrom(s, name, start) == Some(MatchAt(ParamTag, s, i).value.text)
    decreases |s| - start
  {
    FindTagIsLeftmost(ParamTag, s, start, i);
    var m := FindTag(ParamTag, s, start).value;
    if m.start < i {
      assert m.name != name && m.end <= i;
      assert ParamDocFrom(s, name, start) == ParamDocFrom(s, name, m.end);
      ParamDocFromFinds(s, name, m.end, i);
    } else {
      assert m.start == i;
      assert MatchAt(ParamTag, s, i) == Some(m);
      assert m.name == name;
    }
  }

  /** extractParamDocs as a function: absent for a null or empty comment. */
  function ParamDoc(javaDoc: Option<string>, name: string): (r: Option<string>)
    ensures r.Some? ==> IsSnippet(r.value)
    ensures javaDoc.None? || javaDoc.value == [] ==> r.None?
  {
    if javaDoc.None? || javaDoc.value == [] then None else ParamDocFrom(javaDoc.value, name, 0)
  }

  /** A snippet found for a name is the text of a match of that name. */
  lemma {:induction false} ParamDocFromIsMatchText(s: string, name: string, start: nat)
    requires start <= |s| && ParamDocFrom(s, name, start).Some?
    ensures exists i :: start <= i <= |s| && MatchAt(ParamTag, s, i).Some? &&
              MatchAt(ParamTag, s, i).value.name == name &&
              MatchAt(ParamTag, s, i).value.text == ParamDocFrom(s, name, start).value
    decreases |s| - start
  {
    var m := FindTag(ParamTag, s, start).value;
    if m.name != name {
      ParamDocFromIsMatchText(s, name, m.end);
    }
  }

  /**
   * A non-empty comment whose @param matches before position i all have other names and
   * end by i gives the text of the match of that name at i.
   */
  lemma ParamDocFinds(javaDoc: string, name: string, i: nat)
    requires i <= |javaDoc|
    requires MatchAt(ParamTag, javaDoc, i).Some? && MatchAt(ParamTag, javaDoc, i).value.name == name
    requires forall k :: 0 <= k < i && MatchAt(ParamTag, javaDoc, k).Some? ==>
      MatchAt(ParamTag, javaDoc, k).value.name != name && MatchAt(ParamTag, javaDoc, k).value.end <= i
    ensures ParamDoc(Some(javaDoc), name) == Some(MatchAt(ParamTag, javaDoc, i).value.text)
  {
    ParamDocFromFinds(javaDoc, name, 0, i);
  }

  /** extractParamDocs: the find loop that restarts after each non-matching block. */
  method ExtractParamDocs(methodJavaDocs: Option<string>, paramName: string) returns (r: Option<string>)
    ensures r == ParamDoc(methodJavaDocs, paramName)
  {
    if methodJavaDocs.None? || methodJavaDocs.value == [] {
      return None;
    }
    var s := methodJavaDocs.value;
    var start := 0;
    while true
      invariant 0 <= start <= |s|
      invariant ParamDocFrom(s, paramName, start) == ParamDoc(methodJavaDocs, paramName)
      decreases |s| - start
    {
      var found := FindTag(ParamTag, s, start);
      if found.None? {
        return None;
      }
      if found.value.name == paramName {
        return Some(found.value.text);
      }
      start := found.value.end;
    }
  }

  /** The text after the first @return tag of a non-null comment. */
  function ReturnTagText(javaDoc: Option<string>): (r: Option<string>)
    ensures r.Some? ==> javaDoc.Some? && IsSnippet(r.value)
  {
    if javaDoc.None? then None
    else match FindTag(ReturnTag, javaDoc.value, 0)
      case None => None
      case Some(m) => Some(m.text)
  }

  /**
   * The @return text is present exactly when a non-null comment has a @return match,
   * and then it is the text of the leftmost one.
   */
  lemma ReturnTagTextCases(javaDoc: string)
    ensures ReturnTagText(Some(javaDoc)).None? <==>
      forall k :: 0 <= k <= |javaDoc| ==> MatchAt(ReturnTag, javaDoc, k).None?
    ensures ReturnTagText(Some(javaDoc)).Some? ==>
      exists i :: 0 <= i <= |javaDoc| && MatchAt(ReturnTag, javaDoc, i).Some? &&
        ReturnTagText(Some(javaDoc)).value == MatchAt(ReturnTag, javaDoc, i).value.text &&
        (forall k :: 0 <= k < i ==> MatchAt(ReturnTag, javaDoc, k).None?)
  {
    FindTagSkipsNoMatch(ReturnTag, javaDoc, 0);
    var r := FindTag(ReturnTag, javaDoc, 0);
    if r.Some? {
      var i := r.value.start;
      assert MatchAt(ReturnTag, javaDoc, i).Some?;
    }
  }

  /** A worked @param scan: the name and the text after it. */
  lemma ScanParamExample()
    ensures MatchAt(ParamTag, "@param id the id", 0) == Some(TagMatch(0, "id", "the id", 16))
  {
    var a := "@param id the id";
    assert "@param" <= a[0..];
    assert SpaceEnd(a, 6) == 7 by { assert IsSpace(a[6]) && !IsSpace(a[7]); }
    assert NonSpaceEnd(a, 7) == 9 by { assert !IsSpace(a[7]) && !IsSpace(a[8]) && IsSpace(a[9]); }
    assert SpaceEnd(a, 9) == 10 by { assert IsSpace(a[9]) && !IsSpace(a[10]); }
    assert AtEnd(a, 10) == 16;
    assert a[7..9] == "id" && a[10..16] == "the id";
  }

  /** Two spaces before an '@': the engine gives the last space back to the text group. */
  lemma ScanBacktrackExample()
    ensures MatchAt(ParamTag, "@param id  @x", 0) == Some(TagMatch(0, "id", " ", 11))
  {
    var b := "@param id  @x";
    assert "@param" <= b[0..];
    assert SpaceEnd(b, 6) == 7 by { assert IsSpace(b[6]) && !IsSpace(b[7]); }
    assert NonSpaceEnd(b, 7) == 9 by { assert !IsSpace(b[7]) && !IsSpace(b[8]) && IsSpace(b[9]); }
    assert SpaceEnd(b, 9) == 11 by { assert IsSpace(b[9]) && IsSpace(b[10]) && !IsSpace(b[11]); }
    assert b[7..9] == "id" && [b[10]] == " ";
  }

  /** One space before an '@' leaves no text, so there is no match. */
  lemma ScanNoTextExample()
    ensures MatchAt(ParamTag, "@param id @x", 0).None?
  {
    var c := "@param id @x";
    assert "@param" <= c[0..];
    assert SpaceEnd(c, 6) == 7 by { assert IsSpace(c[6]) && !IsSpace(c[7]); }
    assert NonSpaceEnd(c, 7) == 9 by { assert !IsSpace(c[7]) && !IsSpace(c[8]) && IsSpace(c[9]); }
    assert SpaceEnd(c, 9) == 10 by { assert IsSpace(c[9]) && !IsSpace(c[10]); }
  }

  /** A worked @return scan. */
  lemma ScanReturnExample()
    ensures MatchAt(ReturnTag, "@return the user", 0) == Some(TagMatch(0, "", "the user", 16))
  {
    var d := "@return the user";
    assert "@return" <= d[0..];
    assert SpaceEnd(d, 7) == 8 by { assert IsSpace(d[7]) && !IsSpace(d[8]); }
    assert AtEnd(d, 8) == 16;
    assert d[8..16] == "the user";
  }
}
