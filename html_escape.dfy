/** The writer's text helpers: htmlEscape, isEmpty and the output of printArray. */
module HtmlText {
  import opened Nullable

  /** The characters htmlEscape rewrites. */
  predicate IsHtmlChar(c: char) {
    c == '&' || c == '<' || c == '>'
  }

  /** The replacement of one character. */
  function EscapedChar(c: char): (r: string)
    ensures !IsHtmlChar(c) ==> r == [c]
    ensures forall k :: 0 <= k < |r| ==> r[k] != '<' && r[k] != '>'
  {
    if c == '&' then "&amp;" else if c == '<' then "&lt;" else if c == '>' then "&gt;" else [c]
  }

  /** Each &, < and > replaced by its entity, every other character copied in order. */
  function Escape(s: string): (r: string)
    ensures forall k :: 0 <= k < |r| ==> r[k] != '<' && r[k] != '>'
    decreases |s|
  {
    if s == [] then [] else EscapedChar(s[0]) + Escape(s[1..])
  }

  /** Escaping distributes over concatenation. */
  lemma {:induction false} EscapeAppend(a: string, b: string)
    ensures Escape(a + b) == Escape(a) + Escape(b)
    decreases |a|
  {
    if a == [] {
      assert a + b == b;
    } else {
      assert (a + b)[0] == a[0] && (a + b)[1..] == a[1..] + b;
      EscapeAppend(a[1..], b);
    }
  }

  /** A string with none of &, < and > is its own escape. */
  lemma {:induction false} EscapeOfPlain(s: string)
    requires forall k :: 0 <= k < |s| ==> !IsHtmlChar(s[k])
    ensures Escape(s) == s
    decreases |s|
  {
    if s != [] {
      EscapeOfPlain(s[1..]);
    }
  }

  /** The number of occurrences of a character. */
  function Occurrences(s: string, c: char): nat
    decreases |s|
  {
    if s == [] then 0 else (if s[0] == c then 1 else 0) + Occurrences(s[1..], c)
  }

  /** Each & adds four characters and each < or > adds three. */
  lemma {:induction false} EscapeLength(s: string)
    ensures |Escape(s)| == |s| + 4 * Occurrences(s, '&') + 3 * (Occurrences(s, '<') + Occurrences(s, '>'))
    decreases |s|
  {
    if s != [] {
      EscapeLength(s[1..]);
    }
  }

  /** Decoding of the three entities, the inverse of Escape. */
  function Unescape(s: string): string
    decreases |s|
  {
    if s == [] then []
    else if "&amp;" <= s then "&" + Unescape(s[5..])
    else if "&lt;" <= s then "<" + Unescape(s[4..])
    else if "&gt;" <= s then ">" + Unescape(s[4..])
    else [s[0]] + Unescape(s[1..])
  }

  /** Escaping loses nothing: decoding the escape gives the original string. */
  lemma {:induction false} UnescapeEscape(s: string)
    ensures Unescape(Escape(s)) == s
    decreases |s|
  {
    if s != [] {
      var rest := Escape(s[1..]);
      UnescapeEscape(s[1..]);
      var e := EscapedChar(s[0]) + rest;
      if s[0] == '&' {
        assert "&amp;" <= e && e[5..] == rest;
      } else if s[0] == '<' {
        assert e[1] == 'l' && "&amp;"[1] == 'a';
        assert "&lt;" <= e && e[4..] == rest;
      } else if s[0] == '>' {
        assert e[1] == 'g' && "&amp;"[1] == 'a' && "&lt;"[1] == 'l';
        assert "&gt;" <= e && e[4..] == rest;
      } else {
        assert e[0] == s[0] && e[1..] == rest;
      }
      assert s == [s[0]] + s[1..];
    }
  }

  /**
   * htmlEscape as a function: null stays null; otherwise the escape, which leaves a
   * string without &, < and > (the empty one included) as it is.
   */
  function HtmlEscapeOf(maybeHtml: Option<string>): (r: Option<string>)
    ensures r.None? <==> maybeHtml.None?
    ensures maybeHtml.Some? && (forall k :: 0 <= k < |maybeHtml.value| ==> !IsHtmlChar(maybeHtml.value[k])) ==> r == maybeHtml
    ensures r.Some? ==> forall k :: 0 <= k < |r.value| ==> r.value[k] != '<' && r.value[k] != '>'
  {
    if maybeHtml.None? then None
    else
      var s := maybeHtml.value;
      assert (forall k :: 0 <= k < |s| ==> !IsHtmlChar(s[k])) ==> Escape(s) == s by {
        if forall k :: 0 <= k < |s| ==> !IsHtmlChar(s[k]) {
          EscapeOfPlain(s);
        }
      }
      Some(Escape(s))
  }

  /**
   * htmlEscape: null and plain strings are returned as they are (the first loop looks
   * for a special character); otherwise the second loop builds the escape.
   */
  method HtmlEscape(maybeHtml: Option<string>) returns (r: Option<string>)
    ensures r == HtmlEscapeOf(maybeHtml)
  {
    if maybeHtml.None? || maybeHtml.value == [] {
      return maybeHtml;
    }
    var s := maybeHtml.value;
    var htmlChar := false;
    for i := 0 to |s|
      invariant htmlChar <==> exists k :: 0 <= k < i && IsHtmlChar(s[k])
    {
      if s[i] == '&' || s[i] == '<' || s[i] == '>' {
        htmlChar := true;
      }
    }
    if !htmlChar {
      EscapeOfPlain(s);
      return maybeHtml;
    }
    var sb: string := [];
    for i := 0 to |s|
      invariant sb == Escape(s[..i])
    {
      EscapeAppend(s[..i], [s[i]]);
      assert s[..i + 1] == s[..i] + [s[i]];
      var ch := s[i];
      if ch == '&' {
        sb := sb + "&amp;";
      } else if ch == '<' {
        sb := sb + "&lt;";
      } else if ch == '>' {
        sb := sb + "&gt;";
      } else {
        sb := sb + [ch];
      }
    }
    assert s[..|s|] == s;
    return Some(sb);
  }

  /** isEmpty: a null or zero-length array. */
  predicate IsEmpty(values: Option<seq<string>>) {
    values.None? || |values.value| == 0
  }

  /** The escaped elements joined by ", ". */
  function Joined(items: seq<string>): (r: string)
    decreases |items|
  {
    if items == [] then []
    else if |items| == 1 then Escape(items[0])
    else Joined(items[..|items| - 1]) + ", " + Escape(items[|items| - 1])
  }

  /**
   * What printArray writes: nothing for an empty array; otherwise the escaped prefix,
   * if there is one, then the escaped elements separated by ", ".
   */
  function PrintedArray(prefix: Option<string>, values: Option<seq<string>>): (r: string)
    ensures IsEmpty(values) ==> r == []
  {
    if IsEmpty(values) then []
    else (if prefix.Some? then Escape(prefix.value) else []) + Joined(values.value)
  }

  /** The joined elements hold no angle bracket, whatever the elements were. */
  lemma {:induction false} JoinedHasNoAngles(items: seq<string>)
    ensures forall k :: 0 <= k < |Joined(items)| ==> Joined(items)[k] != '<' && Joined(items)[k] != '>'
    decreases |items|
  {
    if |items| > 1 {
      JoinedHasNoAngles(items[..|items| - 1]);
    }
  }

  /** printArray's output holds no angle bracket: every part of it is escaped. */
  lemma PrintedArrayHasNoAngles(prefix: Option<string>, values: Option<seq<string>>)
    ensures forall k :: 0 <= k < |PrintedArray(prefix, values)| ==>
      PrintedArray(prefix, values)[k] != '<' && PrintedArray(prefix, values)[k] != '>'
  {
    if !IsEmpty(values) {
      JoinedHasNoAngles(values.value);
    }
  }

  /** With no separator and no special character in the elements, n elements give n - 1 separators' worth of length. */
  lemma {:induction false} JoinedLength(items: seq<string>)
    requires items != []
    requires forall i, k :: 0 <= i < |items| && 0 <= k < |items[i]| ==> !IsHtmlChar(items[i][k])
    ensures |Joined(items)| == TotalLength(items) + 2 * (|items| - 1)
    decreases |items|
  {
    if |items| == 1 {
      EscapeOfPlain(items[0]);
    } else {
      var front := items[..|items| - 1];
      JoinedLength(front);
      EscapeOfPlain(items[|items| - 1]);
    }
  }

  /** The summed lengths of a list of strings. */
  function TotalLength(items: seq<string>): nat
    decreases |items|
  {
    if items == [] then 0 else TotalLength(items[..|items| - 1]) + |items[|items| - 1]|
  }

  /** printArray: the prefix through writeIfNotNull, then the elements. */
  method PrintArray(prefix: Option<string>, values: Option<seq<string>>) returns (written: string)
    ensures written == PrintedArray(prefix, values)
  {
    written := [];
    if values.None? || |values.value| == 0 {
      return;
    }
    if prefix.Some? {
      var escapedPrefix := HtmlEscape(prefix);
      written := written + escapedPrefix.value;
    }
    var elements := WriteElements(values.value);
    written := written + elements;
  }

  /** The element loop of printArray: ", " before every element but the first. */
  method WriteElements(items: seq<string>) returns (written: string)
    ensures written == Joined(items)
  {
    written := [];
    for i := 0 to |items|
      invariant written == Joined(items[..i])
    {
      assert items[..i + 1][..i] == items[..i];
      assert items[..i + 1][i] == items[i];
      assert Joined(items[..i + 1]) == if i == 0 then Escape(items[i]) else Joined(items[..i]) + ", " + Escape(items[i]);
      if i > 0 {
        written := written + ", ";
      }
      var escaped := HtmlEscape(Some(items[i]));
      written := written + escaped.value;
    }
    assert items[..|items|] == items;
  }
}
