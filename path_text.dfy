/** The string helpers of the collector that shape paths and verbs. */
module PathText {
  import opened Nullable

  /** A string of at least two characters that starts and ends with a double quote. */
  predicate Quoted(s: string) {
    |s| >= 2 && s[0] == '"' && s[|s| - 1] == '"'
  }

  /** pathNoQuotes on a non-null string: drop one pair of surrounding quotes, if any. */
  function StripQuotes(s: string): (r: string)
    ensures Quoted(s) ==> s == "\"" + r + "\""
    ensures !Quoted(s) ==> r == s
    ensures |r| <= |s|
  {
    if Quoted(s) then s[1..|s| - 1] else s
  }

  /** Quoting a string and stripping the quotes gives the string back. */
  lemma StripQuotesOfQuoted(x: string)
    ensures StripQuotes("\"" + x + "\"") == x
  {
    var q := "\"" + x + "\"";
    assert Quoted(q);
    assert q[1..|q| - 1] == x;
  }

  /** pathNoQuotes: null stays null; otherwise one pair of surrounding quotes is dropped. */
  function PathNoQuotes(path: Option<string>): (r: Option<string>)
    ensures r.None? <==> path.None?
    ensures path.Some? ==> r.value == StripQuotes(path.value)
  {
    match path
    case None => None
    case Some(s) => Some(StripQuotes(s))
  }

  /**
   * calculatePath: both sides lose their quotes; an absent or empty class path gives
   * the method path, an empty method path gives the class path; otherwise the two are
   * concatenated with one '/' inserted only when neither side has one at the boundary.
   * A slash is never removed.
   */
  function CalculatePath(classPath: Option<string>, methodPath: string): (r: string)
    ensures var c := PathNoQuotes(classPath); var m := StripQuotes(methodPath);
      (c.None? || c.value == [] ==> r == m) &&
      (c.Some? && c.value != [] && m == [] ==> r == c.value) &&
      (c.Some? && c.value != [] && m != [] ==>
         (r == c.value + m || r == c.value + "/" + m) &&
         (r == c.value + "/" + m <==> c.value[|c.value| - 1] != '/' && m[0] != '/'))
  {
    var c := PathNoQuotes(classPath);
    var m := StripQuotes(methodPath);
    if c.None? || c.value == [] then m
    else if m == [] then c.value
    else if c.value[|c.value| - 1] != '/' && m[0] != '/' then c.value + "/" + m
    else c.value + m
  }

  /** Two non-empty sides always meet at a '/': just before or just after the class part. */
  lemma CalculatePathBoundarySlash(classPath: string, methodPath: string)
    requires StripQuotes(classPath) != [] && StripQuotes(methodPath) != []
    ensures var c := StripQuotes(classPath); var r := CalculatePath(Some(classPath), methodPath);
      |r| > |c| && c <= r && (r[|c| - 1] == '/' || r[|c|] == '/')
  {
    var c := StripQuotes(classPath);
    var m := StripQuotes(methodPath);
    var r := CalculatePath(Some(classPath), methodPath);
    if r == c + "/" + m {
      assert r[|c|] == '/';
    } else {
      assert r == c + m;
      assert r[|c| - 1] == c[|c| - 1] && r[|c|] == m[0];
    }
  }

  /** The method path is always a suffix of the composed path. */
  lemma CalculatePathEndsWithMethodPath(classPath: Option<string>, methodPath: string)
    ensures var m := StripQuotes(methodPath); var r := CalculatePath(classPath, methodPath);
      |m| <= |r| && r[|r| - |m|..] == m
  {
    var c := PathNoQuotes(classPath);
    var m := StripQuotes(methodPath);
    var r := CalculatePath(classPath, methodPath);
    if c.Some? && c.value != [] && m != [] {
      if r == c.value + "/" + m {
        assert r[|r| - |m|..] == m;
      } else {
        assert r[|r| - |m|..] == m;
      }
    }
  }

  /** Worked compositions: a slash is inserted or kept single, and a missing class path adds none. */
  lemma CalculatePathExamples()
    ensures CalculatePath(Some("/auth"), "/test") == "/auth/test"
    ensures CalculatePath(Some("/auth"), "test") == "/auth/test"
    ensures CalculatePath(None, "/x") == "/x"
  {
    assert !Quoted("/auth") && !Quoted("/test") && !Quoted("test") && !Quoted("/x");
  }

  /** A slash on both sides is kept twice, as written. */
  lemma CalculatePathDoubledExamples()
    ensures CalculatePath(Some("/auth/"), "/test") == "/auth//test"
    ensures CalculatePath(Some("/a/"), "/b") == "/a//b"
  {
    assert !Quoted("/auth/") && !Quoted("/test") && !Quoted("/a/") && !Quoted("/b");
  }

  /** Quotes around either part are stripped before composing. */
  lemma CalculatePathQuotedExample()
    ensures CalculatePath(Some("\"/a\""), "\"x\"") == "/a/x"
  {
    StripQuotesOfQuoted("/a");
    StripQuotesOfQuoted("x");
  }

  /** The package prefix that verb values carry. */
  const RequestMethodPrefix: string := "org.springframework.web.bind.annotation.RequestMethod."

  /** A verb value with the package prefix removed when it has one. */
  function WithoutRequestMethodPrefix(s: string): (r: string)
    ensures RequestMethodPrefix <= s ==> s == RequestMethodPrefix + r
    ensures !(RequestMethodPrefix <= s) ==> r == s
  {
    if RequestMethodPrefix <= s then s[|RequestMethodPrefix|..] else s
  }

  /** Prefixing a verb and stripping the prefix gives the verb back. */
  lemma WithoutRequestMethodPrefixOfPrefixed(v: string)
    ensures WithoutRequestMethodPrefix(RequestMethodPrefix + v) == v
  {
    assert RequestMethodPrefix <= RequestMethodPrefix + v;
  }
}
