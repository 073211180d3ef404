/**
 * The parts of java.lang.String, java.lang.Integer and java.lang.Boolean that the
 * collector and the writer rely on: String.compareTo, String.hashCode,
 * Integer.toString and Boolean.parseBoolean.
 */
module JavaStrings {
  import opened Nullable

  /** String.compareTo: the difference of the first differing characters, else of the lengths. */
  function CompareTo(s: string, t: string): int
    decreases |s|
  {
    if |s| == 0 || |t| == 0 then |s| - |t|
    else if s[0] != t[0] then s[0] as int - t[0] as int
    else CompareTo(s[1..], t[1..])
  }

  /** Independent definition of lexicographic order: a proper prefix, or smaller at the first difference. */
  ghost predicate LexLess(s: string, t: string) {
    (|s| < |t| && s == t[..|s|]) ||
    exists k :: 0 <= k < |s| && k < |t| && s[..k] == t[..k] && s[k] < t[k]
  }

  /** compareTo is exactly antisymmetric: swapping the arguments negates the result. */
  lemma {:induction false} CompareToAntisymmetric(s: string, t: string)
    ensures CompareTo(s, t) == -CompareTo(t, s)
    decreases |s|
  {
    if |s| > 0 && |t| > 0 && s[0] == t[0] {
      CompareToAntisymmetric(s[1..], t[1..]);
    }
  }

  /** compareTo is zero exactly on equal strings. */
  lemma {:induction false} CompareToZero(s: string, t: string)
    ensures CompareTo(s, t) == 0 <==> s == t
    decreases |s|
  {
    if |s| > 0 && |t| > 0 && s[0] == t[0] {
      CompareToZero(s[1..], t[1..]);
      assert s == [s[0]] + s[1..] && t == [t[0]] + t[1..];
    }
  }

  /** compareTo is negative exactly when the first string is lexicographically smaller. */
  lemma {:induction false} CompareToNegative(s: string, t: string)
    ensures CompareTo(s, t) < 0 <==> LexLess(s, t)
    decreases |s|
  {
    if |s| == 0 {
      if |t| > 0 { assert s == t[..0]; }
    } else if |t| == 0 {
    } else if s[0] != t[0] {
      if s[0] < t[0] {
        assert s[..0] == t[..0];
      } else {
        forall k | 0 < k <= |s| && k <= |t|
          ensures s[..k][0] == s[0] && t[..k][0] == t[0]
        {
        }
      }
    } else {
      CompareToNegative(s[1..], t[1..]);
      if LexLess(s[1..], t[1..]) {
        if |s[1..]| < |t[1..]| && s[1..] == t[1..][..|s[1..]|] {
          assert s == t[..|s|];
        } else {
          var k :| 0 <= k < |s[1..]| && k < |t[1..]| && s[1..][..k] == t[1..][..k] && s[1..][k] < t[1..][k];
          assert s[..k + 1] == [s[0]] + s[1..][..k];
          assert t[..k + 1] == [t[0]] + t[1..][..k];
          assert s[k + 1] < t[k + 1];
        }
      }
      if LexLess(s, t) {
        if |s| < |t| && s == t[..|s|] {
          assert s[1..] == t[1..][..|s[1..]|];
        } else {
          var k :| 0 <= k < |s| && k < |t| && s[..k] == t[..k] && s[k] < t[k];
          assert k > 0;
          assert s[1..][..k - 1] == s[..k][1..] && t[1..][..k - 1] == t[..k][1..];
          assert s[1..][k - 1] < t[1..][k - 1];
        }
      }
    }
  }

  /** The order that compareTo induces is transitive. */
  lemma {:induction false} CompareToTransitive(a: string, b: string, c: string)
    requires CompareTo(a, b) <= 0 && CompareTo(b, c) <= 0
    ensures CompareTo(a, c) <= 0
    decreases |a|
  {
    if |a| > 0 && |b| > 0 && |c| > 0 && a[0] == b[0] == c[0] {
      CompareToTransitive(a[1..], b[1..], c[1..]);
    }
  }

  /** String.hashCode before the conversion to a signed int: h = 31 * h + c, modulo 2^32. */
  function Hash32(s: string): (h: nat)
    ensures h < 0x1_0000_0000
    decreases |s|
  {
    if s == [] then 0 else (31 * Hash32(s[..|s| - 1]) + s[|s| - 1] as int) % 0x1_0000_0000
  }

  /** String.hashCode as a signed 32-bit int. */
  function HashCode(s: string): (h: int)
    ensures -0x8000_0000 <= h < 0x8000_0000
    ensures s == [] ==> h == 0
  {
    var u := Hash32(s);
    if u >= 0x8000_0000 then u - 0x1_0000_0000 else u
  }

  /** The character for a decimal digit. */
  function DigitChar(d: nat): (c: char)
    requires d < 10
    ensures '0' <= c <= '9'
  {
    "0123456789"[d]
  }

  /** Integer.toString for a non-negative int: its decimal digits. */
  function Itos(n: nat): (s: string)
    ensures |s| > 0
    ensures forall i :: 0 <= i < |s| ==> '0' <= s[i] <= '9'
  {
    if n < 10 then [DigitChar(n)] else Itos(n / 10) + [DigitChar(n % 10)]
  }

  /** Distinct numbers print differently. */
  lemma {:induction false} ItosInjective(a: nat, b: nat)
    requires Itos(a) == Itos(b)
    ensures a == b
  {
    if a >= 10 && b >= 10 {
      assert Itos(a)[..|Itos(a)| - 1] == Itos(a / 10);
      assert Itos(b)[..|Itos(b)| - 1] == Itos(b / 10);
      ItosInjective(a / 10, b / 10);
      assert DigitChar(a % 10) == DigitChar(b % 10);
    } else if a < 10 && b < 10 {
      assert "0123456789"[a] == "0123456789"[b];
    }
  }

  /** 10^k. */
  function Pow10(k: nat): (p: nat)
    ensures p >= 1
  {
    if k == 0 then 1 else 10 * Pow10(k - 1)
  }

  /** A number of at least 10^k needs more than k digits. */
  lemma {:induction false} ItosLength(n: nat, k: nat)
    requires n >= Pow10(k)
    ensures |Itos(n)| > k
  {
    if k > 0 {
      ItosLength(n / 10, k - 1);
    }
  }

  /** The character is the given lower-case ASCII letter in either case. */
  predicate AsciiCaseEq(c: char, lower: char) {
    c == lower || ('a' <= lower <= 'z' && c as int == lower as int - 32)
  }

  /**
   * Boolean.parseBoolean: true exactly for "true" ignoring case. No character other
   * than the ASCII letters case-folds to one of t, r, u, e, so the comparison is ASCII.
   */
  function ParseBoolean(s: Option<string>): (b: bool)
    ensures b <==> s.Some? && |s.value| == 4 && forall k :: 0 <= k < 4 ==> AsciiCaseEq(s.value[k], "true"[k])
    ensures s == Some("true") || s == Some("TRUE") ==> b
    ensures s == Some("false") || s.None? ==> !b
  {
    s.Some? && |s.value| == 4 &&
    (s.value[0] == 't' || s.value[0] == 'T') &&
    (s.value[1] == 'r' || s.value[1] == 'R') &&
    (s.value[2] == 'u' || s.value[2] == 'U') &&
    (s.value[3] == 'e' || s.value[3] == 'E')
  }
}
