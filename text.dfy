/** The JavaScript string operations the services rely on: `String.prototype.trim`,
    `toUpperCase`, `toLowerCase`, and the decimal rendering of an integer inside a
    template literal. Case mapping covers the ASCII letters only. */
module Text {

  /** ECMAScript WhiteSpace and LineTerminator code points: exactly what `trim` strips. */
  predicate IsJsSpace(c: char) {
    || c == '\t' || c == '\n' || c == '\U{000B}' || c == '\U{000C}' || c == '\r' || c == ' '
    || c == '\U{00A0}' || c == '\U{1680}' || ('\U{2000}' <= c <= '\U{200A}')
    || c == '\U{2028}' || c == '\U{2029}' || c == '\U{202F}' || c == '\U{205F}'
    || c == '\U{3000}' || c == '\U{FEFF}'
  }

  /** Neither end of `s` is whitespace. */
  predicate Trimmed(s: string) {
    s == [] || (!IsJsSpace(s[0]) && !IsJsSpace(s[|s| - 1]))
  }

  /** `s.trimStart()`: the suffix left after dropping leading whitespace. */
  function TrimStart(s: string): (r: string)
    ensures |r| <= |s| && r == s[|s| - |r|..]
    ensures r == [] || !IsJsSpace(r[0])
    ensures forall i :: 0 <= i < |s| - |r| ==> IsJsSpace(s[i])
  {
    if |s| > 0 && IsJsSpace(s[0]) then TrimStart(s[1..]) else s
  }

  /** `s.trimEnd()`: the prefix left after dropping trailing whitespace. */
  function TrimEnd(s: string): (r: string)
    ensures |r| <= |s| && r == s[..|r|]
    ensures r == [] || !IsJsSpace(r[|r| - 1])
    ensures forall i :: |r| <= i < |s| ==> IsJsSpace(s[i])
  {
    if |s| > 0 && IsJsSpace(s[|s| - 1]) then TrimEnd(s[..|s| - 1]) else s
  }

  /** `s.trim()`: the result has no whitespace at either end, and a string that
      already has none comes back unchanged. */
  function Trim(s: string): (r: string)
    ensures |r| <= |s|
    ensures Trimmed(r)
    ensures Trimmed(s) ==> r == s
    ensures exists a :: StrippedAt(s, r, a)
  {
    StrippedByParts(s, TrimStart(s), TrimEnd(TrimStart(s)));
    TrimKeepsTrimmed(s);
    TrimEnd(TrimStart(s))
  }

  /** A string without whitespace at its ends is left as it is. */
  lemma TrimKeepsTrimmed(s: string)
    ensures Trimmed(s) ==> TrimEnd(TrimStart(s)) == s
  {
    if Trimmed(s) && s != [] {
      assert !IsJsSpace(s[0]);
      assert TrimStart(s) == s;
    }
  }

  /** Dropping a whitespace prefix and then a whitespace suffix leaves a middle
      part with only whitespace around it. */
  lemma StrippedByParts(s: string, front: string, r: string)
    requires |front| <= |s| && front == s[|s| - |front|..]
    requires forall i :: 0 <= i < |s| - |front| ==> IsJsSpace(s[i])
    requires |r| <= |front| && r == front[..|r|]
    requires forall i :: |r| <= i < |front| ==> IsJsSpace(front[i])
    ensures StrippedAt(s, r, |s| - |front|)
  {
    var a := |s| - |front|;
    assert r == s[a..a + |r|];
    forall i | a + |r| <= i < |s| ensures IsJsSpace(s[i]) {
      assert s[i] == front[i - a];
    }
  }

  /** `r` is the part of `s` starting at `a`, and everything of `s` before and
      after it is whitespace. */
  predicate StrippedAt(s: string, r: string, a: int) {
    && 0 <= a <= |s| - |r| && r == s[a..a + |r|]
    && (forall i :: 0 <= i < a ==> IsJsSpace(s[i]))
    && (forall i :: a + |r| <= i < |s| ==> IsJsSpace(s[i]))
  }

  function UpperChar(c: char): char {
    if 'a' <= c <= 'z' then (c as int - 32) as char else c
  }

  function LowerChar(c: char): char {
    if 'A' <= c <= 'Z' then (c as int + 32) as char else c
  }

  /** `s.toUpperCase()` on ASCII letters: same length, no lower-case letter left,
      whitespace stays exactly where it was. */
  function ToUpper(s: string): (r: string)
    ensures |r| == |s|
    ensures forall i :: 0 <= i < |s| ==> r[i] == UpperChar(s[i])
    ensures forall i :: 0 <= i < |r| ==> !('a' <= r[i] <= 'z')
    ensures forall i :: 0 <= i < |r| ==> (IsJsSpace(r[i]) <==> IsJsSpace(s[i]))
  {
    seq(|s|, i requires 0 <= i < |s| => UpperChar(s[i]))
  }

  /** `s.toLowerCase()` on ASCII letters: same length, no upper-case letter left. */
  function ToLower(s: string): (r: string)
    ensures |r| == |s|
    ensures forall i :: 0 <= i < |s| ==> r[i] == LowerChar(s[i])
    ensures forall i :: 0 <= i < |r| ==> !('A' <= r[i] <= 'Z')
  {
    seq(|s|, i requires 0 <= i < |s| => LowerChar(s[i]))
  }

  /** Upper-casing twice is upper-casing once. */
  lemma ToUpperIdempotent(s: string)
    ensures ToUpper(ToUpper(s)) == ToUpper(s)
  {
  }

  /** A string without lower-case ASCII letters is its own upper case. */
  lemma ToUpperKeepsUpperCase(s: string)
    requires forall i :: 0 <= i < |s| ==> !('a' <= s[i] <= 'z')
    ensures ToUpper(s) == s
  {
  }

  /** Upper-casing neither adds nor removes whitespace at the ends. */
  lemma ToUpperKeepsTrimmed(s: string)
    requires Trimmed(s)
    ensures Trimmed(ToUpper(s))
  {
  }

  /** `w` consists of ASCII letters only. */
  predicate AsciiLetters(w: string) {
    forall i :: 0 <= i < |w| ==> ('a' <= w[i] <= 'z' || 'A' <= w[i] <= 'Z')
  }

  /** `s` spells the word `w` in some mix of upper and lower case. */
  predicate SameLetters(s: string, w: string) {
    |s| == |w| && forall i :: 0 <= i < |s| ==> s[i] == UpperChar(w[i]) || s[i] == LowerChar(w[i])
  }

  /** Comparing `s.toUpperCase()` with an upper-case word is a case-insensitive
      comparison, and nothing looser. */
  lemma {:induction false} ToUpperMatchesSameLetters(s: string, w: string)
    requires AsciiLetters(w) && ToUpper(w) == w
    ensures ToUpper(s) == w <==> SameLetters(s, w)
  {
    if ToUpper(s) == w {
      forall i | 0 <= i < |s| ensures s[i] == UpperChar(w[i]) || s[i] == LowerChar(w[i]) {
        assert UpperChar(s[i]) == w[i];
        assert UpperChar(w[i]) == w[i];
      }
    }
    if SameLetters(s, w) {
      forall i | 0 <= i < |s| ensures ToUpper(s)[i] == w[i] {
        assert UpperChar(w[i]) == w[i];
      }
    }
  }

  /** Comparing `s.toLowerCase()` with a lower-case word is a case-insensitive
      comparison, and nothing looser. */
  lemma {:induction false} ToLowerMatchesSameLetters(s: string, w: string)
    requires AsciiLetters(w) && ToLower(w) == w
    ensures ToLower(s) == w <==> SameLetters(s, w)
  {
    if ToLower(s) == w {
      forall i | 0 <= i < |s| ensures s[i] == UpperChar(w[i]) || s[i] == LowerChar(w[i]) {
        assert LowerChar(s[i]) == w[i];
        assert LowerChar(w[i]) == w[i];
      }
    }
    if SameLetters(s, w) {
      forall i | 0 <= i < |s| ensures ToLower(s)[i] == w[i] {
        assert LowerChar(w[i]) == w[i];
      }
    }
  }

  /** `part` occurs somewhere inside `m`. */
  predicate Contains(m: string, part: string)
    decreases |m|
  {
    |part| <= |m| && (m[..|part|] == part || (|m| > 0 && Contains(m[1..], part)))
  }

  /** Whatever is spliced between a prefix and a suffix occurs in the result:
      the property a template literal `${x}` gives its message. */
  lemma {:induction false} ContainsSpliced(p: string, x: string, q: string)
    ensures Contains(p + x + q, x)
    decreases |p|
  {
    var m := p + x + q;
    if p == [] {
      assert m[..|x|] == x;
    } else {
      assert m[1..] == p[1..] + x + q;
      ContainsSpliced(p[1..], x, q);
    }
  }

  /** `pat` occurs in `s` starting at position `j`. */
  predicate OccursAt(s: string, pat: string, j: int) {
    0 <= j && j + |pat| <= |s| && s[j..j + |pat|] == pat
  }

  /** `s.indexOf(pat)`: the position of the first occurrence of `pat`, or -1. */
  function IndexOf(s: string, pat: string): (k: int)
    ensures k == -1 <==> !Contains(s, pat)
    ensures k >= 0 ==> OccursAt(s, pat, k) && forall j :: 0 <= j < k ==> !OccursAt(s, pat, j)
    ensures k >= -1
    decreases |s|
  {
    if |pat| > |s| then -1
    else if s[..|pat|] == pat then 0
    else if |s| == 0 then -1
    else
      var k := IndexOf(s[1..], pat);
      if k < 0 then -1
      else
        assert s[k + 1..k + 1 + |pat|] == s[1..][k..k + |pat|];
        assert forall j :: 1 <= j < k + 1 ==> (OccursAt(s, pat, j) <==> OccursAt(s[1..], pat, j - 1)) by {
          forall j | 1 <= j < k + 1 ensures OccursAt(s, pat, j) <==> OccursAt(s[1..], pat, j - 1) {
            if j + |pat| <= |s| {
              assert s[j..j + |pat|] == s[1..][j - 1..j - 1 + |pat|];
            }
          }
        }
        k + 1
  }

  function Digit(d: nat): (c: char)
    requires d < 10
    ensures '0' <= c <= '9' && c as int - '0' as int == d
  {
    (48 + d) as char
  }

  /** The number a string of decimal digits denotes. */
  function DigitsValue(r: string): nat
    requires forall i :: 0 <= i < |r| ==> '0' <= r[i] <= '9'
  {
    if r == [] then 0 else DigitsValue(r[..|r| - 1]) * 10 + (r[|r| - 1] as int - '0' as int)
  }

  /** Decimal digits of `n`, most significant first, without leading zeros. */
  function NatToString(n: nat): (r: string)
    ensures |r| >= 1
    ensures forall i :: 0 <= i < |r| ==> '0' <= r[i] <= '9'
    ensures |r| > 1 ==> r[0] != '0'
    ensures DigitsValue(r) == n
  {
    if n < 10 then [Digit(n)]
    else
      var r := NatToString(n / 10) + [Digit(n % 10)];
      assert r[..|r| - 1] == NatToString(n / 10);
      r
  }

  /** How a JavaScript integer appears in a template literal: an optional minus
      sign, then the decimal digits of its magnitude without leading zeros. */
  function IntToString(i: int): (r: string)
    ensures |r| >= 1
    ensures (r[0] == '-') <==> i < 0
    ensures var digits := if i < 0 then r[1..] else r;
              && |digits| >= 1 && (forall k :: 0 <= k < |digits| ==> '0' <= digits[k] <= '9')
              && (|digits| > 1 ==> digits[0] != '0')
              && DigitsValue(digits) == if i < 0 then -i else i
  {
    if i < 0 then
      var r := "-" + NatToString(-i);
      assert r[1..] == NatToString(-i);
      r
    else NatToString(i)
  }
}
