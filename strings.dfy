/**
 * The two pieces of Python string behaviour the crawler relies on: the
 * substring test `pat in s` and the decimal rendering `str(n)` of a
 * non-negative integer.
 */
module Strings {

  /** `pat` occurs in `s` starting at position `i`. */
  ghost predicate OccursAt(pat: string, s: string, i: int) {
    0 <= i && i + |pat| <= |s| && s[i..i + |pat|] == pat
  }

  ghost predicate IsSubstring(pat: string, s: string) {
    exists i :: OccursAt(pat, s, i)
  }

  /** An occurrence in `s[1..]` is an occurrence in `s` one position later, and back. */
  lemma OccursShifted(pat: string, s: string, i: int)
    requires |s| > 0 && i >= 0
    ensures OccursAt(pat, s[1..], i) <==> OccursAt(pat, s, i + 1)
  {
    if 0 <= i && i + |pat| <= |s| - 1 {
      assert s[1..][i..i + |pat|] == s[i + 1..i + 1 + |pat|];
    }
  }

  /** `pat` occurs in `s` iff it starts `s` or occurs in `s[1..]`. */
  lemma SubstringStep(pat: string, s: string)
    requires |pat| <= |s|
    ensures IsSubstring(pat, s) <==> s[..|pat|] == pat || (|s| > 0 && IsSubstring(pat, s[1..]))
  {
    if s[..|pat|] == pat {
      assert OccursAt(pat, s, 0);
    }
    if |s| > 0 && IsSubstring(pat, s[1..]) {
      var i :| OccursAt(pat, s[1..], i);
      OccursShifted(pat, s, i);
    }
    if IsSubstring(pat, s) && s[..|pat|] != pat {
      var i :| OccursAt(pat, s, i);
      assert i != 0;
      OccursShifted(pat, s, i - 1);
    }
  }

  /** Python's `pat in s` on strings: true iff `pat` occurs somewhere in `s`. */
  function Contains(s: string, pat: string): (r: bool)
    ensures r <==> IsSubstring(pat, s)
    decreases |s|
  {
    if |pat| > |s| then
      false
    else
      SubstringStep(pat, s);
      if s[..|pat|] == pat then true
      else if |s| == 0 then false
      else Contains(s[1..], pat)
  }

  predicate IsDigit(c: char) {
    '0' <= c <= '9'
  }

  ghost predicate AllDigits(s: string) {
    forall i :: 0 <= i < |s| ==> IsDigit(s[i])
  }

  function DigitChar(d: nat): (c: char)
    requires d < 10
    ensures IsDigit(c) && c as int - '0' as int == d
  {
    (d + '0' as int) as char
  }

  function DigitValue(c: char): (d: nat)
    requires IsDigit(c)
    ensures d < 10
  {
    c as int - '0' as int
  }

  /** Python's `str(n)` for a non-negative integer: decimal digits, no sign, no leading zero. */
  function DecimalString(n: nat): (r: string)
    ensures |r| >= 1 && AllDigits(r)
    ensures r[0] == '0' ==> n == 0
    decreases n
  {
    if n < 10 then [DigitChar(n)] else DecimalString(n / 10) + [DigitChar(n % 10)]
  }

  /** Reads a string of decimal digits back as a number (the inverse of DecimalString). */
  function ParseDecimal(s: string): nat
    requires AllDigits(s)
    decreases |s|
  {
    if s == [] then 0 else ParseDecimal(s[..|s| - 1]) * 10 + DigitValue(s[|s| - 1])
  }

  lemma {:induction false} ParseDecimalString(n: nat)
    ensures ParseDecimal(DecimalString(n)) == n
    decreases n
  {
    var r := DecimalString(n);
    if n >= 10 {
      ParseDecimalString(n / 10);
      assert r[..|r| - 1] == DecimalString(n / 10);
    }
  }

  /** Distinct numbers render as distinct strings. */
  lemma DecimalStringInjective(m: nat, n: nat)
    requires DecimalString(m) == DecimalString(n)
    ensures m == n
  {
    ParseDecimalString(m);
    ParseDecimalString(n);
  }

  /** The length of the run of digits `s` ends with. */
  function TrailingDigits(s: string): nat
    decreases |s|
  {
    if s != [] && IsDigit(s[|s| - 1]) then 1 + TrailingDigits(s[..|s| - 1]) else 0
  }

  lemma {:induction false} TrailingDigitsOf(a: string, d: string)
    requires a != [] && !IsDigit(a[|a| - 1]) && AllDigits(d)
    ensures TrailingDigits(a + d) == |d|
    decreases |d|
  {
    if d == [] {
      assert a + d == a;
    } else {
      assert (a + d)[..|a + d| - 1] == a + d[..|d| - 1];
      TrailingDigitsOf(a, d[..|d| - 1]);
    }
  }

  /**
   * A string that ends in a non-digit followed by a run of digits splits
   * there in one way only: the run of digits is the same whichever way
   * the string is written.
   */
  lemma DigitSuffixUnique(a1: string, d1: string, a2: string, d2: string)
    requires a1 != [] && !IsDigit(a1[|a1| - 1]) && AllDigits(d1)
    requires a2 != [] && !IsDigit(a2[|a2| - 1]) && AllDigits(d2)
    requires a1 + d1 == a2 + d2
    ensures d1 == d2 && a1 == a2
  {
    var u := a1 + d1;
    TrailingDigitsOf(a1, d1);
    TrailingDigitsOf(a2, d2);
    assert d1 == u[|a1|..] == d2;
    assert a1 == u[..|a1|] == a2;
  }
}
