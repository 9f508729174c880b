/**
 * Decimal rendering of an integer, as `%d` produces it (used by the text
 * displayer's `%d` substitution and by the theme loader's section names).
 * Integers are unbounded here; the 32-bit range of `int` is not modelled.
 */
module Decimal {

  predicate IsDigit(c: char) {
    '0' <= c <= '9'
  }

  function DigitChar(d: int): (c: char)
    requires 0 <= d < 10
    ensures IsDigit(c)
  {
    (('0' as int) + d) as char
  }

  function DigitValue(c: char): (d: int)
    requires IsDigit(c)
    ensures 0 <= d < 10
  {
    (c as int) - ('0' as int)
  }

  lemma DigitRoundTrip(d: int)
    requires 0 <= d < 10
    ensures DigitValue(DigitChar(d)) == d
  {
  }

  predicate AllDigits(s: string) {
    forall i :: 0 <= i < |s| ==> IsDigit(s[i])
  }

  /** The digits of a natural number, most significant first, no leading zero. */
  function FormatNat(n: nat): (s: string)
    ensures |s| >= 1 && AllDigits(s)
    ensures |s| > 1 ==> s[0] != '0'
    decreases n
  {
    if n < 10 then [DigitChar(n)] else FormatNat(n / 10) + [DigitChar(n % 10)]
  }

  /** `%d`: a minus sign for negative values, then the digits. */
  function FormatInt(n: int): (s: string)
    ensures |s| >= 1
    ensures s[0] == '-' || IsDigit(s[0])
    ensures AllDigits(s[1..])
    ensures (s[0] == '-') == (n < 0)
  {
    if n < 0 then "-" + FormatNat(-n) else FormatNat(n)
  }

  /** Reads back a run of digits (the reference for the round trip). */
  function ParseNat(s: string): (n: nat)
    requires AllDigits(s)
    decreases |s|
  {
    if s == [] then 0 else ParseNat(s[..|s| - 1]) * 10 + DigitValue(s[|s| - 1])
  }

  function ParseInt(s: string): int
    requires |s| >= 1 && (s[0] == '-' || IsDigit(s[0])) && AllDigits(s[1..])
  {
    if s[0] == '-' then 0 - ParseNat(s[1..]) else ParseNat(s)
  }

  lemma {:induction false} FormatNatRoundTrip(n: nat)
    ensures ParseNat(FormatNat(n)) == n
    decreases n
  {
    var s := FormatNat(n);
    if n < 10 {
      assert s[..0] == [];
      DigitRoundTrip(n);
    } else {
      FormatNatRoundTrip(n / 10);
      assert s[..|s| - 1] == FormatNat(n / 10);
      DigitRoundTrip(n % 10);
    }
  }

  /** Reading back what `%d` printed gives the original integer. */
  lemma {:induction false} FormatIntRoundTrip(n: int)
    ensures ParseInt(FormatInt(n)) == n
  {
    if n < 0 {
      NegativeRoundTrip(n);
    } else {
      FormatNatRoundTrip(n);
      assert FormatInt(n) == FormatNat(n);
    }
  }

  lemma {:induction false} NegativeRoundTrip(n: int)
    requires n < 0
    ensures ParseInt(FormatInt(n)) == n
  {
    var t := FormatNat(-n);
    var s := FormatInt(n);
    assert s == "-" + t;
    MinusSign(s, t);
    FormatNatRoundTrip(-n);
  }

  /** A minus sign in front of digits negates their value. */
  lemma MinusSign(s: string, t: string)
    requires |t| >= 1 && AllDigits(t) && s == "-" + t
    ensures ParseInt(s) == 0 - ParseNat(t)
  {
    assert s[1..] == t;
  }

  /** Distinct integers print differently. */
  lemma FormatIntInjective(m: int, n: int)
    requires FormatInt(m) == FormatInt(n)
    ensures m == n
  {
    FormatIntRoundTrip(m);
    FormatIntRoundTrip(n);
  }
}
