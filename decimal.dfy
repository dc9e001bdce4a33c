/** Python's `str` applied to an integer: its decimal numeral, with a leading
    '-' for negative values and no leading zeros. Ranks and page numbers are
    rendered this way before they reach a URL or a record. */
module Decimal {

  predicate IsDigit(c: char) {
    '0' <= c <= '9'
  }

  function DigitChar(d: nat): (c: char)
    requires d < 10
    ensures IsDigit(c)
  {
    "0123456789"[d]
  }

  /** The decimal numeral of a natural number, most significant digit first. */
  function NatStr(n: nat): (s: string)
    ensures |s| > 0 && forall i :: 0 <= i < |s| ==> IsDigit(s[i])
    decreases n
  {
    if n < 10 then [DigitChar(n)] else NatStr(n / 10) + [DigitChar(n % 10)]
  }

  /** `str(i)` for a Python int. */
  function Str(i: int): (s: string)
    ensures |s| > 0
    ensures s[0] == '-' <==> i < 0
  {
    if i < 0 then "-" + NatStr(-i) else NatStr(i)
  }

  ghost function DigitValue(c: char): nat
    requires IsDigit(c)
  {
    c as int - '0' as int
  }

  /** The number a string of digits denotes (the reading direction of `NatStr`). */
  ghost function DigitsValue(s: string): nat
    requires forall i :: 0 <= i < |s| ==> IsDigit(s[i])
  {
    if |s| == 0 then 0 else DigitsValue(s[..|s| - 1]) * 10 + DigitValue(s[|s| - 1])
  }

  lemma DigitCharValue(d: nat)
    requires d < 10
    ensures DigitValue(DigitChar(d)) == d
  {
  }

  /** Reading the numeral back gives the number: `NatStr` loses nothing. */
  lemma {:induction false} NatStrRoundTrip(n: nat)
    ensures DigitsValue(NatStr(n)) == n
    decreases n
  {
    var s := NatStr(n);
    if n < 10 {
      DigitCharValue(n);
    } else {
      NatStrRoundTrip(n / 10);
      DigitCharValue(n % 10);
      assert s[..|s| - 1] == NatStr(n / 10);
    }
  }

  lemma NatStrInjective(x: nat, y: nat)
    requires NatStr(x) == NatStr(y)
    ensures x == y
  {
    NatStrRoundTrip(x);
    NatStrRoundTrip(y);
  }

  /** Distinct integers are rendered as distinct strings. */
  lemma StrInjective(a: int, b: int)
    ensures Str(a) == Str(b) <==> a == b
  {
    if Str(a) == Str(b) {
      if a < 0 {
        assert b < 0;
        assert NatStr(-a) == Str(a)[1..];
        assert NatStr(-b) == Str(b)[1..];
        NatStrInjective(-a, -b);
      } else {
        assert b >= 0;
        NatStrInjective(a, b);
      }
    }
  }

  lemma StrDistinct(a: int, b: int)
    requires a != b
    ensures Str(a) != Str(b)
  {
    StrInjective(a, b);
  }
}
