/** Decimal text of integers: Python's `str(n)` / f-string formatting, and
    `int(digits)`. */
module Decimal {
  import opened Text

  function DigitChar(d: nat): (c: char)
    requires d < 10
    ensures IsDigit(c)
  {
    ('0' as int + d) as char
  }

  function DigitValue(c: char): (d: nat)
    requires IsDigit(c)
    ensures d < 10 && DigitChar(d) == c
  {
    c as int - '0' as int
  }

  predicate AllDigits(s: string) {
    forall i :: 0 <= i < |s| ==> IsDigit(s[i])
  }

  /** `str(n)` for `n >= 0`: at least one digit, and no leading zero unless
      the number is zero. */
  function NatToString(n: nat): (r: string)
    ensures |r| >= 1 && AllDigits(r)
    ensures |r| > 1 ==> r[0] != '0'
    ensures n < 10 <==> |r| == 1
    decreases n
  {
    if n < 10 then [DigitChar(n)] else NatToString(n / 10) + [DigitChar(n % 10)]
  }

  /** `int(s)` for a non-empty run of ASCII digits (leading zeros allowed). */
  function DigitsValue(s: string): nat
    requires AllDigits(s)
  {
    if s == [] then 0 else DigitsValue(s[..|s| - 1]) * 10 + DigitValue(s[|s| - 1])
  }

  /** `int(str(n)) == n`. */
  lemma {:induction false} DigitsRoundTrip(n: nat)
    ensures DigitsValue(NatToString(n)) == n
    decreases n
  {
    var r := NatToString(n);
    if n >= 10 {
      DigitsRoundTrip(n / 10);
      assert r[..|r| - 1] == NatToString(n / 10);
      assert DigitValue(r[|r| - 1]) == n % 10;
    } else {
      assert r[..0] == [];
    }
  }

  /** `str(n)` for any Python `int`. */
  function IntToString(n: int): (r: string)
    ensures |r| >= 1
    ensures n >= 0 ==> AllDigits(r)
    ensures n < 0 ==> r[0] == '-' && AllDigits(r[1..])
  {
    if n < 0 then "-" + NatToString(-n) else NatToString(n)
  }
}
