/** Decimal renderings of the non-negative integers that name base images,
    zoom levels, columns and rows: `String.valueOf(int)` and
    `Integer.parseInt(String)` restricted to plain digit strings. */
module Decimal {

  predicate IsDigit(c: char) {
    '0' <= c <= '9'
  }

  predicate IsDigitString(s: string) {
    |s| > 0 && forall i :: 0 <= i < |s| ==> IsDigit(s[i])
  }

  function DigitChar(d: nat): (c: char)
    requires d < 10
    ensures IsDigit(c)
  {
    (48 + d) as char
  }

  function DigitValue(c: char): (d: nat)
    requires IsDigit(c)
    ensures d < 10
  {
    c as int - 48
  }

  /** `String.valueOf(n)`: the canonical decimal rendering, without leading zeros. */
  function Digits(n: nat): (s: string)
    ensures IsDigitString(s)
    ensures s[0] != '0' || n == 0
    ensures n < 10 <==> |s| == 1
  {
    if n < 10 then [DigitChar(n)] else Digits(n / 10) + [DigitChar(n % 10)]
  }

  /** `Integer.parseInt(s)` for a string of decimal digits. */
  function Parse(s: string): nat
    requires IsDigitString(s)
  {
    if |s| == 1 then DigitValue(s[0])
    else Parse(s[..|s| - 1]) * 10 + DigitValue(s[|s| - 1])
  }

  /** Parsing a rendered number gives the number back. */
  lemma {:induction false} ParseDigits(n: nat)
    ensures Parse(Digits(n)) == n
  {
    if n >= 10 {
      var s := Digits(n);
      assert s[..|s| - 1] == Digits(n / 10);
      ParseDigits(n / 10);
    }
  }

  /** Distinct numbers have distinct renderings. */
  lemma DigitsInjective(m: nat, n: nat)
    requires Digits(m) == Digits(n)
    ensures m == n
  {
    ParseDigits(m);
    ParseDigits(n);
  }

  /** More digits means a larger number. */
  lemma {:induction false} DigitsLengthMonotone(m: nat, n: nat)
    requires m <= n
    ensures |Digits(m)| <= |Digits(n)|
  {
    if m >= 10 {
      DigitsLengthMonotone(m / 10, n / 10);
    }
  }
}
