/** Decimal numerals, as JSON prints integers. */
module Decimal {
  predicate IsDigit(c: char) { '0' <= c <= '9' }

  function DigitValue(c: char): nat
    requires IsDigit(c)
  {
    assert '0' as int <= c as int;
    c as int - '0' as int
  }

  function Digit(d: nat): (c: char)
    requires d < 10
    ensures IsDigit(c) && DigitValue(c) == d
  {
    '0' + d as char
  }

  function Dec(n: nat): (s: string)
    ensures s != "" && forall i | 0 <= i < |s| :: IsDigit(s[i])
  {
    if n < 10 then [Digit(n)] else Dec(n / 10) + [Digit(n % 10)]
  }

  /** The number a digit string writes. */
  function Value(s: string): nat
    requires forall i | 0 <= i < |s| :: IsDigit(s[i])
  {
    if s == "" then 0 else 10 * Value(s[..|s| - 1]) + DigitValue(s[|s| - 1])
  }

  lemma {:induction false} ValueOfDec(n: nat)
    ensures Value(Dec(n)) == n
  {
    var s := Dec(n);
    if n < 10 {
      assert s[..|s| - 1] == "";
    } else {
      assert s[..|s| - 1] == Dec(n / 10);
      ValueOfDec(n / 10);
    }
  }

  lemma DecInjective(a: nat, b: nat)
    requires Dec(a) == Dec(b)
    ensures a == b
  {
    ValueOfDec(a);
    ValueOfDec(b);
  }
}
