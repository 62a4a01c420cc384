/** Decimal numerals. */
module Decimal {

  function Digits(n: nat): (t: string)
    ensures t != [] && forall i :: 0 <= i < |t| ==> '0' <= t[i] <= '9'
  {
    var d := ('0' as int + n % 10) as char;
    if n < 10 then [d] else Digits(n / 10) + [d]
  }

  /** Value of a digit string, or -1. */
  function DigitsValue(t: string): int {
    if t == [] then 0
    else
      var c, v := t[|t| - 1], DigitsValue(t[..|t| - 1]);
      if v < 0 || !('0' <= c <= '9') then -1 else v * 10 + (c as int - '0' as int)
  }

  lemma {:induction false} DigitsRoundTrip(n: nat)
    ensures DigitsValue(Digits(n)) == n
  {
    if n >= 10 {
      DigitsRoundTrip(n / 10);
      var t := Digits(n);
      assert t[..|t| - 1] == Digits(n / 10);
    }
  }
}
