/** Decimal numerals as text. */
module Numerals {
  predicate IsDigit(c: char) {
    '0' <= c <= '9'
  }

  predicate AllDigits(s: string) {
    forall i :: 0 <= i < |s| ==> IsDigit(s[i])
  }

  function Digit(c: char): (d: nat)
    requires IsDigit(c)
  {
    c as int - '0' as int
  }

  function Number(s: string): nat
    requires AllDigits(s)
  {
    if s == "" then 0 else 10 * Number(s[..|s| - 1]) + Digit(s[|s| - 1])
  }

  function Digits(n: nat): (s: string) {
    if n < 10 then ['0' + n as char] else Digits(n / 10) + ['0' + (n % 10) as char]
  }

  /** What is printed reads back. */
  lemma {:induction false} DigitsNumber(n: nat)
    ensures Digits(n) != "" && AllDigits(Digits(n)) && Number(Digits(n)) == n
  {
    if n < 10 {
      assert Digits(n)[..0] == "";
    } else {
      DigitsNumber(n / 10);
      var d := '0' + (n % 10) as char;
      assert Digits(n)[..|Digits(n)| - 1] == Digits(n / 10);
      assert Digit(d) == n % 10;
    }
  }
}
