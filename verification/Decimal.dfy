/** Decimal numerals: the value of a run of digits and the digits of a number. */
module Decimal {

  predicate IsDecimalDigit(c: char) {
    '0' <= c <= '9'
  }

  predicate AllDigits(s: string) {
    forall k :: 0 <= k < |s| ==> IsDecimalDigit(s[k])
  }

  function DigitValue(c: char): (d: int)
    requires IsDecimalDigit(c)
    ensures 0 <= d < 10
  {
    c as int - '0' as int
  }

  function ValueOf(digits: string): (v: nat)
    requires AllDigits(digits)
  {
    if digits == [] then 0
    else 10 * ValueOf(digits[..|digits| - 1]) + DigitValue(digits[|digits| - 1])
  }

  function ShowDigit(d: int): (c: char)
    requires 0 <= d < 10
    ensures IsDecimalDigit(c) && DigitValue(c) == d
  {
    ('0' as int + d) as char
  }

  function ShowNat(n: nat): (s: string)
    ensures s != [] && AllDigits(s)
  {
    if n < 10 then [ShowDigit(n)] else ShowNat(n / 10) + [ShowDigit(n % 10)]
  }

  lemma {:induction false} ShownNatHasItsValue(n: nat)
    ensures ValueOf(ShowNat(n)) == n
  {
    if n < 10 {
      assert [ShowDigit(n)][..0] == [];
    } else {
      ShownNatHasItsValue(n / 10);
      var s := ShowNat(n);
      assert s[..|s| - 1] == ShowNat(n / 10);
    }
  }
}
