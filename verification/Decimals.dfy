/** Decimal text of natural numbers. */
module Decimals {

  function Digit(d: nat): (c: char)
    requires d < 10
    ensures '0' <= c <= '9'
  {
    ['0', '1', '2', '3', '4', '5', '6', '7', '8', '9'][d]
  }

  /** The decimal text of a natural number, with no leading zeros. */
  function Decimal(n: nat): (s: string)
    ensures |s| > 0
  {
    if n < 10 then [Digit(n)] else Decimal(n / 10) + [Digit(n % 10)]
  }

  /** What a digit string reads as. */
  function Read(s: string): nat
    requires forall i :: 0 <= i < |s| ==> '0' <= s[i] <= '9'
  {
    if s == [] then 0 else Read(s[..|s| - 1]) * 10 + (s[|s| - 1] as int - '0' as int)
  }

  predicate AllDigits(s: string) {
    forall i :: 0 <= i < |s| ==> '0' <= s[i] <= '9'
  }

  lemma ReadSnoc(s: string, d: nat)
    requires AllDigits(s) && d < 10
    ensures AllDigits(s + [Digit(d)])
    ensures Read(s + [Digit(d)]) == Read(s) * 10 + d
  {
    var u := s + [Digit(d)];
    assert u[..|u| - 1] == s && u[|u| - 1] == Digit(d);
  }

  /** Decimal text reads back as the number, and starts with '0' only for zero itself. */
  lemma {:induction false} DecimalReads(n: nat)
    ensures AllDigits(Decimal(n)) && Read(Decimal(n)) == n
    ensures Decimal(n)[0] == '0' <==> n == 0
  {
    if n >= 10 {
      DecimalReads(n / 10);
      ReadSnoc(Decimal(n / 10), n % 10);
    } else {
      ReadSnoc([], n);
      assert [] + [Digit(n)] == [Digit(n)];
    }
  }
}
