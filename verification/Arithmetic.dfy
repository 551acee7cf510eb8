// Machine widths, and the few facts about products and quotients that the other
// modules share.
module Arithmetic {

  const TWO32: nat := 0x1_0000_0000
  const TWO64: nat := 0x1_0000_0000_0000_0000

  newtype uint32 = x: int | 0 <= x < 0x1_0000_0000
  newtype uint64 = x: int | 0 <= x < 0x1_0000_0000_0000_0000

  lemma MulMono(a: int, b: int, c: nat)
    requires a <= b
    ensures a * c <= b * c
  {
  }

  lemma DivMono(a: nat, b: nat, d: nat)
    requires a <= b && d > 0
    ensures a / d <= b / d
  {
    var q, r := a / d, b / d;
    assert a == d * q + a % d && b == d * r + b % d;
    assert b < (r + 1) * d;
    if q > r { MulMono(r + 1, q, d); }
  }

  lemma NoWrap(n: nat, m: nat)
    requires n < m
    ensures n % m == n
  {
  }
}
