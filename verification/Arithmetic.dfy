/** Bytes, minima, powers of two and remainders */
module Arithmetic {

  type byte = b: int | 0 <= b < 256

  function Max(a: int, b: int): int { if a < b then b else a }

  function Min(a: int, b: int): int { if a < b then a else b }

  function Pow2(n: nat): (r: nat)
    ensures r >= 1
  {
    if n == 0 then 1 else 2 * Pow2(n - 1)
  }

  lemma Gap(m: nat, a: int, b: int)
    requires a < b
    ensures m * a + m <= m * b
  {
    assert m * (b - a - 1) >= 0;
    assert m * b == m * a + m + m * (b - a - 1);
  }

  /** Quotient and remainder are unique. */
  lemma Remainder(a: nat, m: nat, q: int, r: nat)
    requires a == m * q + r && r < m
    ensures a % m == r
  {
    var p := a / m;
    if p < q { Gap(m, p, q); }
    if q < p { Gap(m, q, p); }
  }
}
