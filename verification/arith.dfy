/** Whole-number facts about products, quotients and remainders. */
module Arithmetic {
  /** A multiple of `d` smaller than `d` in size is zero. */
  lemma SmallMultiple(k: int, d: int, r: int)
    requires 0 < d && 0 - d < r < d && k * d == r
    ensures k == 0
  {
  }

  lemma QuotientIs(m: int, d: int, q: int, r: int)
    requires 0 <= r < d && m == d * q + r
    ensures m / d == q && m % d == r
  {
    assert m == d * (m / d) + m % d;
    SmallMultiple(m / d - q, d, r - m % d);
  }

  lemma ProductAtLeast(t: int, x: int, y: int)
    requires t >= 0 && x >= y
    ensures t * x >= t * y
  {
  }

  /** Room for `k` times `d` is a quotient of at least `k`. */
  lemma QuotientAtLeast(x: int, k: int, d: int)
    requires d > 0 && x >= k * d
    ensures x / d >= k
  {
    assert x == d * (x / d) + x % d;
    if x / d < k {
      ProductAtLeast(d, k - 1, x / d);
      assert false;
    }
  }
}
