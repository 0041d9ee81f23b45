/** Powers of two, and facts about division that the solver needs spelt out. */
module Arithmetic {

  function PowerOfTwo(n: nat): (power: nat)
    ensures power > 0
  {
    if n == 0 then 1 else 2 * PowerOfTwo(n - 1)
  }

  lemma ProductNonNegative(d: nat, k: nat)
    ensures d * k >= 0
  {}

  lemma ProductAtLeast(d: nat, k: int)
    requires k >= 1 && d > 0
    ensures d * k >= d
  {
    ProductNonNegative(d, k - 1);
    assert d * k == d * (k - 1) + d;
  }

  lemma DivMod(x: int, d: nat)
    requires d > 0
    ensures x == d * (x / d) + x % d && 0 <= x % d < d
  {}

  /** Quotient and remainder are unique. */
  lemma DivModUnique(x: int, d: nat, q: int, r: nat)
    requires d > 0 && x == d * q + r && r < d
    ensures x / d == q && x % d == r
  {
    DivMod(x, d);
    var k := x / d - q;
    assert d * k == d * (x / d) - d * q;
    assert d * (-k) == -(d * k);
    if k >= 1 {
      ProductAtLeast(d, k);
    }
    if k <= -1 {
      ProductAtLeast(d, -k);
    }
  }

  lemma ModMultiple(x: int, d: nat, k: int)
    requires d > 0
    ensures (x + d * k) % d == x % d
  {
    DivMod(x, d);
    assert x + d * k == d * (x / d + k) + x % d by {
      assert d * (x / d + k) == d * (x / d) + d * k;
    }
    DivModUnique(x + d * k, d, x / d + k, x % d);
  }

  lemma ModStep(x: int, d: nat)
    requires d > 0
    ensures (x + d) % d == x % d
  {
    ModMultiple(x, d, 1);
  }

  lemma SmallMod(x: nat, d: nat)
    requires x < d
    ensures x % d == x
  {
    DivModUnique(x, d, 0, x);
  }
}
