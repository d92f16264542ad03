/** Integer quotients, stated so that no proof elsewhere has to multiply variables. */
module Quotients {

  lemma DivBounds(x: int, d: nat)
    requires d > 0
    ensures x / d * d <= x < x / d * d + d
    ensures x - x % d == x / d * d
  {}

  lemma DivMono(x: int, y: int, d: nat)
    requires d > 0 && x <= y
    ensures x / d <= y / d
  {
    DivBounds(x, d);
    DivBounds(y, d);
    if x / d > y / d {
      MulMono(y / d + 1, x / d, d);
    }
  }

  lemma MulMono(a: int, b: int, d: nat)
    requires a <= b
    ensures a * d <= b * d
  {}

  /** The quotient is pinned by where `x` lies. */
  lemma DivIs(x: int, q: int, d: nat)
    requires d > 0 && q * d <= x < q * d + d
    ensures x / d == q
  {
    DivBounds(x, d);
    if x / d < q {
      MulMono(x / d + 1, q, d);
    } else if x / d > q {
      MulMono(q + 1, x / d, d);
    }
  }

  lemma MulLess(a: int, b: int, d: nat)
    requires a * d < b * d
    ensures a < b
  {
    if a >= b {
      MulMono(b, a, d);
      assert false;
    }
  }

  lemma Multiple(m: int, d: nat)
    requires d > 0
    ensures m * d % d == 0 && m * d / d == m
  {
    DivIs(m * d, m, d);
    DivBounds(m * d, d);
  }
}
