/** Integer facts shared by the generator and the viewer models. */
module Arith {

  function Pow2(n: nat): (r: nat)
    ensures r >= 1
  {
    if n == 0 then 1 else 2 * Pow2(n - 1)
  }

  function Min(a: int, b: int): int { if a <= b then a else b }

  function Max(a: int, b: int): int { if a >= b then a else b }

  lemma Pow2Add(a: nat, b: nat)
    ensures Pow2(a + b) == Pow2(a) * Pow2(b)
  {
    if a > 0 {
      Pow2Add(a - 1, b);
      assert Pow2(a + b) == 2 * Pow2(a - 1 + b);
    }
  }

  /** Doubling either factor doubles the product. */
  lemma DoubleFactor(a: int, b: int)
    ensures (2 * a) * b == a * (2 * b) == 2 * (a * b)
  {
  }

  lemma MulLe(a: int, b: int, t: nat)
    requires a <= b
    ensures a * t <= b * t
  {
    assert b * t - a * t == (b - a) * t;
  }

  lemma MulLtCancel(a: int, b: int, t: nat)
    requires a * t < b * t
    ensures a < b
  {
    if a >= b {
      MulLe(b, a, t);
    }
  }

  lemma DivMod(p: nat, t: nat)
    requires t > 0
    ensures p == (p / t) * t + p % t && 0 <= p % t < t
  {
  }

  /** The quotient is the unique k with k * t <= p < k * t + t. */
  lemma DivUnique(p: nat, t: nat, k: int)
    requires t > 0 && k * t <= p < k * t + t
    ensures p / t == k
  {
    var q := p / t;
    DivMod(p, t);
    assert (q + 1) * t == q * t + t;
    assert (k + 1) * t == k * t + t;
    MulLtCancel(q, k + 1, t);
    MulLtCancel(k, q + 1, t);
  }

  /** Dividing twice is dividing by the product. */
  lemma DivDiv(a: nat, b: nat, d: nat)
    requires b > 0 && d > 0
    ensures (a / b) / d == a / (b * d)
  {
    var m := a / b;
    var q := m / d;
    DivMod(a, b);
    DivMod(m, d);
    MulLe(q * d, m, b);
    assert (q * d) * b == q * (b * d);
    MulLe(m + 1, q * d + d, b);
    assert (m + 1) * b == m * b + b;
    assert (q * d + d) * b == (q + 1) * (b * d);
    assert (q + 1) * (b * d) == q * (b * d) + b * d;
    DivUnique(a, b * d, q);
  }
}
