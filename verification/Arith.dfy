/** Facts about products and quotients the solver does not find on its own. */
module Arith {

  lemma MulAtLeast(d: int, k: int)
    requires d >= 1 && k >= 0
    ensures d * k >= k
  {
  }

  /** Quotient and remainder are determined by the division equation. */
  lemma DivUnique(x: int, q: int, k: int, r: int)
    requires 0 <= r < k && x == q * k + r
    ensures x / k == q && x % k == r
  {
    var q', r' := x / k, x % k;
    assert (q - q') * k == r' - r;
    if q > q' { MulAtLeast(q - q', k); }
    if q < q' {
      assert (q' - q) * k == r - r';
      MulAtLeast(q' - q, k);
    }
  }

  lemma MulOrder(a: int, b: int, k: int)
    requires a <= b && k >= 0
    ensures a * k <= b * k
  {
  }
}
