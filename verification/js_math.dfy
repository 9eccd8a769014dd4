/** Integer forms of the JavaScript arithmetic the pages use. */
module JsMath {

  /**
   * `Math.round(n / d)` for a positive divisor, computed exactly: the nearest integer, a half
   * rounding upward (`Math.round` is `floor(x + 0.5)`).
   */
  function RoundDiv(n: int, d: int): (r: int)
    requires d > 0
    ensures 2 * d * r - d <= 2 * n < 2 * d * r + d
  {
    var q := (2 * n + d) / (2 * d);
    assert 2 * n + d == 2 * d * q + (2 * n + d) % (2 * d);
    q
  }

  /** A positive factor does not change the sign of a product against its own size. */
  lemma BelowFactor(d: int, x: int)
    requires d > 0 && d * x < d
    ensures x < 1
  {
  }

  /** The rounded quotient is the only integer within a half of the exact one, ties going up. */
  lemma RoundDivUnique(n: int, d: int, r: int)
    requires d > 0
    requires 2 * d * r - d <= 2 * n < 2 * d * r + d
    ensures RoundDiv(n, d) == r
  {
    var q := RoundDiv(n, d);
    assert d * (q - r) < d;
    BelowFactor(d, q - r);
    assert d * (r - q) < d;
    BelowFactor(d, r - q);
  }

  /** A share of a whole, as a rounded percentage, lies between 0 and 100. */
  lemma PercentBounds(count: int, total: int)
    requires 0 <= count <= total && total > 0
    ensures 0 <= RoundDiv(100 * count, total) <= 100
  {
    var p := RoundDiv(100 * count, total);
    assert total * (-p) < total;
    BelowFactor(total, -p);
    assert total * (p - 100) < total;
    BelowFactor(total, p - 100);
  }

  /** Rounding keeps the order of the quotients: a larger share never shows a smaller figure. */
  lemma RoundDivMonotone(n: int, m: int, d: int)
    requires d > 0 && n <= m
    ensures RoundDiv(n, d) <= RoundDiv(m, d)
  {
    var a, b := RoundDiv(n, d), RoundDiv(m, d);
    assert d * (a - b) < d;
    BelowFactor(d, a - b);
  }
}
