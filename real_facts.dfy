/**
 * Facts about real multiplication and division that the placement and
 * scoring formulas of both game versions rely on.
 */
module RealFacts {

  /** A unit draw times a positive width lies in [0, width). */
  lemma UnitTimes(r: real, width: real)
    requires 0.0 <= r < 1.0 && width > 0.0
    ensures 0.0 <= r * width
    ensures r * width < width
  {
    assert (1.0 - r) * width > 0.0;
  }

  /** For a positive numerator, a/d lies in (a/hi, a/lo] when d lies in [lo, hi). */
  lemma QuotientBounds(a: real, d: real, lo: real, hi: real)
    requires a > 0.0 && 0.0 < lo <= d < hi
    ensures a / hi < a / d <= a / lo
  {
  }

  /** Dividing a positive numerator by a larger positive denominator gives no more. */
  lemma QuotientAntitone(a: real, d1: real, d2: real)
    requires a > 0.0 && 0.0 < d1 <= d2
    ensures a / d2 <= a / d1
  {
  }
}
