/** The two rounding rules of the scanner: the points of a scan and the
    category percentages of the summary. Both are `Math.round` of a
    quotient, which rounds to the nearest integer with halves going up;
    the model computes them exactly on integers. */
module Scoring {

  /** `Math.round(a / b)` for a positive divisor `b`: the integer nearest to
      a/b, a half rounded up. */
  function RoundDiv(a: int, b: int): (r: int)
    requires b > 0
    ensures 2 * b * r - b <= 2 * a < 2 * b * r + b
  {
    var q := (2 * a + b) / (2 * b);
    DivBounds(2 * a + b, 2 * b, q);
    q
  }

  lemma DivBounds(n: int, d: int, q: int)
    requires d > 0 && q == n / d
    ensures d * q <= n < d * q + d
  {
  }

  /** Distinct multiples of a positive `d` lie at least `d` apart. */
  lemma MulGap(d: int, x: int, y: int)
    requires d > 0 && x < y
    ensures d * x + d <= d * y
  {
    var e := y - x - 1;
    assert d * y == d * x + d * e + d;
    assert d * e >= 0;
  }

  /** Any integer with the nearest-half-up property is the result of RoundDiv. */
  lemma RoundDivUnique(a: int, b: int, r: int)
    requires b > 0
    requires 2 * b * r - b <= 2 * a < 2 * b * r + b
    ensures RoundDiv(a, b) == r
  {
    var q := RoundDiv(a, b);
    if q < r {
      MulGap(2 * b, q, r);
    } else if q > r {
      MulGap(2 * b, r, q);
    }
  }

  /** Rounding is monotone in the numerator. */
  lemma RoundDivMonotone(a: int, a': int, b: int)
    requires b > 0 && a <= a'
    ensures RoundDiv(a, b) <= RoundDiv(a', b)
  {
    var r, r' := RoundDiv(a, b), RoundDiv(a', b);
    if r > r' {
      MulGap(2 * b, r', r);
    }
  }

  /** `Math.round(score / 10)`: the points a scan earns, the integer nearest
      to a tenth of the score. */
  function Points(score: int): (p: int)
    ensures 20 * p - 10 <= 2 * score < 20 * p + 10
  {
    RoundDiv(score, 10)
  }

  /** A score in 0..100 earns 0..10 points; 100 earns exactly 10, and a
      score below 5 earns nothing. */
  lemma PointsRange(score: int)
    requires 0 <= score <= 100
    ensures 0 <= Points(score) <= 10
    ensures score == 100 ==> Points(score) == 10
    ensures score < 5 ==> Points(score) == 0
  {
    RoundDivMonotone(0, score, 10);
    RoundDivMonotone(score, 100, 10);
    RoundDivUnique(0, 10, 0);
    RoundDivUnique(100, 10, 10);
    if score < 5 {
      RoundDivUnique(score, 10, 0);
    }
  }

  /** `Math.round((count / total) * 100)`: a category's percentage, the
      integer nearest to 100 * count / total. */
  function Percent(count: int, total: int): (p: int)
    requires total > 0
    ensures 2 * total * p - total <= 200 * count < 2 * total * p + total
  {
    RoundDiv(count * 100, total)
  }

  /** A count between 0 and the total gives a percentage in 0..100; the
      whole total gives 100 and nothing gives 0. */
  lemma PercentRange(count: int, total: int)
    requires 0 <= count <= total && total > 0
    ensures 0 <= Percent(count, total) <= 100
    ensures count == 0 ==> Percent(count, total) == 0
    ensures count == total ==> Percent(count, total) == 100
  {
    RoundDivMonotone(0, count * 100, total);
    RoundDivMonotone(count * 100, total * 100, total);
    RoundDivUnique(0, total, 0);
    RoundDivUnique(total * 100, total, 100);
  }
}
