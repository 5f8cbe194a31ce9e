/** The healing thresholds and the floating-point ratio tests that consume them.
    A double threshold is represented by the exact fraction it stands for, and
    each `(double) x / y` comparison is decided by cross-multiplication, with
    Java's Infinity and NaN results spelled out for a zero denominator. */
module Configuration {

  type Positive = n: int | n > 0 witness 1

  /** The exact value num / den of a configured double. */
  datatype Fraction = Fraction(num: int, den: Positive)

  function RealOf(f: Fraction): real
  {
    f.num as real / f.den as real
  }

  /** The thresholds the decision cycle reads; sleepTime and the abort
      thresholds are not consumed by the modelled code. */
  datatype HealingPolicy = HealingPolicy(
    blockedCoefficient: Fraction,
    maxReplicas: int,
    statsChangePercentage: int)

  /** The built-in defaults: blockedCoefficient 2, maxReplicas 2, statsChangePercentage 10. */
  const DefaultPolicy := HealingPolicy(Fraction(2, 1), 2, 10)

  /** Java's `(double) x / y >= c`. For y == 0 the quotient is +Infinity when
      x > 0 (at least any finite c), NaN when x == 0 and -Infinity when x < 0
      (neither is at least c). */
  predicate QuotientAtLeast(x: int, y: int, c: Fraction)
  {
    if y > 0 then x * c.den >= c.num * y
    else if y < 0 then x * c.den <= c.num * y
    else x > 0
  }

  /** Java's `(double) x / y < c`, with the same reading of a zero denominator:
      only -Infinity (x < 0) is below c. */
  predicate QuotientBelow(x: int, y: int, c: Fraction)
  {
    if y > 0 then x * c.den < c.num * y
    else if y < 0 then x * c.den > c.num * y
    else x < 0
  }

  lemma ScaleKeepsOrder(a: real, b: real, k: real)
    requires k > 0.0
    ensures a >= b <==> a * k >= b * k
  {
    if a >= b {
      assert (a - b) * k >= 0.0;
    } else {
      assert (b - a) * k > 0.0;
    }
  }

  /** For a non-zero denominator the cross-multiplied test is exactly the real-number comparison. */
  lemma QuotientAtLeastIsDivision(x: int, y: int, c: Fraction)
    requires y != 0
    ensures QuotientAtLeast(x, y, c) <==> (x as real) / (y as real) >= RealOf(c)
  {
    var q := (x as real) / (y as real);
    var r := RealOf(c);
    var d := c.den as real;
    assert q * (y as real) == x as real;
    assert r * d == c.num as real;
    var k := if y > 0 then (y as real) * d else -((y as real) * d);
    assert k > 0.0;
    ScaleKeepsOrder(q, r, k);
    if y > 0 {
      assert q * k == (x as real) * d;
      assert r * k == (c.num as real) * (y as real);
      assert QuotientAtLeast(x, y, c) <==> (x as real) * d >= (c.num as real) * (y as real);
    } else {
      assert q * k == -((x as real) * d);
      assert r * k == -((c.num as real) * (y as real));
      assert QuotientAtLeast(x, y, c) <==> (x as real) * d <= (c.num as real) * (y as real);
    }
  }

  /** For a non-zero denominator "below" is the negation of "at least"; for a zero
      one both are false exactly when the quotient is NaN. */
  lemma QuotientBelowIsDivision(x: int, y: int, c: Fraction)
    ensures y != 0 ==> (QuotientBelow(x, y, c) <==> (x as real) / (y as real) < RealOf(c))
    ensures y == 0 ==> (!QuotientBelow(x, y, c) && !QuotientAtLeast(x, y, c) <==> x == 0)
  {
    if y != 0 {
      QuotientAtLeastIsDivision(x, y, c);
    }
  }
}
