/** Small facts about real multiplication and division, stated over distinct
    variables so that callers can apply them to squares such as r·r. */
module RealFacts {

  lemma ProductPositive(d: real, a: real, b: real)
    requires a > 0.0 && b > 0.0 && d == a * b
    ensures d > 0.0
  {
  }

  lemma ProductNonNegative(d: real, a: real, b: real)
    requires a >= 0.0 && b >= 0.0 && d == a * b
    ensures d >= 0.0
  {
  }

  lemma QuotientSign(q: real, a: real, b: real)
    requires b > 0.0 && q == a / b
    ensures a > 0.0 ==> q > 0.0
  {
  }

  /** A value at least a/b, with 0 < b < a, exceeds one. */
  lemma AboveQuotient(v: real, a: real, b: real)
    requires 0.0 < b < a && v >= a / b
    ensures v > 1.0
  {
    var q := a / b;
    assert q * b == a;
    assert (q - 1.0) * b == a - b;
  }

  /** a/a is one for a non-zero a. */
  lemma SelfQuotient(q: real, a: real)
    requires a != 0.0 && q == a / a
    ensures q == 1.0
  {
  }

  /** Multiplying both sides of an inequality by a positive factor keeps it. */
  lemma MulMonotone(a: real, b: real, c: real)
    requires a >= b && c > 0.0
    ensures a * c >= b * c
  {
    assert a * c - b * c == (a - b) * c;
  }

  lemma ScaleMonotone(c: real, a: real, b: real)
    requires a >= b && c > 0.0
    ensures c * a >= c * b
  {
    assert c * a - c * b == c * (a - b);
  }

  lemma MulStrictMonotone(a: real, b: real, c: real)
    requires a > b && c > 0.0
    ensures a * c > b * c
  {
    assert a * c - b * c == (a - b) * c;
  }

  /** (a / b)·b == a for a non-zero b. */
  lemma QuotientTimesDivisor(a: real, b: real)
    requires b != 0.0
    ensures (a / b) * b == a
  {
  }

  /** t·d == n with n <= 0 and d < 0, and n >= d: then t is in [0, 1]. */
  lemma FractionOfNegative(t: real, n: real, d: real)
    requires d < 0.0 && d <= n <= 0.0 && t * d == n
    ensures 0.0 <= t <= 1.0
  {
    assert (1.0 - t) * d == d - n;
  }

  /** t·d == n with 0 < n <= d: then t is in [0, 1]. */
  lemma FractionOfPositive(t: real, n: real, d: real)
    requires d > 0.0 && 0.0 <= n <= d && t * d == n
    ensures 0.0 <= t <= 1.0
  {
    assert (1.0 - t) * d == d - n;
  }

  /** a + (b − a)·t lies between a and b for t in [0, 1]. */
  lemma LerpBetween(a: real, b: real, t: real)
    requires 0.0 <= t <= 1.0
    ensures a <= b ==> a <= a + (b - a) * t <= b
    ensures b <= a ==> b <= a + (b - a) * t <= a
  {
    var w := b - a;
    var m := w * t;
    var u := 1.0 - t;
    assert w - m == w * u;
    if a <= b {
      ProductNonNegative(m, w, t);
      ProductNonNegative(w - m, w, u);
    } else {
      ProductNonNegative(-m, -w, t);
      ProductNonNegative(m - w, -w, u);
    }
  }
}
