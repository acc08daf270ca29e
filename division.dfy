/**
  Facts about Dafny's division of non-negative numbers by positive ones, which
  is also what C++ unsigned division computes. Helpers for the timer and
  rescale models.
 */
module Division {

  /** The quotient times the divisor falls short of the dividend by less than the divisor. */
  lemma DivBounds(a: int, b: int)
    requires a >= 0 && b > 0
    ensures 0 <= (a / b) * b <= a < (a / b) * b + b
  {
  }

  /** A quotient by a positive divisor is at most the dividend. */
  lemma DivAtMost(a: int, b: int)
    requires a >= 0 && b > 0
    ensures 0 <= a / b <= a
  {
    DivBounds(a, b);
    MulAtLeast(a / b, b);
  }

  lemma MulAtLeast(x: int, d: int)
    requires x >= 0 && d >= 1
    ensures x <= x * d
  {
    assert x * d == x + x * (d - 1);
  }

  /** Multiplying by a non-negative factor keeps a non-strict order. */
  lemma MulMonotone(x: int, y: int, c: int)
    requires x <= y && c >= 0
    ensures x * c <= y * c
  {
    assert y * c - x * c == (y - x) * c;
  }

  /** A positive factor can be cancelled from a strict inequality. */
  lemma MulStrictCancel(x: int, y: int, d: int)
    requires d > 0 && x * d < y * d
    ensures x < y
  {
    assert (y - x) * d > 0;
  }

  /** Any quotient-remainder decomposition is the one division computes. */
  lemma DivUnique(a: int, m: int, q: int, r: int)
    requires a >= 0 && m > 0 && a == q * m + r && 0 <= r < m
    ensures a / m == q
  {
    DivBounds(a, m);
    var p := a / m;
    assert (q + 1) * m == q * m + m;
    assert (p + 1) * m == p * m + m;
    MulStrictCancel(p, q + 1, m);
    MulStrictCancel(q, p + 1, m);
  }

  /** Dividing twice is dividing once by the product. */
  lemma DivDiv(a: int, b: int, c: int)
    requires a >= 0 && b > 0 && c > 0
    ensures a / b / c == a / (b * c)
  {
    var q, r := a / b, a % b;
    var q2, r2 := q / c, q % c;
    Regroup(b, c, q, r, q2, r2);
    RemainderBound(b, c, r, r2);
    DivUnique(a, b * c, q2, b * r2 + r);
  }

  /** Dividing three times is dividing once by the product. */
  lemma DivDivDiv(x: int, a: int, b: int, c: int)
    requires x >= 0 && a > 0 && b > 0 && c > 0
    ensures x / a / b / c == x / (a * b * c)
  {
    ProductPositive(a, b, c);
    DivDiv(x, a, b);
    DivDiv(x, a * b, c);
  }

  /** A product of three positive numbers is positive. */
  lemma ProductPositive(a: int, b: int, c: int)
    requires a > 0 && b > 0 && c > 0
    ensures a * b > 0 && a * b * c > 0
  {
    assert a * b >= b;
    assert (a * b) * c >= c;
  }

  lemma Regroup(b: int, c: int, q: int, r: int, q2: int, r2: int)
    requires q == q2 * c + r2
    ensures q * b + r == (b * c) * q2 + (b * r2 + r)
  {
    assert q * b == (q2 * c) * b + r2 * b;
  }

  lemma RemainderBound(b: int, c: int, r: int, r2: int)
    requires 0 <= r < b && 0 <= r2 < c
    ensures 0 <= b * r2 + r < b * c
  {
    MulAtLeast(b, c - r2);
    assert b * c - b * r2 == b * (c - r2);
    MulAtLeast(r2, b);
    assert r2 * b == b * r2;
  }

  /** Division is monotone in the dividend. */
  lemma DivMonotone(a: int, b: int, d: int)
    requires 0 <= a <= b && d > 0
    ensures a / d <= b / d
  {
    DivBounds(a, d);
    DivBounds(b, d);
    MulStrictCancel(a / d, b / d + 1, d);
  }

  /** A value whose multiple by `d` fits in `a` is at most `a / d`. */
  lemma DivLowerBound(a: int, d: int, f: int)
    requires a >= 0 && d > 0 && f * d <= a
    ensures f <= a / d
  {
    DivBounds(a, d);
    MulStrictCancel(f, a / d + 1, d);
  }

  /** A value whose multiple by `d` exceeds `a` is above `a / d`. */
  lemma DivUpperBound(a: int, d: int, f: int)
    requires a >= 0 && d > 0 && a < f * d
    ensures a / d < f
  {
    DivBounds(a, d);
    MulStrictCancel(a / d, f, d);
  }
}
