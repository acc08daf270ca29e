/**
  `rescale` of utility.hpp instantiated with integer types: clamp the input to
  `[from_min, from_max]` and map that range linearly onto `[to_min, to_max]`
  with C++ integer arithmetic. The integers are unbounded here: overflow of
  the intermediate product is not modelled.
 */
module Scaling {
  import opened Division

  /** `std::clamp(v, lo, hi)` on integers. */
  function Clamp(v: int, lo: int, hi: int): (r: int)
    requires lo <= hi
    ensures lo <= r <= hi
    ensures lo <= v <= hi ==> r == v
    ensures v <= lo ==> r == lo
    ensures hi <= v ==> r == hi
  {
    if v < lo then lo else if hi < v then hi else v
  }

  /**
    C++ integer division by a positive divisor, which truncates toward zero:
    the quotient times the divisor lies between zero and the dividend and
    falls short of the dividend in magnitude by less than the divisor.
   */
  function TruncDiv(a: int, b: int): (q: int)
    requires b > 0
    ensures a >= 0 ==> 0 <= q * b <= a < q * b + b
    ensures a < 0 ==> q * b - b < a <= q * b <= 0
  {
    if a >= 0 then DivBounds(a, b); a / b
    else DivBounds(-a, b); -((-a) / b)
  }

  /** For a non-negative dividend, C++ division is floor division. */
  lemma TruncDivNonNegative(a: int, b: int)
    requires a >= 0 && b > 0
    ensures TruncDiv(a, b) == a / b
  {
  }

  /** `rescale`: the clamped input's offset in the source range, scaled to the target range. */
  function Rescale(fromValue: int, fromMin: int, fromMax: int, toMin: int, toMax: int): int
    requires fromMin < fromMax
  {
    TruncDiv((Clamp(fromValue, fromMin, fromMax) - fromMin) * (toMax - toMin), fromMax - fromMin) + toMin
  }

  /** Inputs at or below `from_min` give `to_min`. */
  lemma RescaleBelow(fromValue: int, fromMin: int, fromMax: int, toMin: int, toMax: int)
    requires fromMin < fromMax && fromValue <= fromMin
    ensures Rescale(fromValue, fromMin, fromMax, toMin, toMax) == toMin
  {
  }

  /** Inputs at or above `from_max` give `to_max`. */
  lemma RescaleAbove(fromValue: int, fromMin: int, fromMax: int, toMin: int, toMax: int)
    requires fromMin < fromMax && fromMax <= fromValue
    ensures Rescale(fromValue, fromMin, fromMax, toMin, toMax) == toMax
  {
    var d := fromMax - fromMin;
    var span := toMax - toMin;
    assert (Clamp(fromValue, fromMin, fromMax) - fromMin) * span == span * d;
    TruncDivExact(span, d);
  }

  /** `(k * d) / d == k` with truncating division. */
  lemma TruncDivExact(k: int, d: int)
    requires d > 0
    ensures TruncDiv(k * d, d) == k
  {
    var q := TruncDiv(k * d, d);
    if k >= 0 {
      assert q * d <= k * d < q * d + d;
    } else {
      assert q * d - d < k * d <= q * d;
    }
    MulStrictCancel(q, k + 1, d);
    MulStrictCancel(k - 1, q, d);
  }

  /** Scaling the offset `x` in `[0, d]` by `span / d` stays within `[0, span]` for a non-negative span. */
  lemma ScaledOffsetBounded(x: int, d: int, span: int)
    requires 0 <= x <= d && d > 0 && span >= 0
    ensures 0 <= TruncDiv(x * span, d) <= span
  {
    var q := TruncDiv(x * span, d);
    assert x * span <= d * span;
    MulStrictCancel(q, span + 1, d);
    MulStrictCancel(-1, q, d);
  }

  /** With `to_min <= to_max`, every result lies in `[to_min, to_max]`. */
  lemma RescaleBounded(fromValue: int, fromMin: int, fromMax: int, toMin: int, toMax: int)
    requires fromMin < fromMax && toMin <= toMax
    ensures toMin <= Rescale(fromValue, fromMin, fromMax, toMin, toMax) <= toMax
  {
    ScaledOffsetBounded(Clamp(fromValue, fromMin, fromMax) - fromMin, fromMax - fromMin, toMax - toMin);
  }

  /** With `to_min <= to_max`, a larger input never gives a smaller result. */
  lemma RescaleMonotone(v: int, w: int, fromMin: int, fromMax: int, toMin: int, toMax: int)
    requires fromMin < fromMax && toMin <= toMax && v <= w
    ensures Rescale(v, fromMin, fromMax, toMin, toMax) <= Rescale(w, fromMin, fromMax, toMin, toMax)
  {
    var d := fromMax - fromMin;
    var span := toMax - toMin;
    var x := Clamp(v, fromMin, fromMax) - fromMin;
    var y := Clamp(w, fromMin, fromMax) - fromMin;
    assert 0 <= x <= y;
    assert x * span <= y * span;
    TruncDivNonNegative(x * span, d);
    TruncDivNonNegative(y * span, d);
    DivMonotone(x * span, y * span, d);
  }
}
