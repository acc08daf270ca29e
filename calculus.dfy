/**
  The numeric helpers of utility.hpp that the PID controller uses:
  trapezoidal integration and the two discrete derivatives. The C++ templates
  run on `std::floating_point` types; here they run on exact `real`s, so
  rounding is not modelled.
 */
module Calculus {

  /**
    `integrate`: the trapezoidal rule, the area under the straight line from
    `prevValue` to `value` over one sampling period.
   */
  function Integrate(value: real, prevValue: real, samplingTime: real): (area: real)
    ensures value == prevValue ==> area == value * samplingTime
    ensures area * 2.0 == (value + prevValue) * samplingTime
  {
    (value + prevValue) * 0.5 * samplingTime
  }

  /** Over a non-negative period the trapezoid lies between the two rectangles drawn at its end values. */
  lemma IntegrateBetween(value: real, prevValue: real, samplingTime: real)
    requires samplingTime >= 0.0
    ensures var lo := if value <= prevValue then value else prevValue;
            var hi := if value <= prevValue then prevValue else value;
            lo * samplingTime <= Integrate(value, prevValue, samplingTime) <= hi * samplingTime
  {
    var lo := if value <= prevValue then value else prevValue;
    var hi := if value <= prevValue then prevValue else value;
    var mean := (value + prevValue) * 0.5;
    MulNonNegative(mean - lo, samplingTime);
    MulNonNegative(hi - mean, samplingTime);
  }

  lemma MulNonNegative(a: real, b: real)
    requires a >= 0.0 && b >= 0.0
    ensures a * b >= 0.0
  {
  }

  /**
    The filtered `differentiate`: one step of a first-order low-pass filter on
    the derivative with time constant `timeConstant`. The new estimate `d`
    solves the filter's difference equation
    `timeConstant * (d - prevDerivative) + samplingTime * d == value - prevValue`.
    The C++ guard against a zero denominator is `assert(true)`, which checks
    nothing, so the caller must keep `timeConstant + samplingTime` nonzero.
   */
  function FilteredDifferentiate(value: real, prevValue: real, samplingTime: real,
                                 prevDerivative: real, timeConstant: real): (d: real)
    requires timeConstant + samplingTime != 0.0
    ensures timeConstant * (d - prevDerivative) + samplingTime * d == value - prevValue
  {
    (value - prevValue + prevDerivative * timeConstant) / (timeConstant + samplingTime)
  }

  /**
    The unfiltered `differentiate`: the backward difference. Its zero guard is
    `assert(true)` as well, so `samplingTime` must be nonzero.
   */
  function Differentiate(value: real, prevValue: real, samplingTime: real): (d: real)
    requires samplingTime != 0.0
    ensures d * samplingTime == value - prevValue
  {
    (value - prevValue) / samplingTime
  }

  /** With time constant 0 the filter is the plain backward difference. */
  lemma FilterWithoutTimeConstant(value: real, prevValue: real, samplingTime: real, prevDerivative: real)
    requires samplingTime != 0.0
    ensures FilteredDifferentiate(value, prevValue, samplingTime, prevDerivative, 0.0)
         == Differentiate(value, prevValue, samplingTime)
  {
  }

  /**
    On a constant signal the filtered derivative does not drop to 0 at once:
    it decays by the factor `timeConstant / (timeConstant + samplingTime)`.
   */
  lemma FilterOnConstantSignal(value: real, samplingTime: real, prevDerivative: real, timeConstant: real)
    requires timeConstant + samplingTime != 0.0
    ensures FilteredDifferentiate(value, value, samplingTime, prevDerivative, timeConstant)
         == prevDerivative * (timeConstant / (timeConstant + samplingTime))
  {
  }
}
