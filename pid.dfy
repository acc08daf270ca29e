/**
  The PID controller of pid.hpp with back-calculation anti-windup, over exact
  `real`s (the C++ template parameter `T`; rounding, overflow, NaN and
  infinities are not modelled).

  The step function is given twice: as the pure functions `Control` and `Next`
  of a `Config` and a `State`, which the lemmas below reason about, and as the
  class `PID`, whose methods update the fields in place as the C++ members do
  and are proved to agree with the pure functions.
 */
module Pid {
  import Calculus

  /** The configuration fields: the three gains, the derivative filter's time constant, the anti-windup gain and the output bound. */
  datatype Config = Config(
    proportionGain: real,
    integralGain: real,
    derivativeGain: real,
    timeConstant: real,
    controlGain: real,
    saturation: real)

  /** The internal state fields, all zero in a value-initialised `PID`. */
  datatype State = State(
    prevError: real,
    errorIntegral: real,
    errorDerivative: real,
    satError: real,
    prevSatError: real,
    satErrorIntegral: real)

  const Zero := State(0.0, 0.0, 0.0, 0.0, 0.0, 0.0)

  /**
    What `get_control` needs of its caller: the derivative filter divides by
    `time_constant + sampling_time`, and `std::clamp(control, -saturation,
    saturation)` needs `-saturation <= saturation`.
   */
  predicate CanStep(c: Config, samplingTime: real)
  {
    c.timeConstant + samplingTime != 0.0 && c.saturation >= 0.0
  }

  /** `std::clamp(v, lo, hi)`: `lo` below the range, `hi` above it, `v` inside. */
  function Clamp(v: real, lo: real, hi: real): (r: real)
    requires lo <= hi
    ensures lo <= r <= hi
    ensures lo <= v <= hi ==> r == v
    ensures r != v ==> (v < lo && r == lo) || (hi < v && r == hi)
  {
    if v < lo then lo else if hi < v then hi else v
  }

  /** `get_proportion`. */
  function Proportion(c: Config, error: real): real
  {
    c.proportionGain * error
  }

  /** The new `error_derivative` that `get_derivative` stores. */
  function NewDerivative(c: Config, s: State, error: real, samplingTime: real): real
    requires c.timeConstant + samplingTime != 0.0
  {
    Calculus.FilteredDifferentiate(error, s.prevError, samplingTime, s.errorDerivative, c.timeConstant)
  }

  /** `get_derivative`'s result: the derivative gain times the new estimate. */
  function Derivative(c: Config, s: State, error: real, samplingTime: real): real
    requires c.timeConstant + samplingTime != 0.0
  {
    c.derivativeGain * NewDerivative(c, s, error, samplingTime)
  }

  /** The new `error_integral` that `get_integral` stores. */
  function NewErrorIntegral(s: State, error: real, samplingTime: real): real
  {
    s.errorIntegral + Calculus.Integrate(error, s.prevError, samplingTime)
  }

  /** The new `sat_error_integral` that `get_integral` stores: it integrates the clipped excess of the two previous steps. */
  function NewSatErrorIntegral(s: State, samplingTime: real): real
  {
    s.satErrorIntegral + Calculus.Integrate(s.satError, s.prevSatError, samplingTime)
  }

  /** `get_integral`'s result: the integral term less the back-calculation correction. */
  function Integral(c: Config, s: State, error: real, samplingTime: real): real
  {
    c.integralGain * NewErrorIntegral(s, error, samplingTime) - c.controlGain * NewSatErrorIntegral(s, samplingTime)
  }

  /**
    The unclamped control `P + I + D`. `get_integral` and `get_derivative`
    write disjoint fields and both only read `prev_error`, which neither
    writes, so the order C++ leaves unspecified for the operands of `+` does
    not change the sum.
   */
  function Raw(c: Config, s: State, error: real, samplingTime: real): real
    requires c.timeConstant + samplingTime != 0.0
  {
    Proportion(c, error) + Integral(c, s, error, samplingTime) + Derivative(c, s, error, samplingTime)
  }

  /** The value `get_control` returns. */
  function Control(c: Config, s: State, error: real, samplingTime: real): real
    requires CanStep(c, samplingTime)
  {
    Clamp(Raw(c, s, error, samplingTime), -c.saturation, c.saturation)
  }

  /** The state `get_control` leaves behind. */
  function Next(c: Config, s: State, error: real, samplingTime: real): State
    requires CanStep(c, samplingTime)
  {
    State(
      prevError := error,
      errorIntegral := NewErrorIntegral(s, error, samplingTime),
      errorDerivative := NewDerivative(c, s, error, samplingTime),
      satError := Raw(c, s, error, samplingTime) - Control(c, s, error, samplingTime),
      prevSatError := s.satError,
      satErrorIntegral := NewSatErrorIntegral(s, samplingTime))
  }

  // ---------------------------------------------------------------------
  // One step.

  /** The output always lies in `[-saturation, saturation]`. */
  lemma ControlBounded(c: Config, s: State, error: real, samplingTime: real)
    requires CanStep(c, samplingTime)
    ensures -c.saturation <= Control(c, s, error, samplingTime) <= c.saturation
  {
  }

  /**
    After a step `sat_error` is the clipped excess: the raw control less the
    returned one; `prev_sat_error` holds the `sat_error` from before the step,
    and `prev_error` the error just used.
   */
  lemma StepHistory(c: Config, s: State, error: real, samplingTime: real)
    requires CanStep(c, samplingTime)
    ensures var n := Next(c, s, error, samplingTime);
            n.satError == Raw(c, s, error, samplingTime) - Control(c, s, error, samplingTime)
            && n.prevSatError == s.satError && n.prevError == error
  {
  }

  /**
    The new `sat_error` is 0 exactly when the raw control lies within the
    bound; above the bound it is the positive excess `raw - saturation`, below
    it the negative excess `raw + saturation`.
   */
  lemma SatErrorSign(c: Config, s: State, error: real, samplingTime: real)
    requires CanStep(c, samplingTime)
    ensures var raw := Raw(c, s, error, samplingTime);
            var e := Next(c, s, error, samplingTime).satError;
            && (e == 0.0 <==> -c.saturation <= raw <= c.saturation)
            && (raw > c.saturation ==> e == raw - c.saturation && e > 0.0)
            && (raw < -c.saturation ==> e == raw + c.saturation && e < 0.0)
  {
  }

  /**
    The derivative state follows the filter's difference equation
    `(error - prev_error + old_derivative * time_constant) / (time_constant + sampling_time)`;
    with time constant 0 it is the backward difference.
   */
  lemma DerivativeUpdate(c: Config, s: State, error: real, samplingTime: real)
    requires CanStep(c, samplingTime)
    ensures var d := Next(c, s, error, samplingTime).errorDerivative;
            d * (c.timeConstant + samplingTime) == error - s.prevError + s.errorDerivative * c.timeConstant
    ensures c.timeConstant == 0.0 ==>
              Next(c, s, error, samplingTime).errorDerivative == Calculus.Differentiate(error, s.prevError, samplingTime)
  {
    var d := Next(c, s, error, samplingTime).errorDerivative;
    assert c.timeConstant * (d - s.errorDerivative) + samplingTime * d == error - s.prevError;
    if c.timeConstant == 0.0 {
      Calculus.FilterWithoutTimeConstant(error, s.prevError, samplingTime, s.errorDerivative);
    }
  }

  /**
    Both integrals grow by a trapezoid over the values from BEFORE the step:
    the error integral over `error` and the old `prev_error`, the windup
    integral over the old `sat_error` and the old `prev_sat_error`.
   */
  lemma IntegralIncrements(c: Config, s: State, error: real, samplingTime: real)
    requires CanStep(c, samplingTime)
    ensures var n := Next(c, s, error, samplingTime);
            && (n.errorIntegral - s.errorIntegral) * 2.0 == (error + s.prevError) * samplingTime
            && (n.satErrorIntegral - s.satErrorIntegral) * 2.0 == (s.satError + s.prevSatError) * samplingTime
  {
  }

  /** From the all-zero state a zero error returns 0 and leaves every field 0. */
  lemma ZeroStep(c: Config, samplingTime: real)
    requires CanStep(c, samplingTime)
    ensures Control(c, Zero, 0.0, samplingTime) == 0.0
    ensures Next(c, Zero, 0.0, samplingTime) == Zero
  {
  }

  /**
    With no integral, derivative or anti-windup gain, the controller is a
    clamped proportional one, from any state.
   */
  lemma ProportionalOnly(c: Config, s: State, error: real, samplingTime: real)
    requires CanStep(c, samplingTime)
    requires c.integralGain == 0.0 && c.derivativeGain == 0.0 && c.controlGain == 0.0
    ensures Control(c, s, error, samplingTime) == Clamp(c.proportionGain * error, -c.saturation, c.saturation)
  {
  }

  /** Gains (2, 0, 0), no time constant or anti-windup, bound 100: `step(5, 1)` from zero returns 10 and records no excess. */
  lemma ProportionalExample()
    ensures var c := Config(2.0, 0.0, 0.0, 0.0, 0.0, 100.0);
            Control(c, Zero, 5.0, 1.0) == 10.0
            && Next(c, Zero, 5.0, 1.0).prevError == 5.0 && Next(c, Zero, 5.0, 1.0).satError == 0.0
  {
  }

  /** The same gains with bound 8: the raw 10 is clipped to 8 and the excess 2 is recorded for the next step. */
  lemma SaturatedExample()
    ensures var c := Config(2.0, 0.0, 0.0, 0.0, 0.0, 8.0);
            Control(c, Zero, 5.0, 1.0) == 8.0 && Next(c, Zero, 5.0, 1.0).satError == 2.0
  {
  }

  /**
    Holding the error at `prev_error` leaves the derivative to decay by the
    filter factor (to 0 at once when the time constant is 0), and grows the
    error integral by `error * sampling_time`.
   */
  lemma HeldErrorStep(c: Config, s: State, samplingTime: real)
    requires CanStep(c, samplingTime)
    ensures var n := Next(c, s, s.prevError, samplingTime);
            && n.errorDerivative == s.errorDerivative * (c.timeConstant / (c.timeConstant + samplingTime))
            && (c.timeConstant == 0.0 ==> n.errorDerivative == 0.0)
            && n.errorIntegral == s.errorIntegral + s.prevError * samplingTime
  {
    Calculus.FilterOnConstantSignal(s.prevError, samplingTime, s.errorDerivative, c.timeConstant);
  }

  // ---------------------------------------------------------------------
  // Runs of steps.

  /** One sample handed to the controller: the error and the time since the previous sample. */
  datatype Sample = Sample(error: real, samplingTime: real)

  predicate CanRun(c: Config, samples: seq<Sample>)
  {
    forall i :: 0 <= i < |samples| ==> CanStep(c, samples[i].samplingTime)
  }

  /** The state after feeding `samples` to the controller in order. */
  function Run(c: Config, s: State, samples: seq<Sample>): State
    requires CanRun(c, samples)
    decreases |samples|
  {
    if samples == [] then s
    else Run(c, Next(c, s, samples[0].error, samples[0].samplingTime), samples[1..])
  }

  /** The outputs produced while feeding `samples` in order. */
  function Outputs(c: Config, s: State, samples: seq<Sample>): (out: seq<real>)
    requires CanRun(c, samples)
    ensures |out| == |samples|
    decreases |samples|
  {
    if samples == [] then []
    else [Control(c, s, samples[0].error, samples[0].samplingTime)]
         + Outputs(c, Next(c, s, samples[0].error, samples[0].samplingTime), samples[1..])
  }

  /** Every output of every run lies in `[-saturation, saturation]`. */
  lemma {:induction false} OutputsBounded(c: Config, s: State, samples: seq<Sample>)
    requires CanRun(c, samples)
    ensures forall i :: 0 <= i < |samples| ==> -c.saturation <= Outputs(c, s, samples)[i] <= c.saturation
    decreases |samples|
  {
    if samples != [] {
      var n := Next(c, s, samples[0].error, samples[0].samplingTime);
      ControlBounded(c, s, samples[0].error, samples[0].samplingTime);
      OutputsBounded(c, n, samples[1..]);
      forall i | 0 <= i < |samples|
        ensures -c.saturation <= Outputs(c, s, samples)[i] <= c.saturation
      {
        if i > 0 {
          assert Outputs(c, s, samples)[i] == Outputs(c, n, samples[1..])[i - 1];
        }
      }
    }
  }

  /** All-zero samples keep the zero state zero and every output 0. */
  lemma {:induction false} ZeroRun(c: Config, samples: seq<Sample>)
    requires CanRun(c, samples)
    requires forall i :: 0 <= i < |samples| ==> samples[i].error == 0.0
    ensures Run(c, Zero, samples) == Zero
    ensures forall i :: 0 <= i < |samples| ==> Outputs(c, Zero, samples)[i] == 0.0
    decreases |samples|
  {
    if samples != [] {
      ZeroStep(c, samples[0].samplingTime);
      ZeroRun(c, samples[1..]);
      forall i | 0 <= i < |samples|
        ensures Outputs(c, Zero, samples)[i] == 0.0
      {
        if i > 0 {
          assert Outputs(c, Zero, samples)[i] == Outputs(c, Zero, samples[1..])[i - 1];
        }
      }
    }
  }

  /**
    The trapezoidal integral of the errors in `samples`, starting from the
    error `prevError`: what `error_integral` gains over a run.
   */
  function ErrorArea(prevError: real, samples: seq<Sample>): real
    decreases |samples|
  {
    if samples == [] then 0.0
    else Calculus.Integrate(samples[0].error, prevError, samples[0].samplingTime)
         + ErrorArea(samples[0].error, samples[1..])
  }

  /**
    `error_integral` depends only on the errors and sampling times, never on
    the gains or on saturation: the anti-windup correction is subtracted in
    the integral TERM and does not slow the accumulation of `error_integral`
    itself.
   */
  lemma {:induction false} ErrorIntegralIgnoresGains(c: Config, s: State, samples: seq<Sample>)
    requires CanRun(c, samples)
    ensures Run(c, s, samples).errorIntegral == s.errorIntegral + ErrorArea(s.prevError, samples)
    ensures samples != [] ==> Run(c, s, samples).prevError == samples[|samples| - 1].error
    decreases |samples|
  {
    if samples != [] {
      var n := Next(c, s, samples[0].error, samples[0].samplingTime);
      ErrorIntegralIgnoresGains(c, n, samples[1..]);
    }
  }

  /**
    While the output is clipped from above on two consecutive steps, the
    windup integral grows, so the anti-windup correction `control_gain *
    sat_error_integral` pulls the integral term down further.
   */
  lemma WindupGrowsWhileSaturated(c: Config, s: State, error: real, samplingTime: real)
    requires CanStep(c, samplingTime) && samplingTime > 0.0
    requires s.satError > 0.0 && s.prevSatError >= 0.0
    ensures Next(c, s, error, samplingTime).satErrorIntegral > s.satErrorIntegral
  {
    assert (s.satError + s.prevSatError) * samplingTime > 0.0;
  }

  // ---------------------------------------------------------------------
  // The struct, updated in place.

  /** `Utility::PID<T>`: public configuration and state fields, value-initialised to 0. */
  class PID {
    var proportionGain: real
    var integralGain: real
    var derivativeGain: real
    var timeConstant: real
    var controlGain: real
    var saturation: real

    var prevError: real
    var errorIntegral: real
    var errorDerivative: real
    var satError: real
    var prevSatError: real
    var satErrorIntegral: real

    /** The configuration fields as a value. */
    function Configuration(): Config
      reads this
    {
      Config(proportionGain, integralGain, derivativeGain, timeConstant, controlGain, saturation)
    }

    /** The state fields as a value. */
    function History(): State
      reads this
    {
      State(prevError, errorIntegral, errorDerivative, satError, prevSatError, satErrorIntegral)
    }

    /** Aggregate initialisation with the configuration, every state field 0. */
    constructor (c: Config)
      ensures Configuration() == c && History() == Zero
    {
      proportionGain, integralGain, derivativeGain := c.proportionGain, c.integralGain, c.derivativeGain;
      timeConstant, controlGain, saturation := c.timeConstant, c.controlGain, c.saturation;
      prevError, errorIntegral, errorDerivative := 0.0, 0.0, 0.0;
      satError, prevSatError, satErrorIntegral := 0.0, 0.0, 0.0;
    }

    /** `get_proportion`: reads the proportional gain only. */
    function GetProportion(error: real): (p: real)
      reads this
      ensures p == Proportion(Configuration(), error)
    {
      proportionGain * error
    }

    /** `get_derivative`: stores the filtered derivative and returns it times the gain; nothing else changes. */
    method GetDerivative(error: real, samplingTime: real) returns (d: real)
      requires timeConstant + samplingTime != 0.0
      modifies this`errorDerivative
      ensures errorDerivative == NewDerivative(Configuration(), old(History()), error, samplingTime)
      ensures d == Derivative(Configuration(), old(History()), error, samplingTime)
    {
      errorDerivative := Calculus.FilteredDifferentiate(error, prevError, samplingTime, errorDerivative, timeConstant);
      d := derivativeGain * errorDerivative;
    }

    /** `get_integral`: adds the two trapezoids to the two integrals and returns the integral term; nothing else changes. */
    method GetIntegral(error: real, samplingTime: real) returns (i: real)
      modifies this`errorIntegral, this`satErrorIntegral
      ensures errorIntegral == NewErrorIntegral(old(History()), error, samplingTime)
      ensures satErrorIntegral == NewSatErrorIntegral(old(History()), samplingTime)
      ensures i == Integral(Configuration(), old(History()), error, samplingTime)
    {
      errorIntegral := errorIntegral + Calculus.Integrate(error, prevError, samplingTime);
      satErrorIntegral := satErrorIntegral + Calculus.Integrate(satError, prevSatError, samplingTime);
      i := integralGain * errorIntegral - controlGain * satErrorIntegral;
    }

    /**
      `get_control`: one controller step. The configuration is left as it
      was, the state becomes `Next` of the old state, and the result is the
      clamped control, within `[-saturation, saturation]`.
     */
    method GetControl(error: real, samplingTime: real) returns (control: real)
      requires CanStep(Configuration(), samplingTime)
      modifies this
      ensures Configuration() == old(Configuration())
      ensures History() == Next(Configuration(), old(History()), error, samplingTime)
      ensures control == Control(Configuration(), old(History()), error, samplingTime)
      ensures -saturation <= control <= saturation
    {
      var p := GetProportion(error);
      var i := GetIntegral(error, samplingTime);
      var d := GetDerivative(error, samplingTime);
      var raw := p + i + d;
      control := Clamp(raw, -saturation, saturation);
      prevSatError, satError := satError, raw - control;
      prevError := error;
    }

    /** `operator()`: the same step as `get_control`. */
    method Step(error: real, samplingTime: real) returns (control: real)
      requires CanStep(Configuration(), samplingTime)
      modifies this
      ensures Configuration() == old(Configuration())
      ensures History() == Next(Configuration(), old(History()), error, samplingTime)
      ensures control == Control(Configuration(), old(History()), error, samplingTime)
    {
      control := GetControl(error, samplingTime);
    }
  }
}
