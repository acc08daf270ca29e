/**
  The PWM timer driver of pwm_device.cpp: the `initialized_` flag that gates
  every HAL call, the DMA compare buffer, and the prescaler / auto-reload
  search of `set_frequency`. HAL calls are not performed: a method returns the
  calls it would issue, in order, and `set_frequency` returns the two register
  values it would write. The timer's clock-division register field is a
  parameter.
 */
module PwmDevice {
  import opened Machine
  import opened Optional
  import Division

  /** The three ways of starting or stopping the PWM output. */
  datatype Mode = Blocking | Interrupt | Dma

  /** A HAL request on the timer. */
  datatype TimerCall =
    | SetCompare(channelMask: u16, raw: u16)
    | Start(mode: Mode, channelMask: u16)
    | Stop(mode: Mode, channelMask: u16)

  /** The timer input clock in Hz. */
  const CLOCK_HZ: u32 := 80_000_000

  /** The largest value a 16-bit timer register takes. */
  const REGISTER_MAX: u32 := 0xFFFF

  /** `std::clamp(x, 0U, 0xFFFFU)`. */
  function ClampRegister(x: u32): (r: u16)
    ensures r <= x && (r == x || r == REGISTER_MAX)
    ensures x <= REGISTER_MAX ==> r == x
  {
    if x > REGISTER_MAX then REGISTER_MAX else x
  }

  /** The divisor `(prescaler + 1U) * (clock_div + 1U) * frequency`, each step in 32-bit arithmetic. */
  function Divisor(frequency: u16, clockDiv: u32, prescaler: u32): u32
  {
    Wrap(Wrap((prescaler + 1) * Inc(clockDiv)) * frequency)
  }

  /** When the exact product fits in 32 bits, no step of the divisor wraps. */
  lemma DivisorExact(frequency: u16, clockDiv: u32, prescaler: u32)
    requires frequency != 0 && (prescaler + 1) * (clockDiv + 1) * frequency < TWO_TO_THE_32
    ensures Divisor(frequency, clockDiv, prescaler) == (prescaler + 1) * (clockDiv + 1) * frequency
  {
    var m := (prescaler + 1) * (clockDiv + 1);
    assert m <= m * frequency by {
      Division.MulAtLeast(m, frequency);
    }
  }

  /**
    The `counter_period` the search holds with a given prescaler: the clock
    divided by the frequency before the loop, the clock divided by the
    divisor, minus one, inside it; `None` when the divisor is zero.
   */
  function PeriodAt(frequency: u16, clockDiv: u32, prescaler: u32): Option<u32>
    requires frequency != 0
  {
    if prescaler == 0 then Some(Quot(CLOCK_HZ, frequency))
    else if Divisor(frequency, clockDiv, prescaler) == 0 then None
    else Some(Wrap(Quot(CLOCK_HZ, Divisor(frequency, clockDiv, prescaler)) - 1))
  }

  /** The search moves past `prescaler`: its period still exceeds 0xFFFF and the prescaler can grow. */
  predicate Continues(frequency: u16, clockDiv: u32, prescaler: u32)
    requires frequency != 0
  {
    prescaler < REGISTER_MAX
    && PeriodAt(frequency, clockDiv, prescaler).Some?
    && PeriodAt(frequency, clockDiv, prescaler).value > REGISTER_MAX
  }

  /** `prescaler` is the first one the search does not move past. */
  predicate FirstStop(frequency: u16, clockDiv: u32, prescaler: u32)
    requires frequency != 0
  {
    prescaler <= REGISTER_MAX
    && !Continues(frequency, clockDiv, prescaler)
    && forall q: u32 :: q < prescaler ==> Continues(frequency, clockDiv, q)
  }

  /** What `set_frequency` does to the timer registers. */
  datatype FrequencyOutcome =
    | NotWritten
    | Written(prescaler: u16, autoReload: u16)
    | DivisionByZero(prescaler: u16)

  /** Two prescalers that are both first stops are the same. */
  lemma FirstStopUnique(frequency: u16, clockDiv: u32, p: u32, q: u32)
    requires frequency != 0
    requires FirstStop(frequency, clockDiv, p) && FirstStop(frequency, clockDiv, q)
    ensures p == q
  {
  }

  /**
    Inside the loop, with no 32-bit wrap-around in the divisor, the counter
    period is the clock over `(prescaler + 1) * (clock_div + 1) * frequency`,
    minus one in 32-bit arithmetic.
   */
  lemma PeriodAtExact(frequency: u16, clockDiv: u32, prescaler: u32)
    requires frequency != 0 && prescaler != 0
    requires (prescaler + 1) * (clockDiv + 1) * frequency < TWO_TO_THE_32
    ensures (prescaler + 1) * (clockDiv + 1) * frequency > 0
    ensures PeriodAt(frequency, clockDiv, prescaler)
         == Some(Wrap(CLOCK_HZ / ((prescaler + 1) * (clockDiv + 1) * frequency) - 1))
  {
    Division.ProductPositive(prescaler + 1, clockDiv + 1, frequency);
    DivisorExact(frequency, clockDiv, prescaler);
  }

  /** Without clock division the divisor never wraps to zero, so the search always writes. */
  lemma NoDivisionByZeroUndivided(frequency: u16, prescaler: u32)
    requires frequency != 0 && prescaler <= REGISTER_MAX
    ensures PeriodAt(frequency, 0, prescaler).Some?
  {
    if prescaler != 0 {
      Division.MulMonotone(prescaler + 1, TWO_TO_THE_16, frequency);
      assert (prescaler + 1) * 1 == prescaler + 1;
      DivisorExact(frequency, 0, prescaler);
    }
  }

  /** At 1 kHz without clock division, prescaler 1 with auto-reload 39999 is the first stop. */
  lemma KilohertzExample()
    ensures FirstStop(1000, 0, 1) && PeriodAt(1000, 0, 1) == Some(39999)
  {
    assert PeriodAt(1000, 0, 0) == Some(80000);
    assert Continues(1000, 0, 0);
    assert Divisor(1000, 0, 1) == 2000;
    assert forall q: u32 :: q < 1 ==> Continues(1000, 0, q);
  }

  class PwmDevice {
    /** `timer_ != nullptr`. */
    const hasTimer: bool
    const channelMask: u16
    var initialized: bool
    /** `dma_buf_`, the word the DMA stream reads the compare value from. */
    var dmaBuf: u32

    /**
      The flag is only ever set with a timer present, so every HAL request the
      flag lets through goes to a real timer.
     */
    predicate Valid()
      reads this
    {
      initialized ==> hasTimer
    }

    /** The constructor stores its arguments and calls `initialize`. */
    constructor(hasTimer: bool, channelMask: u16)
      ensures this.hasTimer == hasTimer && this.channelMask == channelMask
      ensures initialized == hasTimer && dmaBuf == 0
      ensures Valid()
    {
      this.hasTimer := hasTimer;
      this.channelMask := channelMask;
      initialized := false;
      dmaBuf := 0;
      new;
      Initialize();
    }

    /** `initialize`: sets the flag when there is a timer, otherwise changes nothing. */
    method Initialize()
      modifies this`initialized
      ensures initialized == (hasTimer || old(initialized))
      ensures Valid() == (old(Valid()) || hasTimer)
    {
      if hasTimer {
        initialized := true;
      }
    }

    /** `deinitialize`: clears the flag when there is a timer, otherwise changes nothing. */
    method Deinitialize()
      modifies this`initialized
      ensures initialized == (!hasTimer && old(initialized))
      ensures old(Valid()) ==> Valid() && !initialized
    {
      if hasTimer {
        initialized := false;
      }
    }

    /** `start`, `start_it`, `start_dma`: one start request in the given mode, and none while not initialized. */
    method StartOutput(mode: Mode) returns (calls: seq<TimerCall>)
      requires Valid()
      ensures calls != [] ==> hasTimer
      ensures initialized ==> calls == [Start(mode, channelMask)]
      ensures !initialized ==> calls == []
    {
      calls := [];
      if initialized {
        calls := [Start(mode, channelMask)];
      }
    }

    /** `stop`, `stop_it`, `stop_dma`: one stop request in the given mode, and none while not initialized. */
    method StopOutput(mode: Mode) returns (calls: seq<TimerCall>)
      requires Valid()
      ensures calls != [] ==> hasTimer
      ensures initialized ==> calls == [Stop(mode, channelMask)]
      ensures !initialized ==> calls == []
    {
      calls := [];
      if initialized {
        calls := [Stop(mode, channelMask)];
      }
    }

    /**
      `set_compare_raw` and `set_compare_raw_it`: the compare register is set
      on the channel and the output started; nothing happens while not
      initialized.
     */
    method SetCompareRaw(raw: u16, mode: Mode) returns (calls: seq<TimerCall>)
      requires Valid() && mode != Dma
      ensures calls != [] ==> hasTimer
      ensures initialized ==> calls == [SetCompare(channelMask, raw), Start(mode, channelMask)]
      ensures !initialized ==> calls == []
    {
      calls := [];
      if initialized {
        var started := StartOutput(mode);
        calls := [SetCompare(channelMask, raw)] + started;
      }
    }

    /**
      `set_compare_raw_dma`: the value goes to the DMA buffer, not the compare
      register, and the output is started in DMA mode; nothing happens while
      not initialized.
     */
    method SetCompareRawDma(raw: u16) returns (calls: seq<TimerCall>)
      requires Valid()
      modifies this`dmaBuf
      ensures calls != [] ==> hasTimer
      ensures old(initialized) ==> dmaBuf == raw && calls == [Start(Dma, channelMask)]
      ensures !old(initialized) ==> dmaBuf == old(dmaBuf) && calls == []
    {
      calls := [];
      if initialized {
        dmaBuf := raw;
        calls := StartOutput(Dma);
      }
    }

    /**
      `set_frequency`: nothing is written for frequency 0. Otherwise the
      prescaler is the first one at which the counter period fits in 16 bits,
      or 0xFFFF, and both written values are clamped to 16 bits; a divisor that
      wraps to zero is a division by zero.
     */
    method SetFrequency(frequency: u16, clockDiv: u32) returns (outcome: FrequencyOutcome)
      requires frequency != 0 ==> hasTimer
      ensures frequency == 0 <==> outcome == NotWritten
      ensures outcome.Written? ==>
        FirstStop(frequency, clockDiv, outcome.prescaler)
        && PeriodAt(frequency, clockDiv, outcome.prescaler).Some?
        && outcome.autoReload == ClampRegister(PeriodAt(frequency, clockDiv, outcome.prescaler).value)
      ensures outcome.DivisionByZero? ==>
        1 <= outcome.prescaler <= REGISTER_MAX
        && PeriodAt(frequency, clockDiv, outcome.prescaler) == None
        && forall q: u32 :: q < outcome.prescaler ==> Continues(frequency, clockDiv, q)
    {
      if frequency == 0 {
        return NotWritten;
      }
      var counterPeriod: u32 := Quot(CLOCK_HZ, frequency);
      var prescaler: u32 := 0;
      while counterPeriod > REGISTER_MAX && prescaler < REGISTER_MAX
        invariant prescaler <= REGISTER_MAX
        invariant PeriodAt(frequency, clockDiv, prescaler) == Some(counterPeriod)
        invariant forall q: u32 :: q < prescaler ==> Continues(frequency, clockDiv, q)
        decreases REGISTER_MAX - prescaler
      {
        prescaler := prescaler + 1;
        var divisor := Divisor(frequency, clockDiv, prescaler);
        if divisor == 0 {
          return DivisionByZero(prescaler);
        }
        counterPeriod := Wrap(Quot(CLOCK_HZ, divisor) - 1);
      }
      return Written(ClampRegister(prescaler), ClampRegister(counterPeriod));
    }
  }
}
