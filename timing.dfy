/**
  The timer count / frequency conversions of utility.hpp, all in
  `std::uint32_t` arithmetic: `x + 1UL` and `x - 1UL` wrap modulo 2^32, and
  `/` is unsigned floor division, undefined for a zero divisor.
 */
module Timing {
  import opened Machine
  import opened Division

  /** `count_to_freq_hz`: the clock divided in turn by count, prescaler and divider, each plus one. */
  function CountToFreqHz(count: u32, prescaler: u32, clockFrequency: u32, clockDivider: u32): u32
    requires Inc(count) != 0 && Inc(prescaler) != 0 && Inc(clockDivider) != 0
  {
    Quot(Quot(Quot(clockFrequency, Inc(count)), Inc(prescaler)), Inc(clockDivider))
  }

  /** The nested floor divisions collapse into one division by the product of the three periods. */
  lemma CountToFreqHzCollapses(count: u32, prescaler: u32, clockFrequency: u32, clockDivider: u32)
    requires Inc(count) != 0 && Inc(prescaler) != 0 && Inc(clockDivider) != 0
    ensures (count + 1) * (prescaler + 1) * (clockDivider + 1) > 0
    ensures CountToFreqHz(count, prescaler, clockFrequency, clockDivider)
         == clockFrequency / ((count + 1) * (prescaler + 1) * (clockDivider + 1))
  {
    DivDivDiv(clockFrequency, count + 1, prescaler + 1, clockDivider + 1);
  }

  /** `count_to_time_ms`: 1000 divided by the frequency, which must not be 0. */
  function CountToTimeMs(count: u32, prescaler: u32, clockFrequency: u32, clockDivider: u32): u32
    requires Inc(count) != 0 && Inc(prescaler) != 0 && Inc(clockDivider) != 0
    requires CountToFreqHz(count, prescaler, clockFrequency, clockDivider) != 0
  {
    Quot(1000, CountToFreqHz(count, prescaler, clockFrequency, clockDivider))
  }

  /** The period in milliseconds is 0 exactly when the frequency is above 1000 Hz. */
  lemma CountToTimeMsZero(count: u32, prescaler: u32, clockFrequency: u32, clockDivider: u32)
    requires Inc(count) != 0 && Inc(prescaler) != 0 && Inc(clockDivider) != 0
    requires CountToFreqHz(count, prescaler, clockFrequency, clockDivider) != 0
    ensures CountToTimeMs(count, prescaler, clockFrequency, clockDivider) == 0
        <==> CountToFreqHz(count, prescaler, clockFrequency, clockDivider) > 1000
  {
    var f := CountToFreqHz(count, prescaler, clockFrequency, clockDivider);
    if f <= 1000 {
      DivLowerBound(1000, f, 1);
    } else {
      DivUpperBound(1000, f, 1);
    }
  }

  /** The unsigned quotient `freq_hz_to_count` subtracts one from. */
  function TicksPerPeriod(frequencyHz: u32, prescaler: u32, clockFrequencyHz: u32, clockDivider: u32): u32
    requires frequencyHz != 0 && Inc(prescaler) != 0 && Inc(clockDivider) != 0
  {
    Quot(Quot(Quot(clockFrequencyHz, Inc(prescaler)), Inc(clockDivider)), frequencyHz)
  }

  /** `freq_hz_to_count`: the ticks per period minus one, wrapping to 0xFFFFFFFF when there are none. */
  function FreqHzToCount(frequencyHz: u32, prescaler: u32, clockFrequencyHz: u32, clockDivider: u32): (count: u32)
    requires frequencyHz != 0 && Inc(prescaler) != 0 && Inc(clockDivider) != 0
    ensures TicksPerPeriod(frequencyHz, prescaler, clockFrequencyHz, clockDivider) == 0
        ==> count == TWO_TO_THE_32 - 1
    ensures TicksPerPeriod(frequencyHz, prescaler, clockFrequencyHz, clockDivider) != 0
        ==> count + 1 == TicksPerPeriod(frequencyHz, prescaler, clockFrequencyHz, clockDivider)
  {
    Wrap(TicksPerPeriod(frequencyHz, prescaler, clockFrequencyHz, clockDivider) - 1)
  }

  /** The ticks per period are the clock divided by the product of prescaler, divider and frequency. */
  lemma TicksPerPeriodCollapses(frequencyHz: u32, prescaler: u32, clockFrequencyHz: u32, clockDivider: u32)
    requires frequencyHz != 0 && Inc(prescaler) != 0 && Inc(clockDivider) != 0
    ensures (prescaler + 1) * (clockDivider + 1) * frequencyHz > 0
    ensures TicksPerPeriod(frequencyHz, prescaler, clockFrequencyHz, clockDivider)
         == clockFrequencyHz / ((prescaler + 1) * (clockDivider + 1) * frequencyHz)
  {
    DivDivDiv(clockFrequencyHz, prescaler + 1, clockDivider + 1, frequencyHz);
  }

  /**
    Round trip through the count: when the requested frequency leaves at
    least one tick per period, the count computed for it runs the timer at
    that frequency or faster, never slower.
   */
  lemma FreqHzToCountNotSlower(frequencyHz: u32, prescaler: u32, clockFrequencyHz: u32, clockDivider: u32)
    requires frequencyHz != 0 && Inc(prescaler) != 0 && Inc(clockDivider) != 0
    requires TicksPerPeriod(frequencyHz, prescaler, clockFrequencyHz, clockDivider) != 0
    ensures Inc(FreqHzToCount(frequencyHz, prescaler, clockFrequencyHz, clockDivider)) != 0
    ensures frequencyHz
         <= CountToFreqHz(FreqHzToCount(frequencyHz, prescaler, clockFrequencyHz, clockDivider),
                          prescaler, clockFrequencyHz, clockDivider)
  {
    var m := (prescaler + 1) * (clockDivider + 1);
    var q := TicksPerPeriod(frequencyHz, prescaler, clockFrequencyHz, clockDivider);
    var count := FreqHzToCount(frequencyHz, prescaler, clockFrequencyHz, clockDivider);
    TicksPerPeriodCollapses(frequencyHz, prescaler, clockFrequencyHz, clockDivider);
    CountToFreqHzCollapses(count, prescaler, clockFrequencyHz, clockDivider);
    DivBounds(clockFrequencyHz, m * frequencyHz);
    assert q * (m * frequencyHz) <= clockFrequencyHz;
    assert frequencyHz * (q * m) == q * (m * frequencyHz);
    assert (count + 1) * (prescaler + 1) * (clockDivider + 1) == q * m;
    DivLowerBound(clockFrequencyHz, q * m, frequencyHz);
  }

  /**
    Round trip through the frequency: the count computed back from a
    count's nonzero frequency is at least that count.
   */
  lemma CountToFreqHzNotShorter(count: u32, prescaler: u32, clockFrequency: u32, clockDivider: u32)
    requires Inc(count) != 0 && Inc(prescaler) != 0 && Inc(clockDivider) != 0
    requires CountToFreqHz(count, prescaler, clockFrequency, clockDivider) != 0
    ensures count
         <= FreqHzToCount(CountToFreqHz(count, prescaler, clockFrequency, clockDivider),
                          prescaler, clockFrequency, clockDivider)
  {
    var m := (prescaler + 1) * (clockDivider + 1);
    var f := CountToFreqHz(count, prescaler, clockFrequency, clockDivider);
    CountToFreqHzCollapses(count, prescaler, clockFrequency, clockDivider);
    TicksPerPeriodCollapses(f, prescaler, clockFrequency, clockDivider);
    assert (count + 1) * (prescaler + 1) * (clockDivider + 1) == (count + 1) * m;
    DivBounds(clockFrequency, (count + 1) * m);
    assert (count + 1) * (m * f) == f * ((count + 1) * m);
    DivLowerBound(clockFrequency, m * f, count + 1);
  }

  /** `time_ms_to_count`: the count for the frequency `1000 / time_ms`, which must not be 0. */
  function TimeMsToCount(timeMs: u32, prescaler: u32, clockFrequencyHz: u32, clockDivider: u32): u32
    requires timeMs != 0 && 1000 / timeMs != 0 && Inc(prescaler) != 0 && Inc(clockDivider) != 0
  {
    FreqHzToCount(1000 / timeMs, prescaler, clockFrequencyHz, clockDivider)
  }

  /** Periods from 1 to 1000 ms are the ones `time_ms_to_count` accepts. */
  lemma TimeMsToCountDefined(timeMs: u32)
    ensures timeMs != 0 && 1000 / timeMs != 0 <==> 1 <= timeMs <= 1000
  {
    if 1 <= timeMs <= 1000 {
      DivLowerBound(1000, timeMs, 1);
    } else if timeMs != 0 {
      DivUpperBound(1000, timeMs, 1);
    }
  }
}
