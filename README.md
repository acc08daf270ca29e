# STM32 utility core in Dafny

This project models the hardware-independent core of an STM32 C++ utility
library and proves properties of it. It covers:

- **PID controller** (`pid.hpp`): a struct of gains, a saturation bound and
  an anti-windup gain. Each call of `get_control` updates its state in place.
  - The derivative is filtered.
  - The integral is trapezoidal.
  - The clipped excess of the output (`sat_error`) is integrated and
    subtracted from the integral term.
- **Numeric helpers** (`utility.hpp`):
  - `integrate` and `differentiate`, floating-point templates, on `real`;
  - single-bit and bit-field access, `std::bit_width`, `reflection` and
    `calculate_crc`, whose `UInt` templates are fixed to `std::uint32_t`;
  - byte-order converters, for single values and whole arrays, on their
    fixed `std::uint8_t`, `std::uint16_t` and `std::uint32_t` types;
  - `rescale`, an `Arithmetic` template, on unbounded integers;
  - the timer conversions between counts, frequencies and milliseconds, on
    their fixed 32-bit unsigned types.
- **Device drivers**, with the HAL abstracted away:
  - `pwm_device.cpp`: the `initialized_` gating, the DMA compare buffer and
    the prescaler / auto-reload search of `set_frequency`;
  - `cnt_device.cpp`: the encoder count and its wrap-around difference;
  - `spi_device.cpp`: the read and write command bytes, and the frame that
    `write_bytes` sends;
  - `gpio.cpp`: pin-to-port and pin-to-mask decoding.

How the C++ is represented:

- Code that changes state in place is a Dafny `class`: `PID`, `PwmDevice`
  and `CntDevice`. Its methods state the new state in terms of the old.
- Code with loops is a `method` proved against a specification function:
  `reflection`, `calculate_crc`, the array converters, `set_frequency` and
  `write_bytes`.
- Pure formulas are functions, with lemmas about them.
- `std::uint32_t` arithmetic is written out modulo 2^32 (module `Machine`).
- Bit manipulation is on `bv8`, `bv16` and `bv32`.
- Floating point is modelled by `real`.
- HAL calls are not made. A method returns the calls it would issue, or the
  register values it would write. HAL status results and register reads are
  parameters.

Files, one module each:

| file | module | contents |
|---|---|---|
| `division.dfy` | `Division` | floor-division facts |
| `machine.dfy` | `Machine` | 32-bit wrap-around |
| `optional.dfy` | `Optional` | `std::optional` |
| `bits.dfy` | `Bits` | bit operations |
| `endian.dfy` | `Endian` | byte-order converters |
| `crc.dfy` | `Crc` | `calculate_crc` |
| `scaling.dfy` | `Scaling` | `rescale` |
| `timing.dfy` | `Timing` | timer conversions |
| `calculus.dfy` | `Calculus` | `integrate` and `differentiate` |
| `pid.dfy` | `Pid` | the PID controller |
| `pwm_device.dfy` | `PwmDevice` | the PWM driver |
| `cnt_device.dfy` | `CntDevice` | the encoder counter |
| `spi_device.dfy` | `SpiDevice` | SPI commands and frames |
| `gpio.dfy` | `Gpio` | pin decoding |

## Model

| member | source | states |
|---|---|---|
| Calculus.Integrate | utility.hpp:47-51 | a constant value over the period gives exactly `value * sampling_time`; in general the area is the mean of the two values times the sampling time |
| Calculus.IntegrateBetween | utility.hpp:47-51 | for a non-negative sampling time, the area lies between the smaller and larger endpoint times the sampling time |
| Calculus.FilteredDifferentiate | utility.hpp:25-36 | the filtered derivative `d` solves `time_constant * (d - prev_derivative) + sampling_time * d == value - prev_value` |
| Calculus.Differentiate | utility.hpp:38-45 | the backward difference: `d * sampling_time == value - prev_value` |
| Calculus.FilterWithoutTimeConstant | utility.hpp:25-45 | with time constant 0 the filtered derivative is the plain backward difference |
| Calculus.FilterOnConstantSignal | utility.hpp:25-36 | on an unchanged value the derivative decays by the factor `time_constant / (time_constant + sampling_time)` |
| Pid.Clamp | pid.hpp:21 | `std::clamp`: the result lies in `[lo, hi]`, equals the input inside it, and otherwise is the bound it crossed |
| Pid.ControlBounded | pid.hpp:17-25 | the control output always lies in `[-saturation, saturation]` |
| Pid.StepHistory | pid.hpp:22-23 | after a step, `sat_error` is the raw control minus the returned one, `prev_sat_error` is the old `sat_error`, and `prev_error` is the error just used |
| Pid.SatErrorSign | pid.hpp:21-22 | the new `sat_error` is 0 exactly when the raw control is within the bound; otherwise it is the positive or negative excess |
| Pid.DerivativeUpdate | pid.hpp:32-40 | the derivative state satisfies the filter equation, and with time constant 0 it is the backward difference |
| Pid.IntegralIncrements | pid.hpp:42-47 | `error_integral` and `sat_error_integral` grow by trapezoids over the values from before the step |
| Pid.ZeroStep | pid.hpp:17-47 | from the zero state, a zero error gives output 0 and leaves the state zero |
| Pid.ProportionalOnly | pid.hpp:17-30 | with integral, derivative and anti-windup gains 0, the output is the clamped `proportion_gain * error` |
| Pid.ProportionalExample | pid.hpp:17-30 | gain 2 and error 5, within saturation 100, give 10 |
| Pid.SaturatedExample | pid.hpp:17-30 | gain 2 and error 5 with saturation 8 give 8 and `sat_error` 2 |
| Pid.HeldErrorStep | pid.hpp:32-47 | repeating the previous error decays the derivative (to 0 when the time constant is 0) and adds `prev_error * sampling_time` to the integral |
| Pid.Outputs | pid.hpp:12-25 | a run of samples yields one output per sample |
| Pid.OutputsBounded | pid.hpp:12-25 | every output of every run lies in `[-saturation, saturation]` |
| Pid.ZeroRun | pid.hpp:12-47 | all-zero errors from the zero state keep the state zero and every output 0 |
| Pid.ErrorIntegralIgnoresGains | pid.hpp:42-47 | over any run, `error_integral` gains exactly the trapezoidal area of the errors, whatever the gains; `prev_error` ends as the last error |
| Pid.WindupGrowsWhileSaturated | pid.hpp:45-46 | while the output is clipped from above, `sat_error_integral` strictly grows |
| Pid.PID.constructor | pid.hpp:49-67 | the configuration is as given and every state field is value-initialised to 0 |
| Pid.PID.GetProportion | pid.hpp:27-30 | returns `proportion_gain * error` |
| Pid.PID.GetDerivative | pid.hpp:32-40 | stores the filtered derivative and returns it times `derivative_gain` |
| Pid.PID.GetIntegral | pid.hpp:42-47 | adds both trapezoids to the integrals and returns the integral term less the anti-windup correction |
| Pid.PID.GetControl | pid.hpp:17-25 | the configuration is unchanged, the state becomes `Next` of the old state, and the output is `Control` and within the saturation bound |
| Pid.PID.Step | pid.hpp:12-15 | `operator()` does the same as `get_control` |
| Bits.ReadWrittenBit | utility.hpp:93-112 | a written bit reads back as the value written |
| Bits.ReadOtherBit | utility.hpp:93-112 | writing one bit leaves every other bit's reading unchanged |
| Bits.WriteBitAt | utility.hpp:93-112 | bit `q` after `write_bit` is the written value at `position` and the old bit elsewhere |
| Bits.SetWhenSet | utility.hpp:93-97 | setting an already-set bit changes nothing |
| Bits.ClearWhenClear | utility.hpp:93-97 | clearing an already-clear bit changes nothing |
| Bits.WriteReadBit | utility.hpp:93-112 | writing back the bit just read leaves the word unchanged |
| Bits.FieldMaskAt | utility.hpp:81-106 | the field mask covers exactly positions `position - size + 1 .. position` |
| Bits.WriteBitsKeepsOthers | utility.hpp:81-91 | `write_bits` leaves every bit outside the field unchanged |
| Bits.WriteBitsOutside | utility.hpp:81-112 | reading any bit outside the field after `write_bits` gives the old bit |
| Bits.ReadWrittenBits | utility.hpp:81-106 | reading the field back gives the written value truncated to the field size |
| Bits.ReadWrittenBitsFit | utility.hpp:81-106 | the same, stated as the value's low `size` bits |
| Bits.WriteReadBits | utility.hpp:81-106 | writing back the field just read leaves the word unchanged |
| Bits.BitWidth | utility.hpp:309 | `std::bit_width` is at most 32 |
| Bits.BitWidthFits | utility.hpp:309 | the word has no bit at or above its bit width |
| Bits.BitWidthTop | utility.hpp:309 | for a nonzero word, the bit just below the width is set |
| Bits.BitWidthZero | utility.hpp:309 | the bit width is 0 exactly for 0 |
| Bits.BitWidthLeast | utility.hpp:309 | the bit width is the least width the word fits in |
| Bits.BitWidthIs | utility.hpp:309 | a word that fits in `k` bits and has bit `k - 1` set has bit width `k` |
| Bits.ReflectedAt | utility.hpp:305-313 | bit `q` of the reflection is bit `w - 1 - q` of the input below the width `w`, and clear above it |
| Bits.ReflectedFits | utility.hpp:305-313 | the reflection fits in the input's bit width |
| Bits.ReflectedBelow | utility.hpp:305-313 | the reflection is less than `2^bit_width(data)` |
| Bits.Reflection | utility.hpp:305-313 | the loop computes `Reflected(data)` |
| Endian.WordToBigEndianBytes | utility.hpp:124-127 | a word gives two bytes |
| Endian.WordToLittleEndianBytes | utility.hpp:129-132 | a word gives two bytes |
| Endian.DwordToBigEndianBytes | utility.hpp:146-152 | a dword gives four bytes |
| Endian.DwordToLittleEndianBytes | utility.hpp:154-160 | a dword gives four bytes |
| Endian.WordRoundTrip | utility.hpp:114-132 | word to bytes to word is the identity, in both byte orders |
| Endian.WordBytesRoundTrip | utility.hpp:114-132 | two bytes to word to bytes is the identity, in both byte orders |
| Endian.DwordRoundTrip | utility.hpp:134-160 | dword to bytes to dword is the identity, in both byte orders |
| Endian.DwordBytesRoundTrip | utility.hpp:134-160 | four bytes to dword to bytes is the identity, in both byte orders |
| Endian.ByteOrdersMirror | utility.hpp:124-160 | the little-endian bytes are the big-endian bytes reversed |
| Endian.ToWordFromWord | utility.hpp:114-132 | round trip for the converter chosen by `std::endian` |
| Endian.FromWordToWord | utility.hpp:114-132 | inverse round trip for the converter chosen by `std::endian` |
| Endian.WordsRoundTrip | utility.hpp:162-223 | words to bytes to words is the identity |
| Endian.WordBytesArrayRoundTrip | utility.hpp:162-223 | an even number of bytes to words to bytes is the identity |
| Endian.BigEndianBytesToWords | utility.hpp:162-172 | the loop gives word `i` from bytes `2i` and `2i + 1`, big-endian |
| Endian.LittleEndianBytesToWords | utility.hpp:174-184 | the loop gives word `i` from bytes `2i` and `2i + 1`, little-endian |
| Endian.BytesToWords | utility.hpp:186-192 | dispatches on the byte order |
| Endian.WordsToBigEndianBytes | utility.hpp:194-204 | the loop writes word `i` to bytes `2i` and `2i + 1`, big-endian |
| Endian.WordsToLittleEndianBytes | utility.hpp:206-216 | the loop writes word `i` to bytes `2i` and `2i + 1`, little-endian |
| Endian.WordsToBytes | utility.hpp:218-223 | dispatches on the byte order |
| Endian.AsWrittenBigEndianBytesToDwords | utility.hpp:225-237 | as written: dword `i` is read from bytes `2i .. 2i + 3` |
| Endian.AsWrittenLittleEndianBytesToDwords | utility.hpp:239-251 | as written: dword `i` is read from bytes `2i .. 2i + 3` |
| Endian.AsWrittenBytesToDwords | utility.hpp:253-259 | as written: dispatches on the byte order |
| Endian.AsWrittenDwordsToBigEndianBytes | utility.hpp:261-273 | as written: dword `i` overwrites bytes `2i .. 2i + 3` in turn |
| Endian.AsWrittenDwordsToLittleEndianBytes | utility.hpp:275-287 | as written: dword `i` overwrites bytes `2i .. 2i + 3` in turn |
| Endian.AsWrittenDwordsToBytes | utility.hpp:289-295 | as written: dispatches on the byte order |
| Endian.AsWrittenDwordsLose | utility.hpp:225-295 | as written, the dwords 0x01020304 and 0x05060708 do not survive a round trip: the first comes back as 0x01020506 |
| Endian.DwordsRoundTrip | utility.hpp:225-295 | with four bytes per dword, dwords to bytes to dwords is the identity |
| Endian.ToDwordFromDword | utility.hpp:134-160 | round trip for the converter chosen by `std::endian` |
| Endian.FromDwordToDword | utility.hpp:134-160 | inverse round trip for the converter chosen by `std::endian` |
| Endian.DwordBytesArrayRoundTrip | utility.hpp:225-295 | with four bytes per dword, a multiple of four bytes to dwords to bytes is the identity |
| Endian.BytesToDwords | utility.hpp:225-259 | the corrected loop gives dword `i` from bytes `4i .. 4i + 3` |
| Endian.DwordsToBytes | utility.hpp:261-295 | the corrected loop writes dword `i` to bytes `4i .. 4i + 3` |
| Scaling.Clamp | utility.hpp:301 | `std::clamp` on integers: the result is in `[lo, hi]`, the input when inside, the crossed bound otherwise |
| Scaling.TruncDiv | utility.hpp:301 | C++ division by a positive divisor truncates toward zero; its bounds for either sign of dividend |
| Scaling.RescaleBelow | utility.hpp:297-303 | inputs at or below `from_min` give `to_min` |
| Scaling.RescaleAbove | utility.hpp:297-303 | inputs at or above `from_max` give `to_max` |
| Scaling.RescaleBounded | utility.hpp:297-303 | with `to_min <= to_max`, every result lies in `[to_min, to_max]` |
| Scaling.RescaleMonotone | utility.hpp:297-303 | with `to_min <= to_max`, a larger input never gives a smaller result |
| Crc.ReflectByte | utility.hpp:328-330 | the reflected input byte is `reflection` of the byte |
| Crc.AsWrittenCalculateCrc | utility.hpp:315-347 | the loops as written compute `AsWrittenCrc`, which is `None` where a shift is undefined |
| Crc.NoneStaysNone | utility.hpp:327-331 | once a shift is undefined, every later byte leaves the result undefined |
| Crc.AsWrittenCrcMasked | utility.hpp:325-346 | a defined result has no bit at or above `bit_width(init)` |
| Crc.AsWrittenCrcMisplacesSecondByte | utility.hpp:327-340 | CRC-8, polynomial 0x07, init 0xFF, over bytes 0x31 0x32: as written 0x3B, with the register masked 0xA5 |
| Crc.CorrectedCalculateCrc | utility.hpp:315-347 | the loops with the register kept within the width compute `CorrectedCrc`, which fits in `bit_width(init)` bits |
| Crc.MaskedRoundsFit | utility.hpp:333-339 | the masked rounds keep the register within the width |
| Crc.CorrectedRegisterFits | utility.hpp:327-340 | after any number of bytes the corrected register fits in `bit_width(init)` bits |
| Timing.CountToFreqHzCollapses | utility.hpp:349-355 | the three floor divisions equal one division of the clock by `(count+1)(prescaler+1)(divider+1)` |
| Timing.CountToTimeMsZero | utility.hpp:357-363 | the period in milliseconds is 0 exactly when the frequency exceeds 1000 Hz |
| Timing.FreqHzToCount | utility.hpp:365-371 | the count is the ticks per period minus one, and wraps to 0xFFFFFFFF when there are no ticks |
| Timing.TicksPerPeriodCollapses | utility.hpp:365-371 | the ticks per period are the clock divided by `(prescaler+1)(divider+1)frequency` |
| Timing.FreqHzToCountNotSlower | utility.hpp:349-371 | converting a frequency to a count and back never gives a lower frequency |
| Timing.CountToFreqHzNotShorter | utility.hpp:349-371 | converting a count to a frequency and back never gives a smaller count |
| Timing.TimeMsToCountDefined | utility.hpp:373-379 | `time_ms_to_count` divides by a nonzero frequency exactly for 1 to 1000 ms |
| PwmDevice.ClampRegister | pwm_device.cpp:80-81 | the 16-bit clamp: the value itself when at most 0xFFFF, otherwise 0xFFFF |
| PwmDevice.DivisorExact | pwm_device.cpp:77 | when the product fits in 32 bits, the divisor is exactly `(prescaler+1)(clock_div+1)frequency` |
| PwmDevice.FirstStopUnique | pwm_device.cpp:75-78 | the prescaler at which the search stops is unique |
| PwmDevice.PeriodAtExact | pwm_device.cpp:77 | inside the loop, without wrap-around, the counter period is the clock over the divisor, minus one |
| PwmDevice.NoDivisionByZeroUndivided | pwm_device.cpp:75-78 | with clock division 0, the divisor never wraps to zero for any prescaler up to 0xFFFF |
| PwmDevice.KilohertzExample | pwm_device.cpp:66-83 | at 1 kHz without clock division, the search stops at prescaler 1 with auto-reload 39999 |
| PwmDevice.PwmDevice.constructor | pwm_device.cpp:5-20 | the device is initialised exactly when it has a timer |
| PwmDevice.PwmDevice.Initialize | pwm_device.cpp:147-152 | sets `initialized_` when there is a timer, and leaves it unchanged otherwise |
| PwmDevice.PwmDevice.Deinitialize | pwm_device.cpp:154-159 | clears `initialized_` when there is a timer, and leaves it unchanged otherwise |
| PwmDevice.PwmDevice.StartOutput | pwm_device.cpp:105-138 | `start`, `start_it` and `start_dma` issue one start call when initialised, and nothing otherwise; a call is only ever issued to a present timer |
| PwmDevice.PwmDevice.StopOutput | pwm_device.cpp:112-145 | `stop`, `stop_it` and `stop_dma` issue one stop call when initialised, and nothing otherwise; a call is only ever issued to a present timer |
| PwmDevice.PwmDevice.SetCompareRaw | pwm_device.cpp:27-46 | when initialised: set the compare register, then start; when not: nothing; calls go only to a present timer |
| PwmDevice.PwmDevice.SetCompareRawDma | pwm_device.cpp:53-59 | when initialised: store `raw` in the DMA buffer, then start the DMA; when not: nothing changes; calls go only to a present timer |
| PwmDevice.PwmDevice.SetFrequency | pwm_device.cpp:66-83 | frequency 0 writes nothing, with or without a timer; otherwise it writes the first prescaler at which the period fits in 16 bits, or 0xFFFF, together with the clamped period; a divisor that wraps to 0 is reported as a division by zero, and every earlier prescaler continued the search |
| CntDevice.Reduce | cnt_device.cpp:21 | `current % counter_period` is below the period and at most `current`, and equals `current` when already below |
| CntDevice.Difference | cnt_device.cpp:28 | the `uint32_t` difference: adding it to `prev` modulo 2^32 gives `next`, with the explicit value on either side of the wrap |
| CntDevice.DifferenceUnique | cnt_device.cpp:28 | it is the only 32-bit value with that property |
| CntDevice.DifferencesAdd | cnt_device.cpp:25-29 | consecutive differences add up modulo 2^32 to the overall difference |
| CntDevice.CntDevice.constructor | cnt_device.cpp:5-9 | the count starts at 0, and the device is initialised when it has a timer and the encoder start succeeded |
| CntDevice.CntDevice.Initialize | cnt_device.cpp:31-38 | sets `initialized_` when there is a timer and the start succeeds, and leaves it unchanged otherwise |
| CntDevice.CntDevice.Deinitialize | cnt_device.cpp:40-47 | clears `initialized_` when there is a timer and the stop succeeds, and leaves it unchanged otherwise |
| CntDevice.CntDevice.GetCount | cnt_device.cpp:16-23 | when not initialised: `nullopt`, and `count_` is unchanged; otherwise `count_` becomes the reduced counter value, which is returned; a value is only ever read from a present timer |
| CntDevice.CntDevice.GetCountDifference | cnt_device.cpp:25-29 | when not initialised: `nullopt`; otherwise `count_` is updated and the wrap-around difference from the previous `count_` is returned; a value is only ever read from a present timer |
| SpiDevice.AddressWidth | spi_device.cpp:69-74 | the bit width of an address byte is at most 8, and 0 only for address 0 |
| SpiDevice.TopPosition | spi_device.cpp:69-74 | the position `bit_width(address) - 1` is below 8 and holds a set bit |
| SpiDevice.ReadCommandBits | spi_device.cpp:67-70 | bit `q` of the read command is set exactly when `q` is not the top position and bit `q` of the address is set |
| SpiDevice.ReadCommandBelow | spi_device.cpp:67-70 | the read command is less than the address |
| SpiDevice.WriteCommandIsAddress | spi_device.cpp:72-75 | the write command equals the address, because its top bit is already set |
| SpiDevice.CommandsDiffer | spi_device.cpp:67-75 | the read command is less than the write command |
| SpiDevice.WriteBytes | spi_device.cpp:48-60 | when allocation fails nothing is sent; otherwise the frame has `size + 1` bytes, the write command first and the data after it in order |
| Gpio.PortIndex | gpio.cpp:9 | each port is at its index in the `{GPIOA, GPIOB, GPIOC}` table |
| Gpio.PinToPort | gpio.cpp:7-11 | the port is table entry `pin / 16` |
| Gpio.PinToMaskOneHot | gpio.cpp:13-16 | the mask is nonzero and has exactly bit `pin % 16` set |
| Gpio.PinOfDecoded | gpio.cpp:7-16 | a pin is recovered from its port and mask, so the pair determines the pin |
| Gpio.ValidPins | gpio.cpp:10 | the port table is indexed in range exactly for pins below 48 |
| Gpio.PinDecodingInjective | gpio.cpp:7-16 | two pins with the same port and mask are equal |
| Gpio.SamePort | gpio.cpp:7-16 | pins in the same bank share the port and have different masks |

## Left out

- Only the `std::uint32_t` instantiation of the `UInt` templates in
  utility.hpp is modelled.
  - The functions that take `UInt& data` return the new value instead.
  - `calculate_crc` is modelled for registers narrower than 32 bits. With
    `bit_width(init) == 32`, the shift `1U << 32` in `crc_mask` is
    undefined.
- PID and calculus arithmetic is exact `real` arithmetic.
  - Floating-point rounding, infinities and NaN are not modelled.
  - Division by a zero `time_constant + sampling_time` is excluded by a
    requires (`Pid.CanStep`); the C++ code does not guard it.
- `rescale` is modelled on unbounded integers. Overflow of
  `(value - from_min) * (to_max - to_min)`, unsigned wrap-around for
  unsigned `From` or `To`, and floating-point instantiations are not
  modelled.
- `Scaling.RescaleBounded`, `Scaling.RescaleMonotone`: these state their
  bounds only for `to_min <= to_max`. A reversed target range is computed
  by `Rescale`, but no lemma is stated for it.
- HAL calls are not modelled:
  - timer register writes, PWM start and stop, encoder start and stop, and
    SPI transmission;
  - the chip-select toggling around SPI transfers.

  They are represented by returned call lists, returned register values,
  or parameters. These parameters stand for:
  - HAL status results (`startOk`, `stopOk`);
  - the `malloc` outcome (`allocationOk`);
  - the counter register (`current`);
  - the clock-division register field (`clockDiv`), which is taken as the
    raw field value that `__HAL_TIM_GET_CLOCKDIVISION` returns.
- `PwmDevice.PwmDevice.SetFrequency`: `requires frequency != 0 ==> hasTimer`.
  Only a nonzero frequency on a null timer is excluded: the C++ code then
  reads the timer's clock-division field without checking `timer_`, which is
  undefined. Frequency 0 returns before touching the timer and is modelled
  for every device.
- The voltage conversions of `PWMDevice` (`set_compare_voltage...`,
  `voltage_to_raw`) are not modelled. They are float arithmetic around the
  modelled raw setters.
- Not modelled, because they fall outside the core covered here:
  - the getters that only read a HAL register;
  - `value_to_bytes`;
  - the degree/radian conversions;
  - `i2c_device`, `ow_device`, `common`, `quaternion3d` and `vector3d`.
- Destructors are not modelled separately. `~PWMDevice` and `~CNTDevice`
  only call `deinitialize`, which is modelled.
- `SpiDevice.WriteBytes`, and the command functions, require a nonzero
  address. For address 0, `bit_width(address) - 1U` wraps and the shift is
  undefined.
- The `read_bytes` path of spi_device.cpp is not modelled beyond its
  command byte.
- `Crc.AsWrittenCalculateCrc` treats `reflect(crc)` at utility.hpp:343 as
  `reflection(crc)`; utility.hpp declares no `reflect`.
- `Crc.CorrectedCalculateCrc` is not proved equal to the as-written
  register on the bits below the width. Only the concrete divergence
  `Crc.AsWrittenCrcMisplacesSecondByte` is shown.
- Where the behaviour described for the library and its code disagree, the
  code is modelled:
  - `error_integral` does not depend on `control_gain`
    (`Pid.ErrorIntegralIgnoresGains`). Anti-windup acts only on the
    integral term.
  - Repeating an error drives the derivative to 0 in one step only when
    the time constant is 0. Otherwise it decays by
    `time_constant / (time_constant + sampling_time)` per step
    (`Pid.HeldErrorStep`).
  - cnt_device.hpp declares the class differently from cnt_device.cpp, and
    the .cpp file is modelled.

## Findings

| source | as written | input that shows it | evidently intended | confidence | as-written member | corrected member |
|---|---|---|---|---|---|---|
| utility.hpp:225-295 | the dword array converters read and write dword `i` at byte `2 * i`, so consecutive dwords overlap | dwords `[0x01020304, 0x05060708]`, big-endian, to bytes and back: the first dword comes back as `0x01020506` | dword `i` at byte `4 * i`, making bytes and dwords inverse | high (not executed) | Endian.AsWrittenDwordsLose | Endian.DwordsRoundTrip |
| utility.hpp:327-340 | the register is masked only after the last byte, so bits shifted above the CRC width move the next byte's XOR position | CRC-8, polynomial 0x07, init 0xFF, no reflection, data `[0x31, 0x32]`: as written 0x3B, a CRC-8 register gives 0xA5 | the register kept within `bit_width(init)` bits after every round | high (not executed) | Crc.AsWrittenCrcMisplacesSecondByte | Crc.CorrectedCalculateCrc |
