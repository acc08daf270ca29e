/**
  The fixed-width unsigned integers of the C++ code, as bounded `int`s, and
  the wrap-around of unsigned 32-bit arithmetic (`unsigned long` is 32 bits
  wide on the Cortex-M targets, so `x + 1UL` and `x - 1UL` wrap at 2^32 too).
 */
module Machine {
  import opened Division

  const TWO_TO_THE_16: int := 0x1_0000
  const TWO_TO_THE_32: int := 0x1_0000_0000

  type u16 = x: int | 0 <= x < TWO_TO_THE_16
  type u32 = x: int | 0 <= x < TWO_TO_THE_32

  /** The `std::uint32_t` value of an exact result: reduction modulo 2^32. */
  function Wrap(x: int): (r: u32)
    ensures (r - x) % TWO_TO_THE_32 == 0
    ensures 0 <= x < TWO_TO_THE_32 ==> r == x
  {
    x % TWO_TO_THE_32
  }

  /** `x + 1U` in 32 bits: `0xFFFFFFFF + 1` wraps to 0. */
  function Inc(x: u32): (r: u32)
    ensures r == 0 <==> x == TWO_TO_THE_32 - 1
    ensures r != 0 ==> r == x + 1
  {
    Wrap(x + 1)
  }

  /** Unsigned 32-bit division `a / b`, undefined for `b == 0`. */
  function Quot(a: u32, b: u32): u32
    requires b != 0
  {
    DivAtMost(a, b);
    a / b
  }
}
