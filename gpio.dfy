/**
  GPIO pin decoding of gpio.cpp: pin number `n` is bit `n % 16` of port
  `n / 16`, and the port table holds GPIOA, GPIOB and GPIOC, so pins 0..47
  are the valid ones. The HAL read, write and toggle calls that use this
  decoding are not modelled.
 */
module Gpio {

  datatype Port = GpioA | GpioB | GpioC

  /** `GPIO_PORTS`, the table `pin_to_port` indexes. */
  const PORTS: seq<Port> := [GpioA, GpioB, GpioC]

  /** The position of a port in the table. */
  function PortIndex(port: Port): (i: nat)
    ensures i < |PORTS| && PORTS[i] == port
  {
    match port
    case GpioA => 0
    case GpioB => 1
    case GpioC => 2
  }

  /** `pin_to_port`: the table entry `pin / 16`, defined only inside the table. */
  function PinToPort(pin: nat): (port: Port)
    requires pin / 16 < |PORTS|
    ensures PortIndex(port) == pin / 16
  {
    PORTS[pin / 16]
  }

  /** `pin_to_mask`: `1U << (pin % 16)` as a `std::uint16_t`. */
  function PinToMask(pin: nat): bv16
  {
    1 << (pin % 16)
  }

  /** Bit `q` of a one-hot 16-bit mask `1 << r` is set exactly at `q == r`. */
  lemma OneHotBit(r: nat, q: nat)
    requires r < 16 && q < 16
    ensures ((1 as bv16) << r) & (1 << q) != 0 <==> q == r
  {
  }

  /** The mask has exactly one set bit, bit `pin % 16`. */
  lemma PinToMaskOneHot(pin: nat, q: nat)
    requires q < 16
    ensures PinToMask(pin) != 0
    ensures PinToMask(pin) & (1 << q) != 0 <==> q == pin % 16
  {
    OneHotBit(pin % 16, q);
  }

  /** The lowest set bit of `mask` at or above `k`, 16 when there is none. */
  function BitIndexFrom(mask: bv16, k: nat): (i: nat)
    requires k <= 16
    ensures k <= i <= 16
    decreases 16 - k
  {
    if k == 16 then 16
    else if mask & (1 << k) != 0 then k
    else BitIndexFrom(mask, k + 1)
  }

  /** `log2` of a one-hot mask: the index of its lowest set bit. */
  function BitIndex(mask: bv16): nat
  {
    BitIndexFrom(mask, 0)
  }

  lemma {:induction false} BitIndexFromOneHot(r: nat, k: nat)
    requires k <= r < 16
    ensures BitIndexFrom((1 as bv16) << r, k) == r
    decreases 16 - k
  {
    OneHotBit(r, k);
    if k != r {
      BitIndexFromOneHot(r, k + 1);
    }
  }

  /** The pin a port and a one-hot mask stand for: `16 * index + log2(mask)`. */
  function PinOf(port: Port, mask: bv16): nat
  {
    16 * PortIndex(port) + BitIndex(mask)
  }

  /** Decoding a pin's port and mask gives the pin back. */
  lemma PinOfDecoded(pin: nat)
    requires pin / 16 < |PORTS|
    ensures PinOf(PinToPort(pin), PinToMask(pin)) == pin
  {
    BitIndexFromOneHot(pin % 16, 0);
  }

  /** Valid pins are exactly 0..47. */
  lemma ValidPins(pin: nat)
    ensures pin / 16 < |PORTS| <==> pin < 48
  {
  }

  /** Distinct valid pins differ in their port or in their mask. */
  lemma PinDecodingInjective(p: nat, q: nat)
    requires p / 16 < |PORTS| && q / 16 < |PORTS|
    requires PinToPort(p) == PinToPort(q) && PinToMask(p) == PinToMask(q)
    ensures p == q
  {
    PinOfDecoded(p);
    PinOfDecoded(q);
  }

  /** Pins with the same `pin / 16` share a port, and distinct ones among them get distinct masks. */
  lemma SamePort(p: nat, q: nat)
    requires p / 16 < |PORTS| && p / 16 == q / 16
    ensures PinToPort(p) == PinToPort(q)
    ensures p != q ==> PinToMask(p) != PinToMask(q)
  {
    if p != q && PinToMask(p) == PinToMask(q) {
      PinDecodingInjective(p, q);
    }
  }
}
