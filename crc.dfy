/**
  `calculate_crc` of utility.hpp for `UInt = std::uint32_t`: a bitwise CRC
  whose width is taken from the value of `init` through `std::bit_width`.

  As written, the register `crc` is masked only at the very end. The left
  shifts of the eight rounds leave bits above the CRC's width, and the next
  byte is XORed in at `bit_width(crc) - 8`, which those bits have moved up.
  `AsWritten...` members model that code; `Corrected...` members keep the
  register within the width, as a CRC of that width must.

  The shifts the C++ code leaves undefined are ruled out: `init` must be
  nonzero (else `msb_mask` shifts by `0U - 1U`) and narrower than 32 bits
  (else `crc_mask` shifts by 32), which the callers control; a register whose
  bit width falls below 8 before a byte (a shift by `0U - 8U` or more) ends
  the computation with `None`.
 */
module Crc {
  import Bits
  import opened Optional

  /** What the C++ code needs of `init` for its masks to be defined. */
  predicate ValidInit(init: bv32)
  {
    init != 0 && Bits.BitWidth(init) < 32
  }

  /** `msb_mask`: the top bit of a `width`-bit register. */
  function MsbMask(width: bv8): bv32
    requires 1 <= width <= 32
  {
    1 << (width - 1)
  }

  /** `crc_mask`: the bits of a `width`-bit register. */
  function CrcMask(width: bv8): bv32
    requires width <= 32
  {
    Bits.LowMask(width)
  }

  /** `reflection` on a `std::uint8_t`: the reflection of bits.dfy, which never leaves the low byte. */
  function ReflectByte(b: bv8): (r: bv8)
    ensures r as bv32 == Bits.Reflected(b as bv32)
  {
    ByteReflectionFits(b);
    (Bits.Reflected(b as bv32) & 0xFF) as bv8
  }

  lemma ByteWidth(b: bv8)
    ensures Bits.FitsIn(b as bv32, 8)
  {
  }

  lemma ShiftMonotone(w: bv8)
    requires w <= 8
    ensures (1 as bv32) << w <= 256
  {
  }

  lemma LowByteKept(x: bv32)
    requires x < 256
    ensures x & 0xFF == x
  {
  }

  /** A byte's reflection is a byte. */
  lemma ByteReflectionFits(b: bv8)
    ensures Bits.Reflected(b as bv32) & 0xFF == Bits.Reflected(b as bv32)
  {
    var x := b as bv32;
    ByteWidth(b);
    Bits.BitWidthLeast(x, 8);
    Bits.ReflectedBelow(x);
    ShiftMonotone(Bits.BitWidth(x));
    LowByteKept(Bits.Reflected(x));
  }

  /** One of the eight rounds per byte: shift left, and XOR in the polynomial when the `msb_mask` bit was set. */
  function Round(crc: bv32, msbMask: bv32, polynomial: bv32): bv32
  {
    if crc & msbMask != 0 then (crc << 1) ^ polynomial else crc << 1
  }

  /** `n` rounds. */
  function Rounds(crc: bv32, msbMask: bv32, polynomial: bv32, n: nat): bv32
    decreases n
  {
    if n == 0 then crc else Round(Rounds(crc, msbMask, polynomial, n - 1), msbMask, polynomial)
  }

  /** `crc ^= byte << shift`. */
  function Feed(crc: bv32, b: bv8, shift: bv8): bv32
    requires shift <= 32
  {
    crc ^ (b as bv32 << shift)
  }

  /** `crc ^= xor_out; return crc & crc_mask;` */
  function Output(crc: bv32, xorOut: bv32, crcMask: bv32): bv32
  {
    (crc ^ xorOut) & crcMask
  }

  /** The byte as fed: reflected first when `reflect_in` is set. */
  function InputByte(b: bv8, reflectIn: bool): bv8
  {
    if reflectIn then ReflectByte(b) else b
  }

  // ---------------------------------------------------------------------
  // As written.

  /** One byte as written: XOR it in at `bit_width(crc) - 8`, then eight rounds; `None` where that shift is undefined. */
  function AsWrittenByte(crc: bv32, b: bv8, msbMask: bv32, polynomial: bv32, reflectIn: bool): Option<bv32>
  {
    var w := Bits.BitWidth(crc);
    if w < 8 then None
    else Some(Rounds(Feed(crc, InputByte(b, reflectIn), w - 8), msbMask, polynomial, 8))
  }

  /** The register after the first `k` bytes of `data`, as written. */
  function AsWrittenRegister(data: seq<bv8>, k: nat, init: bv32, polynomial: bv32, reflectIn: bool): Option<bv32>
    requires k <= |data| && ValidInit(init)
    decreases k
  {
    Bits.BitWidthZero(init);
    if k == 0 then Some(init)
    else match AsWrittenRegister(data, k - 1, init, polynomial, reflectIn)
      case None => None
      case Some(crc) => AsWrittenByte(crc, data[k - 1], MsbMask(Bits.BitWidth(init)), polynomial, reflectIn)
  }

  /** The final steps shared by both versions: reflect when `reflect_out` is set, XOR `xor_out`, mask. */
  function Finish(crc: bv32, width: bv8, xorOut: bv32, reflectOut: bool): bv32
    requires width <= 32
  {
    Output(if reflectOut then Bits.Reflected(crc) else crc, xorOut, CrcMask(width))
  }

  /** What `calculate_crc` returns as written. */
  function AsWrittenCrc(data: seq<bv8>, init: bv32, polynomial: bv32, xorOut: bv32,
                        reflectIn: bool, reflectOut: bool): Option<bv32>
    requires ValidInit(init)
  {
    match AsWrittenRegister(data, |data|, init, polynomial, reflectIn)
    case None => None
    case Some(crc) => Some(Finish(crc, Bits.BitWidth(init), xorOut, reflectOut))
  }

  /** `calculate_crc` as written: the byte loop, and inside it the loop of eight rounds. */
  method AsWrittenCalculateCrc(data: seq<bv8>, init: bv32, polynomial: bv32, xorOut: bv32,
                               reflectIn: bool, reflectOut: bool) returns (r: Option<bv32>)
    requires ValidInit(init)
    ensures r == AsWrittenCrc(data, init, polynomial, xorOut, reflectIn, reflectOut)
  {
    var crc := init;
    Bits.BitWidthZero(init);
    var msbMask := MsbMask(Bits.BitWidth(crc));
    var crcMask := CrcMask(Bits.BitWidth(crc));
    for k := 0 to |data|
      invariant AsWrittenRegister(data, k, init, polynomial, reflectIn) == Some(crc)
    {
      var b := InputByte(data[k], reflectIn);
      var w := Bits.BitWidth(crc);
      if w < 8 {
        assert AsWrittenRegister(data, |data|, init, polynomial, reflectIn) == None by {
          NoneStaysNone(data, k + 1, |data|, init, polynomial, reflectIn);
        }
        return None;
      }
      crc := Feed(crc, b, w - 8);
      ghost var fed := crc;
      for bit := 0 to 8
        invariant crc == Rounds(fed, msbMask, polynomial, bit)
      {
        crc := Round(crc, msbMask, polynomial);
      }
    }
    if reflectOut {
      crc := Bits.Reflection(crc);
    }
    r := Some(Output(crc, xorOut, crcMask));
  }

  /** Once a byte hits an undefined shift, the whole computation is undefined. */
  lemma {:induction false} NoneStaysNone(data: seq<bv8>, k: nat, n: nat, init: bv32, polynomial: bv32, reflectIn: bool)
    requires k <= n <= |data| && ValidInit(init)
    requires AsWrittenRegister(data, k, init, polynomial, reflectIn) == None
    ensures AsWrittenRegister(data, n, init, polynomial, reflectIn) == None
    decreases n - k
  {
    if k < n {
      NoneStaysNone(data, k + 1, n, init, polynomial, reflectIn);
    }
  }

  /** Helper of `MaskedFits`: the same fact stated on the operators. */
  lemma MaskedFitsWord(x: bv32, width: bv8)
    requires width <= 32
    ensures (x & ((1 << width) - 1)) & !((1 << width) - 1) == 0
  {
  }

  /** Masking with `crc_mask` leaves no bit at or above the width. */
  lemma MaskedFits(x: bv32, width: bv8)
    requires width <= 32
    ensures Bits.FitsIn(x & CrcMask(width), width)
  {
    MaskedFitsWord(x, width);
  }

  /** Helper of `OutputFits`: the same fact stated on the operators. */
  lemma OutputFitsWord(x: bv32, xorOut: bv32, width: bv8)
    requires width <= 32
    ensures ((x ^ xorOut) & ((1 << width) - 1)) & !((1 << width) - 1) == 0
  {
  }

  /** The output, masked with `crc_mask`, has no bit at or above the width. */
  lemma OutputFits(x: bv32, xorOut: bv32, width: bv8)
    requires width <= 32
    ensures Bits.FitsIn(Output(x, xorOut, CrcMask(width)), width)
  {
    OutputFitsWord(x, xorOut, width);
  }

  /** The result, when defined, has no bit at or above `bit_width(init)`. */
  lemma AsWrittenCrcMasked(data: seq<bv8>, init: bv32, polynomial: bv32, xorOut: bv32, reflectIn: bool, reflectOut: bool)
    requires ValidInit(init)
    ensures var r := AsWrittenCrc(data, init, polynomial, xorOut, reflectIn, reflectOut);
            r.Some? ==> Bits.FitsIn(r.value, Bits.BitWidth(init))
  {
    var reg := AsWrittenRegister(data, |data|, init, polynomial, reflectIn);
    if reg.Some? {
      OutputFits(if reflectOut then Bits.Reflected(reg.value) else reg.value, xorOut, Bits.BitWidth(init));
    }
  }

  // ---------------------------------------------------------------------
  // Corrected.

  /** What the corrected version needs: a register of 8 to 31 bits. */
  predicate CorrectedInit(init: bv32)
  {
    init != 0 && 8 <= Bits.BitWidth(init) < 32
  }

  /** A round that keeps the register within `width` bits. */
  function MaskedRound(crc: bv32, width: bv8, polynomial: bv32): bv32
    requires 1 <= width <= 32
  {
    Round(crc, MsbMask(width), polynomial) & CrcMask(width)
  }

  function MaskedRounds(crc: bv32, width: bv8, polynomial: bv32, n: nat): bv32
    requires 1 <= width <= 32
    decreases n
  {
    if n == 0 then crc else MaskedRound(MaskedRounds(crc, width, polynomial, n - 1), width, polynomial)
  }

  /** The corrected byte feed: XOR the byte in at the top byte of a `width`-bit register and keep it within the width. */
  function MaskedFeed(crc: bv32, b: bv8, width: bv8): bv32
    requires 8 <= width <= 32
  {
    Feed(crc, b, width - 8) & CrcMask(width)
  }

  /** One byte, corrected: XOR it in at the top byte of the register and run eight masked rounds. */
  function CorrectedByte(crc: bv32, b: bv8, width: bv8, polynomial: bv32, reflectIn: bool): bv32
    requires 8 <= width <= 32
  {
    MaskedRounds(MaskedFeed(crc, InputByte(b, reflectIn), width), width, polynomial, 8)
  }

  function CorrectedRegister(data: seq<bv8>, k: nat, init: bv32, polynomial: bv32, reflectIn: bool): bv32
    requires k <= |data| && CorrectedInit(init)
    decreases k
  {
    if k == 0 then init
    else CorrectedByte(CorrectedRegister(data, k - 1, init, polynomial, reflectIn), data[k - 1],
                       Bits.BitWidth(init), polynomial, reflectIn)
  }

  /** The CRC with the register kept within `bit_width(init)` bits. */
  function CorrectedCrc(data: seq<bv8>, init: bv32, polynomial: bv32, xorOut: bv32,
                        reflectIn: bool, reflectOut: bool): bv32
    requires CorrectedInit(init)
  {
    Finish(CorrectedRegister(data, |data|, init, polynomial, reflectIn), Bits.BitWidth(init), xorOut, reflectOut)
  }

  /** The corrected byte loop. */
  method CorrectedCalculateCrc(data: seq<bv8>, init: bv32, polynomial: bv32, xorOut: bv32,
                               reflectIn: bool, reflectOut: bool) returns (r: bv32)
    requires CorrectedInit(init)
    ensures r == CorrectedCrc(data, init, polynomial, xorOut, reflectIn, reflectOut)
    ensures Bits.FitsIn(r, Bits.BitWidth(init))
  {
    var width := Bits.BitWidth(init);
    var crcMask := CrcMask(width);
    var crc := init;
    for k := 0 to |data|
      invariant crc == CorrectedRegister(data, k, init, polynomial, reflectIn)
    {
      var b := InputByte(data[k], reflectIn);
      crc := MaskedFeed(crc, b, width);
      ghost var fed := crc;
      for bit := 0 to 8
        invariant crc == MaskedRounds(fed, width, polynomial, bit)
      {
        crc := MaskedRound(crc, width, polynomial);
      }
    }
    if reflectOut {
      crc := Bits.Reflection(crc);
    }
    r := Output(crc, xorOut, crcMask);
    OutputFits(crc, xorOut, width);
  }

  /** A masked round leaves the register within `width` bits. */
  lemma {:induction false} MaskedRoundsFit(crc: bv32, width: bv8, polynomial: bv32, n: nat)
    requires 1 <= width <= 32 && n >= 1
    ensures Bits.FitsIn(MaskedRounds(crc, width, polynomial, n), width)
  {
    MaskedFits(Round(MaskedRounds(crc, width, polynomial, n - 1), MsbMask(width), polynomial), width);
  }

  /**
    The corrected register never has a bit at or above the width, so every
    byte is XORed in at the register's top byte, `bit_width(init) - 8`.
   */
  lemma {:induction false} CorrectedRegisterFits(data: seq<bv8>, k: nat, init: bv32, polynomial: bv32, reflectIn: bool)
    requires k <= |data| && CorrectedInit(init)
    ensures Bits.FitsIn(CorrectedRegister(data, k, init, polynomial, reflectIn), Bits.BitWidth(init))
  {
    if k == 0 {
      Bits.BitWidthFits(init);
    } else {
      var prev := CorrectedRegister(data, k - 1, init, polynomial, reflectIn);
      var w := Bits.BitWidth(init);
      MaskedRoundsFit(MaskedFeed(prev, InputByte(data[k - 1], reflectIn), w), w, polynomial, 8);
    }
  }

  /**
    CRC-8 with polynomial 0x07 and init 0xFF over the bytes 0x31 0x32: after
    the first byte the register as written is 0xCC64, 16 bits wide, so the
    second byte is XORed in at bit 8 instead of bit 0, and the result is 0x3B
    where the CRC kept within 8 bits gives 0xA5.
   */
  lemma AsWrittenCrcMisplacesSecondByte()
    ensures AsWrittenCrc([0x31, 0x32], 0xFF, 0x07, 0, false, false) == Some(0x3B)
    ensures CorrectedCrc([0x31, 0x32], 0xFF, 0x07, 0, false, false) == 0xA5
  {
    var data: seq<bv8> := [0x31, 0x32];
    Bits.BitWidthIs(0xFF, 8);
    assert MsbMask(8) == 0x80;
    assert Feed(0xFF, 0x31, 0) == 0xCE;
    assert Rounds(0xCE, 0x80, 0x07, 8) == 0xCC64;
    assert AsWrittenRegister(data, 1, 0xFF, 0x07, false) == Some(0xCC64);
    Bits.BitWidthIs(0xCC64, 16);
    assert Feed(0xCC64, 0x32, 8) == 0xFE64;
    assert Rounds(0xFE64, 0x80, 0x07, 8) == 0xFE653B;
    assert AsWrittenRegister(data, 2, 0xFF, 0x07, false) == Some(0xFE653B);
    assert Output(0xFE653B, 0, CrcMask(8)) == 0x3B;
  }
}
