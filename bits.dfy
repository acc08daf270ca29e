/**
  Single-bit and bit-field access, `std::bit_width` and bit reflection
  (utility.hpp), for the `std::uint32_t` instantiation of the `UInt`
  templates. Bit positions and field sizes are `std::uint8_t` in the C++ code
  and `bv8` here. The functions that take `UInt& data` in the C++ code return
  the new value of `data`.

  Facts about one bit speak through `Masked(x, q)`, the word `x & (1U << q)`
  that `read_bit` tests. Two facts, `ReadOtherBit` and `WriteBitsOutside`, are
  reached through private helpers (`...Word`, then `Masked...`): the solver
  proves the bit-vector identity cheaply only when it is written out on the
  operators, and carries it over to `read_bit` cheaply only through `Masked`.
 */
module Bits {

  /** Bit `q` of `x`, left in place: `x & (1U << q)`. */
  function Masked(x: bv32, q: bv8): bv32
    requires q < 32
  {
    x & (1 << q)
  }

  /** `read_bit`: the mask test `data & (1U << position)`. */
  predicate ReadBit(data: bv32, position: bv8)
    requires position < 32
  {
    Masked(data, position) != 0
  }

  /** `write_bit`: set with `|= 1U << position` or clear with `&= ~(1U << position)`. */
  function WriteBit(data: bv32, value: bool, position: bv8): bv32
    requires position < 32
  {
    if value then data | (1 << position) else data & !(1 << position)
  }

  /** `read_bit` after `write_bit` at the same position gives back the written value. */
  lemma ReadWrittenBit(data: bv32, value: bool, position: bv8)
    requires position < 32
    ensures ReadBit(WriteBit(data, value, position), position) == value
  {
  }

  /** Helper of `ReadOtherBit`: the same fact stated on the operators. */
  lemma WriteBitOtherWord(data: bv32, value: bool, position: bv8, q: bv8)
    requires position < 32 && q < 32 && q != position
    ensures WriteBit(data, value, position) & (1 << q) == data & (1 << q)
  {
  }

  /** Helper of `ReadOtherBit`: the same fact stated on `Masked`. */
  lemma MaskedOtherBit(data: bv32, value: bool, position: bv8, q: bv8)
    requires position < 32 && q < 32 && q != position
    ensures Masked(WriteBit(data, value, position), q) == Masked(data, q)
  {
    WriteBitOtherWord(data, value, position, q);
  }

  /** Every bit `q` other than `position` reads as before. */
  lemma ReadOtherBit(data: bv32, value: bool, position: bv8, q: bv8)
    requires position < 32 && q < 32 && q != position
    ensures ReadBit(WriteBit(data, value, position), q) == ReadBit(data, q)
  {
    MaskedOtherBit(data, value, position, q);
  }

  /** Bit `q` after `write_bit` at `position`: the written value there, the old bit elsewhere. */
  lemma WriteBitAt(data: bv32, value: bool, position: bv8, q: bv8)
    requires position < 32 && q < 32
    ensures ReadBit(WriteBit(data, value, position), q) == if q == position then value else ReadBit(data, q)
  {
    if q == position {
      ReadWrittenBit(data, value, position);
    } else {
      ReadOtherBit(data, value, position, q);
    }
  }

  /** Setting a bit that is already set changes nothing. */
  lemma SetWhenSet(data: bv32, position: bv8)
    requires position < 32 && Masked(data, position) != 0
    ensures WriteBit(data, true, position) == data
  {
  }

  /** Clearing a bit that is already clear changes nothing. */
  lemma ClearWhenClear(data: bv32, position: bv8)
    requires position < 32 && Masked(data, position) == 0
    ensures WriteBit(data, false, position) == data
  {
  }

  /** Writing back the bit just read leaves the word as it was. */
  lemma WriteReadBit(data: bv32, position: bv8)
    requires position < 32
    ensures WriteBit(data, ReadBit(data, position), position) == data
  {
    if ReadBit(data, position) {
      SetWhenSet(data, position);
    } else {
      ClearWhenClear(data, position);
    }
  }

  // ---------------------------------------------------------------------
  // Bit fields.

  /**
    The shifts of `write_bits`/`read_bits` are defined: `1U << size` needs
    `size < 32`, and the field's lowest bit `position - size + 1` must be a
    shift amount in `0 .. 31` (the `std::uint8_t` arithmetic is promoted to
    `int`, so a negative value would turn into a huge unsigned shift).
   */
  predicate ValidField(size: bv8, position: bv8)
  {
    size < 32 && position < 64 && size <= position + 1 && position + 1 - size < 32
  }

  /** The lowest bit of the field, `position - size + 1`. */
  function FieldLow(size: bv8, position: bv8): (low: bv8)
    requires ValidField(size, position)
    ensures low < 32
  {
    position - size + 1
  }

  /** `((1U << size) - 1U) << (position - size + 1U)`. */
  function FieldMask(size: bv8, position: bv8): bv32
    requires ValidField(size, position)
  {
    ((1 << size) - 1) << FieldLow(size, position)
  }

  /** `write_bits`: clear the field, then or in `(value << low) & mask`. */
  function WriteBits(data: bv32, value: bv32, size: bv8, position: bv8): bv32
    requires ValidField(size, position)
  {
    (data & !FieldMask(size, position)) | ((value << FieldLow(size, position)) & FieldMask(size, position))
  }

  /** `read_bits`: `(data & mask) >> low`. */
  function ReadBits(data: bv32, size: bv8, position: bv8): bv32
    requires ValidField(size, position)
  {
    (data & FieldMask(size, position)) >> FieldLow(size, position)
  }

  /** Bit `q` belongs to the field mask exactly when `low <= q <= position`. */
  lemma FieldMaskAt(size: bv8, position: bv8, q: bv8)
    requires ValidField(size, position) && q < 32
    ensures (FieldMask(size, position) & (1 << q) != 0) == (FieldLow(size, position) <= q <= position)
  {
  }

  /** Outside the mask, `write_bits` leaves `data` as it was. */
  lemma WriteBitsKeepsOthers(data: bv32, value: bv32, size: bv8, position: bv8)
    requires ValidField(size, position)
    ensures WriteBits(data, value, size, position) & !FieldMask(size, position) == data & !FieldMask(size, position)
  {
  }

  /** Reading a field just written gives the written value cut to the bits of the field that fit in the word. */
  lemma ReadWrittenBits(data: bv32, value: bv32, size: bv8, position: bv8)
    requires ValidField(size, position)
    ensures ReadBits(WriteBits(data, value, size, position), size, position)
         == value & (FieldMask(size, position) >> FieldLow(size, position))
  {
  }

  /** When the whole field fits (`position < 32`), that is `value` modulo `2^size`. */
  lemma ReadWrittenBitsFit(data: bv32, value: bv32, size: bv8, position: bv8)
    requires ValidField(size, position) && position < 32
    ensures ReadBits(WriteBits(data, value, size, position), size, position) == value & ((1 << size) - 1)
  {
  }

  /** Writing back the field just read leaves the word as it was. */
  lemma WriteReadBits(data: bv32, size: bv8, position: bv8)
    requires ValidField(size, position)
    ensures WriteBits(data, ReadBits(data, size, position), size, position) == data
  {
  }

  /** Helper of `WriteBitsOutside`: the same fact stated on the operators. */
  lemma WriteBitsOutsideWord(data: bv32, value: bv32, size: bv8, position: bv8, q: bv8)
    requires ValidField(size, position) && q < 32
    requires q < FieldLow(size, position) || position < q
    ensures WriteBits(data, value, size, position) & (1 << q) == data & (1 << q)
  {
  }

  /** Helper of `WriteBitsOutside`: the same fact stated on `Masked`. */
  lemma MaskedOutsideField(data: bv32, value: bv32, size: bv8, position: bv8, q: bv8)
    requires ValidField(size, position) && q < 32
    requires q < FieldLow(size, position) || position < q
    ensures Masked(WriteBits(data, value, size, position), q) == Masked(data, q)
  {
    WriteBitsOutsideWord(data, value, size, position, q);
  }

  /** Every bit outside `low .. position` reads as before. */
  lemma WriteBitsOutside(data: bv32, value: bv32, size: bv8, position: bv8, q: bv8)
    requires ValidField(size, position) && q < 32
    requires q < FieldLow(size, position) || position < q
    ensures ReadBit(WriteBits(data, value, size, position), q) == ReadBit(data, q)
  {
    MaskedOutsideField(data, value, size, position, q);
  }

  // ---------------------------------------------------------------------
  // std::bit_width.

  /** The bits below `k`, `2^k - 1` (all ones for `k == 32`). */
  function LowMask(k: bv8): bv32
    requires k <= 32
  {
    (1 << k) - 1
  }

  /** No bit of `x` at or above `k` is set. */
  predicate FitsIn(x: bv32, k: bv8)
    requires k <= 32
  {
    x & !LowMask(k) == 0
  }

  lemma FitsInAll(x: bv32)
    ensures FitsIn(x, 32)
  {
  }

  /** A word that fits in `k` bits and has bit `k - 1` clear fits in `k - 1` bits. */
  lemma FitsInStep(x: bv32, k: bv8)
    requires 1 <= k <= 32 && FitsIn(x, k) && !ReadBit(x, k - 1)
    ensures FitsIn(x, k - 1)
  {
    assert x & !((1 << k) - 1) == 0 && x & (1 << (k - 1)) == 0;
    assert x & !((1 << (k - 1)) - 1) == 0;
  }

  /** A word that fits in `k` bits has every bit from `k` up clear. */
  lemma FitsInHigh(x: bv32, k: bv8, q: bv8)
    requires k <= q < 32 && FitsIn(x, k)
    ensures !ReadBit(x, q)
  {
    assert x & (1 << q) == 0;
  }

  /** Only 0 fits in no bits. */
  lemma FitsInNone(x: bv32)
    requires FitsIn(x, 0)
    ensures x == 0
  {
  }

  /** 0 has no bit set. */
  lemma ZeroBit(q: bv8)
    requires q < 32
    ensures !ReadBit(0, q)
  {
  }

  /** One plus the highest set bit of `x` below `k`; 0 when there is none. */
  function TopBit(x: bv32, k: bv8): (w: bv8)
    requires k <= 32
    ensures w <= k
    decreases k
  {
    if k == 0 then 0
    else if ReadBit(x, k - 1) then k
    else TopBit(x, k - 1)
  }

  /** If `x` fits in `k` bits, it fits in `TopBit(x, k)` bits. */
  lemma {:induction false} TopBitFits(x: bv32, k: bv8)
    requires k <= 32 && FitsIn(x, k)
    ensures FitsIn(x, TopBit(x, k))
    decreases k
  {
    if k != 0 && !ReadBit(x, k - 1) {
      FitsInStep(x, k);
      TopBitFits(x, k - 1);
    }
  }

  /** Bit `TopBit(x, k) - 1` is set, unless `TopBit(x, k)` is 0. */
  lemma {:induction false} TopBitSet(x: bv32, k: bv8)
    requires k <= 32
    ensures TopBit(x, k) != 0 ==> ReadBit(x, TopBit(x, k) - 1)
    decreases k
  {
    if k != 0 && !ReadBit(x, k - 1) {
      TopBitSet(x, k - 1);
    }
  }

  /** `std::bit_width`: one plus the position of the highest set bit, 0 for 0. */
  function BitWidth(x: bv32): (w: bv8)
    ensures w <= 32
  {
    TopBit(x, 32)
  }

  /** No bit at or above the bit width is set. */
  lemma BitWidthFits(x: bv32)
    ensures FitsIn(x, BitWidth(x))
  {
    FitsInAll(x);
    TopBitFits(x, 32);
  }

  /** For a nonzero word, bit `bit_width(x) - 1` is set. */
  lemma BitWidthTop(x: bv32)
    requires x != 0
    ensures BitWidth(x) != 0 && ReadBit(x, BitWidth(x) - 1)
  {
    BitWidthFits(x);
    TopBitSet(x, 32);
    if BitWidth(x) == 0 {
      FitsInNone(x);
    }
  }

  /** The bit width is 0 exactly for 0. */
  lemma BitWidthZero(x: bv32)
    ensures (BitWidth(x) == 0) == (x == 0)
  {
    if BitWidth(x) == 0 {
      BitWidthFits(x);
      FitsInNone(x);
    } else if x == 0 {
      TopBitSet(x, 32);
      ZeroBit(BitWidth(x) - 1);
    }
  }

  /** The bit width is the least width the word fits in. */
  lemma BitWidthLeast(x: bv32, k: bv8)
    requires k <= 32 && FitsIn(x, k)
    ensures BitWidth(x) <= k
  {
    var w := BitWidth(x);
    if k < w {
      TopBitSet(x, 32);
      FitsInHigh(x, k, w - 1);
    }
  }

  // ---------------------------------------------------------------------
  // reflection.

  lemma ZeroFits(k: bv8)
    requires k <= 32
    ensures FitsIn(0, k)
  {
  }

  /** Writing a bit below `k` into a word that fits in `k` bits keeps it within `k` bits. */
  lemma WriteBitFits(data: bv32, value: bool, position: bv8, k: bv8)
    requires position < k <= 32 && FitsIn(data, k)
    ensures FitsIn(WriteBit(data, value, position), k)
  {
    var m: bv32 := 1 << position;
    if value {
      assert (data | m) & !((1 << k) - 1) == 0;
    } else {
      assert (data & !m) & !((1 << k) - 1) == 0;
    }
  }

  /**
    The word `reflection` holds after the first `i` rounds of the loop of
    `reflection` for a word of bit width `w`: round `j` writes bit `j` of `x`
    at position `w - 1 - j`.
   */
  function ReflectPrefix(x: bv32, w: bv8, i: bv8): bv32
    requires i <= w <= 32
    decreases i
  {
    if i == 0 then 0
    else WriteBit(ReflectPrefix(x, w, i - 1), ReadBit(x, i - 1), w - 1 - (i - 1))
  }

  /** After `i` rounds, bits `w - i .. w - 1` mirror bits `i - 1 .. 0` of `x`, and no other bit is set. */
  lemma {:induction false} ReflectPrefixAt(x: bv32, w: bv8, i: bv8, q: bv8)
    requires i <= w <= 32 && q < 32
    ensures ReadBit(ReflectPrefix(x, w, i), q) == (w - i <= q < w && ReadBit(x, w - 1 - q))
    decreases i
  {
    if i == 0 {
      ZeroBit(q);
    } else {
      WriteBitAt(ReflectPrefix(x, w, i - 1), ReadBit(x, i - 1), w - 1 - (i - 1), q);
      ReflectPrefixAt(x, w, i - 1, q);
    }
  }

  /** Every round writes below `w`, so the word never has a bit at or above `w`. */
  lemma {:induction false} ReflectPrefixFits(x: bv32, w: bv8, i: bv8)
    requires i <= w <= 32
    ensures FitsIn(ReflectPrefix(x, w, i), w)
    decreases i
  {
    if i == 0 {
      ZeroFits(w);
    } else {
      ReflectPrefixFits(x, w, i - 1);
      WriteBitFits(ReflectPrefix(x, w, i - 1), ReadBit(x, i - 1), w - 1 - (i - 1), w);
    }
  }

  /** What `reflection(x)` returns: all `bit_width(x)` rounds. */
  function Reflected(x: bv32): bv32
  {
    ReflectPrefix(x, BitWidth(x), BitWidth(x))
  }

  /** Bit `q` of `reflection(x)` is bit `bit_width(x) - 1 - q` of `x` for `q < bit_width(x)`, and clear above. */
  lemma ReflectedAt(x: bv32, q: bv8)
    requires q < 32
    ensures ReadBit(Reflected(x), q) == (q < BitWidth(x) && ReadBit(x, BitWidth(x) - 1 - q))
  {
    ReflectPrefixAt(x, BitWidth(x), BitWidth(x), q);
  }

  /** `reflection(x)` has no bit at or above `bit_width(x)`. */
  lemma ReflectedFits(x: bv32)
    ensures FitsIn(Reflected(x), BitWidth(x))
  {
    ReflectPrefixFits(x, BitWidth(x), BitWidth(x));
  }

  /** A word that fits in `k < 32` bits is below `2^k`. */
  lemma FitsInBelow(x: bv32, k: bv8)
    requires k < 32 && FitsIn(x, k)
    ensures x < 1 << k
  {
  }

  /** `reflection(x)` is below `2^bit_width(x)`. */
  lemma ReflectedBelow(x: bv32)
    requires BitWidth(x) < 32
    ensures Reflected(x) < 1 << BitWidth(x)
  {
    ReflectedFits(x);
    FitsInBelow(Reflected(x), BitWidth(x));
  }

  /** `reflection`: the loop over `i < bit_width(data)`, writing bit `i` at `bit_width(data) - 1 - i`. */
  method Reflection(data: bv32) returns (reflection: bv32)
    ensures reflection == Reflected(data)
  {
    reflection := 0;
    var i: bv8 := 0;
    while i < BitWidth(data)
      invariant i <= BitWidth(data)
      invariant reflection == ReflectPrefix(data, BitWidth(data), i)
    {
      reflection := WriteBit(reflection, ReadBit(data, i), BitWidth(data) - 1 - i);
      i := i + 1;
    }
  }

  /** A word whose bit `k - 1` is set and which fits in `k` bits has bit width `k`. */
  lemma BitWidthIs(x: bv32, k: bv8)
    requires 1 <= k <= 32 && ReadBit(x, k - 1) && FitsIn(x, k)
    ensures BitWidth(x) == k
  {
    BitWidthLeast(x, k);
    if BitWidth(x) < k {
      BitWidthFits(x);
      FitsInHigh(x, BitWidth(x), k - 1);
    }
  }
}
