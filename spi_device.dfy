/**
  The SPI command bytes and write frame of spi_device.cpp. A register
  address is a byte; its command bytes clear (read) or set (write) the bit
  at `std::bit_width(address) - 1`, the highest bit set in the address.
  `write_bytes` sends one frame, the write command followed by the data; the
  frame is returned instead of transmitted, and whether `malloc` succeeds is a
  parameter.
 */
module SpiDevice {
  import opened Bits
  import opened Optional

  /** A byte fits in the low 8 bits of a word. */
  lemma ByteFits(b: bv8)
    ensures FitsIn(b as bv32, 8)
  {
    assert (b as bv32) & !((1 << 8) - 1) == 0;
  }

  /** `std::bit_width` of an address: at most 8, and 0 only for address 0. */
  function AddressWidth(address: bv8): (w: bv8)
    ensures w <= 8
    ensures w == 0 <==> address == 0
  {
    ByteFits(address);
    BitWidthLeast(address as bv32, 8);
    BitWidthZero(address as bv32);
    BitWidth(address as bv32)
  }

  /** Highest set bit of a nonzero address. */
  function TopPosition(address: bv8): (p: bv8)
    requires address != 0
    ensures p < 8 && ReadBit(address as bv32, p)
  {
    BitWidthTop(address as bv32);
    AddressWidth(address) - 1
  }

  /** A byte-sized word read back as a byte. */
  function Narrow(x: bv32): (b: bv8)
    requires FitsIn(x, 8)
    ensures b as bv32 == x
  {
    FitsInBelow(x, 8);
    x as bv8
  }

  /** `address_to_read_command`: `address & ~(1U << (bit_width(address) - 1U))`. */
  function AddressToReadCommand(address: bv8): bv8
    requires address != 0
  {
    ByteFits(address);
    WriteBitFits(address as bv32, false, TopPosition(address), 8);
    Narrow(WriteBit(address as bv32, false, TopPosition(address)))
  }

  /** `address_to_write_command`: `address | (1U << (bit_width(address) - 1U))`. */
  function AddressToWriteCommand(address: bv8): bv8
    requires address != 0
  {
    ByteFits(address);
    WriteBitFits(address as bv32, true, TopPosition(address), 8);
    Narrow(WriteBit(address as bv32, true, TopPosition(address)))
  }

  /** Clearing a set bit of a byte makes it smaller. */
  lemma ClearSetBitBelow(a: bv8, p: bv8)
    requires p < 8 && a & (1 << p) != 0
    ensures a & !(1 << p) < a
  {
  }

  /** The read command is the address with bit `p` cleared, as a byte operation. */
  lemma ReadCommandByte(address: bv8)
    requires address != 0
    ensures AddressToReadCommand(address) == address & !(1 << TopPosition(address))
  {
    ReadCommandWord(address);
    WidenClear(address, TopPosition(address));
  }

  /** Clearing bit `p` commutes with widening a byte to a word. */
  lemma WidenClear(a: bv8, p: bv8)
    requires p < 8
    ensures (a & !(1 << p)) as bv32 == (a as bv32) & !(1 << p)
  {
  }

  /** The highest set bit of the address, tested on the byte. */
  lemma TopBitOfByte(address: bv8)
    requires address != 0
    ensures address & (1 << TopPosition(address)) != 0
  {
    var p := TopPosition(address);
    assert (address as bv32) & (1 << p) != 0;
    assert ((address & (1 << p)) as bv32) == (address as bv32) & (1 << p);
  }

  /** The read command clears the address's highest set bit and keeps the others. */
  lemma ReadCommandBits(address: bv8, q: bv8)
    requires address != 0 && q < 32
    ensures ReadBit(AddressToReadCommand(address) as bv32, q)
        == (q != TopPosition(address) && ReadBit(address as bv32, q))
  {
    var p := TopPosition(address);
    ReadCommandWord(address);
    if q == p {
      ReadWrittenBit(address as bv32, false, p);
    } else {
      ReadOtherBit(address as bv32, false, p, q);
    }
  }

  /** The read command, widened to a word, is `write_bit(address, false, p)`. */
  lemma ReadCommandWord(address: bv8)
    requires address != 0
    ensures AddressToReadCommand(address) as bv32 == WriteBit(address as bv32, false, TopPosition(address))
  {
  }

  /** The read command is below the address. */
  lemma ReadCommandBelow(address: bv8)
    requires address != 0
    ensures AddressToReadCommand(address) < address
  {
    ReadCommandByte(address);
    TopBitOfByte(address);
    ClearSetBitBelow(address, TopPosition(address));
  }

  /** As written, the bit the write command sets is already set: the write command is the address. */
  lemma WriteCommandIsAddress(address: bv8)
    requires address != 0
    ensures AddressToWriteCommand(address) == address
  {
    SetWhenSet(address as bv32, TopPosition(address));
  }

  /** The two commands of one address differ, exactly in the address's highest set bit. */
  lemma CommandsDiffer(address: bv8)
    requires address != 0
    ensures AddressToReadCommand(address) < AddressToWriteCommand(address)
  {
    ReadCommandBelow(address);
    WriteCommandIsAddress(address);
  }

  /**
    `write_bytes` (pointer overload): with the buffer of `size + 1` bytes
    allocated, the frame holds the write command and then the data in order;
    when `malloc` fails nothing is sent.
   */
  method WriteBytes(address: bv8, data: seq<bv8>, allocationOk: bool) returns (frame: Option<seq<bv8>>)
    requires allocationOk ==> address != 0
    ensures !allocationOk ==> frame == None
    ensures allocationOk ==>
      frame.Some? && |frame.value| == |data| + 1
      && frame.value[0] == AddressToWriteCommand(address) && frame.value[1..] == data
  {
    if !allocationOk {
      return None;
    }
    var addressData := new bv8[|data| + 1];
    addressData[0] := AddressToWriteCommand(address);
    var i := 0;
    while i < |data|
      invariant 0 <= i <= |data|
      invariant addressData[0] == AddressToWriteCommand(address)
      invariant addressData[1..i + 1] == data[..i]
    {
      addressData[i + 1] := data[i];
      i := i + 1;
    }
    assert data[..i] == data;
    assert addressData[..][1..] == addressData[1..i + 1];
    return Some(addressData[..]);
  }
}
