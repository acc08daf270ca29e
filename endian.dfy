/**
  Byte-order conversions of utility.hpp: one 16-bit word or 32-bit dword to
  and from its big- or little-endian bytes, and the array converters that
  apply them element by element. `std::uint8_t`, `std::uint16_t` and
  `std::uint32_t` are `bv8`, `bv16` and `bv32`; a `std::array` of fixed size
  is a sequence whose length the caller fixes. The C++ code shifts bytes
  promoted to `int`; those shifts are at most 24 bits and are modelled on the
  unsigned result type, which C++20 defines to give the same bits.

  The dword array converters as written step through the bytes with `2 * i`
  where four bytes make a dword; `AsWritten...` members model that code and
  the others step with `4 * i`.
 */
module Endian {

  /** `std::endian`: the array converters treat every value but `little` as big-endian. */
  datatype Endianness = Little | Big

  /** `static_cast<std::uint8_t>` of a word: its low byte. */
  function LowByte(word: bv16): bv8
  {
    (word & 0xFF) as bv8
  }

  /** `static_cast<std::uint8_t>` of a dword: its low byte. */
  function LowByteOf(dword: bv32): bv8
  {
    (dword & 0xFF) as bv8
  }

  // ---------------------------------------------------------------------
  // Single words and dwords.

  /** `big_endian_bytes_to_word`: `bytes[0]` is the high byte. */
  function BigEndianBytesToWord(bytes: seq<bv8>): bv16
    requires |bytes| == 2
  {
    (bytes[0] as bv16 << 8) | bytes[1] as bv16
  }

  /** `little_endian_bytes_to_word`: `bytes[0]` is the low byte. */
  function LittleEndianBytesToWord(bytes: seq<bv8>): bv16
    requires |bytes| == 2
  {
    bytes[0] as bv16 | (bytes[1] as bv16 << 8)
  }

  /** `word_to_big_endian_bytes`. */
  function WordToBigEndianBytes(word: bv16): (bytes: seq<bv8>)
    ensures |bytes| == 2
  {
    [LowByte(word >> 8), LowByte(word)]
  }

  /** `word_to_little_endian_bytes`. */
  function WordToLittleEndianBytes(word: bv16): (bytes: seq<bv8>)
    ensures |bytes| == 2
  {
    [LowByte(word), LowByte(word >> 8)]
  }

  /** `big_endian_bytes_to_dword`: `bytes[0]` is the most significant byte. */
  function BigEndianBytesToDword(bytes: seq<bv8>): bv32
    requires |bytes| == 4
  {
    (bytes[0] as bv32 << 24) | (bytes[1] as bv32 << 16) | (bytes[2] as bv32 << 8) | bytes[3] as bv32
  }

  /** `little_endian_bytes_to_dword`: `bytes[0]` is the least significant byte. */
  function LittleEndianBytesToDword(bytes: seq<bv8>): bv32
    requires |bytes| == 4
  {
    bytes[0] as bv32 | (bytes[1] as bv32 << 8) | (bytes[2] as bv32 << 16) | (bytes[3] as bv32 << 24)
  }

  /** `dword_to_big_endian_bytes`. */
  function DwordToBigEndianBytes(dword: bv32): (bytes: seq<bv8>)
    ensures |bytes| == 4
  {
    [LowByteOf(dword >> 24), LowByteOf(dword >> 16), LowByteOf(dword >> 8), LowByteOf(dword)]
  }

  /** `dword_to_little_endian_bytes`. */
  function DwordToLittleEndianBytes(dword: bv32): (bytes: seq<bv8>)
    ensures |bytes| == 4
  {
    [LowByteOf(dword), LowByteOf(dword >> 8), LowByteOf(dword >> 16), LowByteOf(dword >> 24)]
  }

  /** A word survives the trip to bytes and back, in either byte order. */
  lemma WordRoundTrip(word: bv16)
    ensures BigEndianBytesToWord(WordToBigEndianBytes(word)) == word
    ensures LittleEndianBytesToWord(WordToLittleEndianBytes(word)) == word
  {
  }

  /** Two bytes survive the trip to a word and back, in either byte order. */
  lemma WordBytesRoundTrip(bytes: seq<bv8>)
    requires |bytes| == 2
    ensures WordToBigEndianBytes(BigEndianBytesToWord(bytes)) == bytes
    ensures WordToLittleEndianBytes(LittleEndianBytesToWord(bytes)) == bytes
  {
  }

  /** A dword survives the trip to bytes and back, in either byte order. */
  lemma DwordRoundTrip(dword: bv32)
    ensures BigEndianBytesToDword(DwordToBigEndianBytes(dword)) == dword
    ensures LittleEndianBytesToDword(DwordToLittleEndianBytes(dword)) == dword
  {
  }

  /** Four bytes survive the trip to a dword and back, in either byte order. */
  lemma DwordBytesRoundTrip(bytes: seq<bv8>)
    requires |bytes| == 4
    ensures DwordToBigEndianBytes(BigEndianBytesToDword(bytes)) == bytes
    ensures DwordToLittleEndianBytes(LittleEndianBytesToDword(bytes)) == bytes
  {
  }

  /** The two byte orders are each other's reverse. */
  lemma ByteOrdersMirror(word: bv16, dword: bv32)
    ensures WordToLittleEndianBytes(word) == [WordToBigEndianBytes(word)[1], WordToBigEndianBytes(word)[0]]
    ensures var b := DwordToBigEndianBytes(dword);
            DwordToLittleEndianBytes(dword) == [b[3], b[2], b[1], b[0]]
  {
  }

  // ---------------------------------------------------------------------
  // Arrays of words.

  /** The word of a pair of bytes, in the order the converters choose for `endian`. */
  function ToWord(bytes: seq<bv8>, endian: Endianness): bv16
    requires |bytes| == 2
  {
    if endian == Little then LittleEndianBytesToWord(bytes) else BigEndianBytesToWord(bytes)
  }

  /** The bytes of a word, in the order the converters choose for `endian`. */
  function FromWord(word: bv16, endian: Endianness): (bytes: seq<bv8>)
    ensures |bytes| == 2
  {
    if endian == Little then WordToLittleEndianBytes(word) else WordToBigEndianBytes(word)
  }

  /** What `bytes_to_words` returns: word `i` is made of bytes `2i` and `2i + 1`. */
  function WordsOf(bytes: seq<bv8>, endian: Endianness): (words: seq<bv16>)
    requires |bytes| % 2 == 0
    ensures |words| == |bytes| / 2
  {
    seq(|bytes| / 2, i requires 0 <= i < |bytes| / 2 => ToWord(bytes[2 * i .. 2 * i + 2], endian))
  }

  /** What `words_to_bytes` returns: bytes `2i` and `2i + 1` are the bytes of word `i`. */
  function BytesOfWords(words: seq<bv16>, endian: Endianness): (bytes: seq<bv8>)
    ensures |bytes| == 2 * |words|
  {
    seq(2 * |words|, k requires 0 <= k < 2 * |words| => FromWord(words[k / 2], endian)[k % 2])
  }

  /** A word survives `FromWord` then `ToWord`. */
  lemma ToWordFromWord(word: bv16, endian: Endianness)
    ensures ToWord(FromWord(word, endian), endian) == word
  {
    WordRoundTrip(word);
  }

  /** Two bytes survive `ToWord` then `FromWord`. */
  lemma FromWordToWord(bytes: seq<bv8>, endian: Endianness)
    requires |bytes| == 2
    ensures FromWord(ToWord(bytes, endian), endian) == bytes
  {
    WordBytesRoundTrip(bytes);
  }

  /** An array of words survives the trip to bytes and back, in either byte order. */
  lemma WordsRoundTrip(words: seq<bv16>, endian: Endianness)
    ensures WordsOf(BytesOfWords(words, endian), endian) == words
  {
    var bytes := BytesOfWords(words, endian);
    assert |WordsOf(bytes, endian)| == |words|;
    forall i | 0 <= i < |words|
      ensures WordsOf(bytes, endian)[i] == words[i]
    {
      WordsRoundTripAt(words, endian, i);
    }
  }

  /** Word `i` read back from `BytesOfWords` is word `i`. */
  lemma WordsRoundTripAt(words: seq<bv16>, endian: Endianness, i: nat)
    requires i < |words|
    ensures 2 * i + 2 <= |BytesOfWords(words, endian)|
    ensures ToWord(BytesOfWords(words, endian)[2 * i .. 2 * i + 2], endian) == words[i]
  {
    WordSlice(words, endian, i);
    ToWordFromWord(words[i], endian);
  }

  /** Bytes `2i` and `2i + 1` of `BytesOfWords` are the bytes of word `i`. */
  lemma WordSlice(words: seq<bv16>, endian: Endianness, i: nat)
    requires i < |words|
    ensures BytesOfWords(words, endian)[2 * i .. 2 * i + 2] == FromWord(words[i], endian)
  {
    var bytes := BytesOfWords(words, endian);
    forall k | 0 <= k < 2
      ensures bytes[2 * i + k] == FromWord(words[i], endian)[k]
    {
      assert (2 * i + k) / 2 == i && (2 * i + k) % 2 == k;
    }
  }

  /** An even number of bytes survives the trip to words and back, in either byte order. */
  lemma WordBytesArrayRoundTrip(bytes: seq<bv8>, endian: Endianness)
    requires |bytes| % 2 == 0
    ensures BytesOfWords(WordsOf(bytes, endian), endian) == bytes
  {
    var words := WordsOf(bytes, endian);
    forall k | 0 <= k < |bytes|
      ensures BytesOfWords(words, endian)[k] == bytes[k]
    {
      var i := k / 2;
      var pair := bytes[2 * i .. 2 * i + 2];
      assert words[i] == ToWord(pair, endian);
      FromWordToWord(pair, endian);
      assert k % 2 == k - 2 * i && pair[k - 2 * i] == bytes[k];
    }
  }

  /** `big_endian_bytes_to_words`. */
  method BigEndianBytesToWords(bytes: seq<bv8>) returns (words: seq<bv16>)
    requires |bytes| % 2 == 0
    ensures words == WordsOf(bytes, Big)
  {
    words := seq(|bytes| / 2, _ => 0);
    for i := 0 to |words|
      invariant |words| == |bytes| / 2
      invariant forall j :: 0 <= j < i ==> words[j] == WordsOf(bytes, Big)[j]
    {
      words := words[i := (bytes[2 * i] as bv16 << 8) | bytes[2 * i + 1] as bv16];
    }
  }

  /** `little_endian_bytes_endian_to_words`. */
  method LittleEndianBytesToWords(bytes: seq<bv8>) returns (words: seq<bv16>)
    requires |bytes| % 2 == 0
    ensures words == WordsOf(bytes, Little)
  {
    words := seq(|bytes| / 2, _ => 0);
    for i := 0 to |words|
      invariant |words| == |bytes| / 2
      invariant forall j :: 0 <= j < i ==> words[j] == WordsOf(bytes, Little)[j]
    {
      words := words[i := bytes[2 * i] as bv16 | (bytes[2 * i + 1] as bv16 << 8)];
    }
  }

  /** `bytes_to_words`: little-endian for `std::endian::little`, big-endian otherwise. */
  method BytesToWords(bytes: seq<bv8>, endian: Endianness) returns (words: seq<bv16>)
    requires |bytes| % 2 == 0
    ensures words == WordsOf(bytes, endian)
  {
    if endian == Little {
      words := LittleEndianBytesToWords(bytes);
    } else {
      words := BigEndianBytesToWords(bytes);
    }
  }

  /** `words_to_big_endian_bytes`. */
  method WordsToBigEndianBytes(words: seq<bv16>) returns (bytes: seq<bv8>)
    ensures bytes == BytesOfWords(words, Big)
  {
    bytes := seq(2 * |words|, _ => 0);
    for i := 0 to |words|
      invariant |bytes| == 2 * |words|
      invariant forall k :: 0 <= k < 2 * i ==> bytes[k] == BytesOfWords(words, Big)[k]
    {
      bytes := bytes[2 * i := LowByte(words[i] >> 8)];
      bytes := bytes[2 * i + 1 := LowByte(words[i])];
    }
  }

  /** `words_to_little_endian_bytes`. */
  method WordsToLittleEndianBytes(words: seq<bv16>) returns (bytes: seq<bv8>)
    ensures bytes == BytesOfWords(words, Little)
  {
    bytes := seq(2 * |words|, _ => 0);
    for i := 0 to |words|
      invariant |bytes| == 2 * |words|
      invariant forall k :: 0 <= k < 2 * i ==> bytes[k] == BytesOfWords(words, Little)[k]
    {
      bytes := bytes[2 * i := LowByte(words[i])];
      bytes := bytes[2 * i + 1 := LowByte(words[i] >> 8)];
    }
  }

  /** `words_to_bytes`: little-endian for `std::endian::little`, big-endian otherwise. */
  method WordsToBytes(words: seq<bv16>, endian: Endianness) returns (bytes: seq<bv8>)
    ensures bytes == BytesOfWords(words, endian)
  {
    if endian == Little {
      bytes := WordsToLittleEndianBytes(words);
    } else {
      bytes := WordsToBigEndianBytes(words);
    }
  }

  // ---------------------------------------------------------------------
  // Arrays of dwords.

  /** The dword of four bytes, in the order the converters choose for `endian`. */
  function ToDword(bytes: seq<bv8>, endian: Endianness): bv32
    requires |bytes| == 4
  {
    if endian == Little then LittleEndianBytesToDword(bytes) else BigEndianBytesToDword(bytes)
  }

  /** The bytes of a dword, in the order the converters choose for `endian`. */
  function FromDword(dword: bv32, endian: Endianness): (bytes: seq<bv8>)
    ensures |bytes| == 4
  {
    if endian == Little then DwordToLittleEndianBytes(dword) else DwordToBigEndianBytes(dword)
  }

  /** `bytes` with the four bytes of `dword` written from index `at` on. */
  function WriteDword(bytes: seq<bv8>, at: nat, dword: bv32, endian: Endianness): (r: seq<bv8>)
    requires at + 4 <= |bytes|
    ensures |r| == |bytes|
  {
    var b := FromDword(dword, endian);
    bytes[at := b[0]][at + 1 := b[1]][at + 2 := b[2]][at + 3 := b[3]]
  }

  /** What `bytes_to_dwords` as written returns: dword `i` is read from bytes `2i .. 2i + 3`. */
  function AsWrittenDwordsOf(bytes: seq<bv8>, endian: Endianness): (dwords: seq<bv32>)
    requires |bytes| % 4 == 0
    ensures |dwords| == |bytes| / 4
  {
    seq(|bytes| / 4, i requires 0 <= i < |bytes| / 4 => ToDword(bytes[2 * i .. 2 * i + 4], endian))
  }

  /**
    The bytes `dwords_to_bytes` as written holds after its first `i` rounds:
    round `j` writes the four bytes of dword `j` from index `2j` on, over the
    last two bytes of round `j - 1`.
   */
  function AsWrittenBytesPrefix(dwords: seq<bv32>, endian: Endianness, i: nat): (bytes: seq<bv8>)
    requires i <= |dwords|
    ensures |bytes| == 4 * |dwords|
  {
    if i == 0 then seq(4 * |dwords|, _ => 0)
    else WriteDword(AsWrittenBytesPrefix(dwords, endian, i - 1), 2 * (i - 1), dwords[i - 1], endian)
  }

  /** What `dwords_to_bytes` as written returns. */
  function AsWrittenBytesOfDwords(dwords: seq<bv32>, endian: Endianness): (bytes: seq<bv8>)
    ensures |bytes| == 4 * |dwords|
  {
    AsWrittenBytesPrefix(dwords, endian, |dwords|)
  }

  /** `big_endian_bytes_to_dwords` as written, indexing `bytes[2 * i]`. */
  method AsWrittenBigEndianBytesToDwords(bytes: seq<bv8>) returns (dwords: seq<bv32>)
    requires |bytes| % 4 == 0
    ensures dwords == AsWrittenDwordsOf(bytes, Big)
  {
    dwords := seq(|bytes| / 4, _ => 0);
    for i := 0 to |dwords|
      invariant |dwords| == |bytes| / 4
      invariant forall j :: 0 <= j < i ==> dwords[j] == AsWrittenDwordsOf(bytes, Big)[j]
    {
      dwords := dwords[i := (bytes[2 * i] as bv32 << 24) | (bytes[2 * i + 1] as bv32 << 16)
                            | (bytes[2 * i + 2] as bv32 << 8) | bytes[2 * i + 3] as bv32];
    }
  }

  /** `little_endian_bytes_endian_to_dwords` as written, indexing `bytes[2 * i]`. */
  method AsWrittenLittleEndianBytesToDwords(bytes: seq<bv8>) returns (dwords: seq<bv32>)
    requires |bytes| % 4 == 0
    ensures dwords == AsWrittenDwordsOf(bytes, Little)
  {
    dwords := seq(|bytes| / 4, _ => 0);
    for i := 0 to |dwords|
      invariant |dwords| == |bytes| / 4
      invariant forall j :: 0 <= j < i ==> dwords[j] == AsWrittenDwordsOf(bytes, Little)[j]
    {
      dwords := dwords[i := bytes[2 * i] as bv32 | (bytes[2 * i + 1] as bv32 << 8)
                            | (bytes[2 * i + 2] as bv32 << 16) | (bytes[2 * i + 3] as bv32 << 24)];
    }
  }

  /** `bytes_to_dwords` as written. */
  method AsWrittenBytesToDwords(bytes: seq<bv8>, endian: Endianness) returns (dwords: seq<bv32>)
    requires |bytes| % 4 == 0
    ensures dwords == AsWrittenDwordsOf(bytes, endian)
  {
    if endian == Little {
      dwords := AsWrittenLittleEndianBytesToDwords(bytes);
    } else {
      dwords := AsWrittenBigEndianBytesToDwords(bytes);
    }
  }

  /** `dwords_to_big_endian_bytes` as written, writing from `bytes[2 * i]`. */
  method AsWrittenDwordsToBigEndianBytes(dwords: seq<bv32>) returns (bytes: seq<bv8>)
    ensures bytes == AsWrittenBytesOfDwords(dwords, Big)
  {
    bytes := seq(4 * |dwords|, _ => 0);
    for i := 0 to |dwords|
      invariant bytes == AsWrittenBytesPrefix(dwords, Big, i)
    {
      bytes := bytes[2 * i := LowByteOf(dwords[i] >> 24)];
      bytes := bytes[2 * i + 1 := LowByteOf(dwords[i] >> 16)];
      bytes := bytes[2 * i + 2 := LowByteOf(dwords[i] >> 8)];
      bytes := bytes[2 * i + 3 := LowByteOf(dwords[i])];
    }
  }

  /** `dwords_to_little_endian_bytes_endian` as written, writing from `bytes[2 * i]`. */
  method AsWrittenDwordsToLittleEndianBytes(dwords: seq<bv32>) returns (bytes: seq<bv8>)
    ensures bytes == AsWrittenBytesOfDwords(dwords, Little)
  {
    bytes := seq(4 * |dwords|, _ => 0);
    for i := 0 to |dwords|
      invariant bytes == AsWrittenBytesPrefix(dwords, Little, i)
    {
      bytes := bytes[2 * i := LowByteOf(dwords[i])];
      bytes := bytes[2 * i + 1 := LowByteOf(dwords[i] >> 8)];
      bytes := bytes[2 * i + 2 := LowByteOf(dwords[i] >> 16)];
      bytes := bytes[2 * i + 3 := LowByteOf(dwords[i] >> 24)];
    }
  }

  /** `dwords_to_bytes` as written. */
  method AsWrittenDwordsToBytes(dwords: seq<bv32>, endian: Endianness) returns (bytes: seq<bv8>)
    ensures bytes == AsWrittenBytesOfDwords(dwords, endian)
  {
    if endian == Little {
      bytes := AsWrittenDwordsToLittleEndianBytes(dwords);
    } else {
      bytes := AsWrittenDwordsToBigEndianBytes(dwords);
    }
  }

  /**
    As written, two dwords do not survive the trip to bytes and back: the
    second dword's bytes overwrite the last two of the first, and the first
    dword read back is `0x01020506`, not `0x01020304`.
   */
  lemma AsWrittenDwordsLose()
    ensures var dwords: seq<bv32> := [0x01020304, 0x05060708];
            AsWrittenDwordsOf(AsWrittenBytesOfDwords(dwords, Big), Big)[0] == 0x01020506
  {
    var dwords: seq<bv32> := [0x01020304, 0x05060708];
    var first := WriteDword(seq(8, _ => 0), 0, dwords[0], Big);
    assert first == [1, 2, 3, 4, 0, 0, 0, 0];
    var second := WriteDword(first, 2, dwords[1], Big);
    assert second == [1, 2, 5, 6, 7, 8, 0, 0];
    assert AsWrittenBytesOfDwords(dwords, Big) == second;
    assert second[0 .. 4] == [1, 2, 5, 6];
  }

  /** What `bytes_to_dwords` returns with four bytes per dword: dword `i` is bytes `4i .. 4i + 3`. */
  function DwordsOf(bytes: seq<bv8>, endian: Endianness): (dwords: seq<bv32>)
    requires |bytes| % 4 == 0
    ensures |dwords| == |bytes| / 4
  {
    seq(|bytes| / 4, i requires 0 <= i < |bytes| / 4 => ToDword(bytes[4 * i .. 4 * i + 4], endian))
  }

  /** What `dwords_to_bytes` returns with four bytes per dword: bytes `4i .. 4i + 3` are the bytes of dword `i`. */
  function BytesOfDwords(dwords: seq<bv32>, endian: Endianness): (bytes: seq<bv8>)
    ensures |bytes| == 4 * |dwords|
  {
    seq(4 * |dwords|, k requires 0 <= k < 4 * |dwords| => FromDword(dwords[k / 4], endian)[k % 4])
  }

  /** With four bytes per dword, an array of dwords survives the trip to bytes and back. */
  lemma DwordsRoundTrip(dwords: seq<bv32>, endian: Endianness)
    ensures DwordsOf(BytesOfDwords(dwords, endian), endian) == dwords
  {
    var bytes := BytesOfDwords(dwords, endian);
    assert |DwordsOf(bytes, endian)| == |dwords|;
    forall i | 0 <= i < |dwords|
      ensures DwordsOf(bytes, endian)[i] == dwords[i]
    {
      DwordsRoundTripAt(dwords, endian, i);
    }
  }

  /** A dword survives `FromDword` then `ToDword`. */
  lemma ToDwordFromDword(dword: bv32, endian: Endianness)
    ensures ToDword(FromDword(dword, endian), endian) == dword
  {
    DwordRoundTrip(dword);
  }

  /** Dword `i` read back from `BytesOfDwords` is dword `i`. */
  lemma DwordsRoundTripAt(dwords: seq<bv32>, endian: Endianness, i: nat)
    requires i < |dwords|
    ensures 4 * i + 4 <= |BytesOfDwords(dwords, endian)|
    ensures ToDword(BytesOfDwords(dwords, endian)[4 * i .. 4 * i + 4], endian) == dwords[i]
  {
    DwordSlice(dwords, endian, i);
    ToDwordFromDword(dwords[i], endian);
  }

  /** Bytes `4i .. 4i + 3` of `BytesOfDwords` are the bytes of dword `i`. */
  lemma DwordSlice(dwords: seq<bv32>, endian: Endianness, i: nat)
    requires i < |dwords|
    ensures BytesOfDwords(dwords, endian)[4 * i .. 4 * i + 4] == FromDword(dwords[i], endian)
  {
    var bytes := BytesOfDwords(dwords, endian);
    forall k | 0 <= k < 4
      ensures bytes[4 * i + k] == FromDword(dwords[i], endian)[k]
    {
      assert (4 * i + k) / 4 == i && (4 * i + k) % 4 == k;
    }
  }

  /** Four bytes survive `ToDword` then `FromDword`. */
  lemma FromDwordToDword(bytes: seq<bv8>, endian: Endianness)
    requires |bytes| == 4
    ensures FromDword(ToDword(bytes, endian), endian) == bytes
  {
    DwordBytesRoundTrip(bytes);
  }

  /** With four bytes per dword, a multiple of four bytes survives the trip to dwords and back. */
  lemma DwordBytesArrayRoundTrip(bytes: seq<bv8>, endian: Endianness)
    requires |bytes| % 4 == 0
    ensures BytesOfDwords(DwordsOf(bytes, endian), endian) == bytes
  {
    var dwords := DwordsOf(bytes, endian);
    forall k | 0 <= k < |bytes|
      ensures BytesOfDwords(dwords, endian)[k] == bytes[k]
    {
      var i := k / 4;
      var quad := bytes[4 * i .. 4 * i + 4];
      assert dwords[i] == ToDword(quad, endian);
      FromDwordToDword(quad, endian);
      assert k % 4 == k - 4 * i && quad[k - 4 * i] == bytes[k];
    }
  }

  /** `bytes_to_dwords`, reading dword `i` from `bytes[4 * i]`. */
  method BytesToDwords(bytes: seq<bv8>, endian: Endianness) returns (dwords: seq<bv32>)
    requires |bytes| % 4 == 0
    ensures dwords == DwordsOf(bytes, endian)
  {
    dwords := seq(|bytes| / 4, _ => 0);
    for i := 0 to |dwords|
      invariant |dwords| == |bytes| / 4
      invariant forall j :: 0 <= j < i ==> dwords[j] == DwordsOf(bytes, endian)[j]
    {
      dwords := dwords[i := ToDword(bytes[4 * i .. 4 * i + 4], endian)];
    }
  }

  /** `dwords_to_bytes`, writing dword `i` from `bytes[4 * i]`. */
  method DwordsToBytes(dwords: seq<bv32>, endian: Endianness) returns (bytes: seq<bv8>)
    ensures bytes == BytesOfDwords(dwords, endian)
  {
    bytes := seq(4 * |dwords|, _ => 0);
    for i := 0 to |dwords|
      invariant |bytes| == 4 * |dwords|
      invariant forall k :: 0 <= k < 4 * i ==> bytes[k] == BytesOfDwords(dwords, endian)[k]
    {
      WriteDwordExtends(dwords, endian, bytes, i);
      bytes := WriteDword(bytes, 4 * i, dwords[i], endian);
    }
  }

  /** Writing dword `i` at `4i` extends a correct prefix of `BytesOfDwords` by its four bytes. */
  lemma WriteDwordExtends(dwords: seq<bv32>, endian: Endianness, bytes: seq<bv8>, i: nat)
    requires |bytes| == 4 * |dwords| && i < |dwords|
    requires forall k :: 0 <= k < 4 * i ==> bytes[k] == BytesOfDwords(dwords, endian)[k]
    ensures forall k :: 0 <= k < 4 * i + 4 ==>
      WriteDword(bytes, 4 * i, dwords[i], endian)[k] == BytesOfDwords(dwords, endian)[k]
  {
    DwordSlice(dwords, endian, i);
    WriteQuadExtends(BytesOfDwords(dwords, endian), bytes, 4 * i, FromDword(dwords[i], endian));
  }

  /** Writing the four bytes `target[at .. at + 4]` at `at` extends a prefix of `target` that ends at `at`. */
  lemma WriteQuadExtends(target: seq<bv8>, bytes: seq<bv8>, at: nat, quad: seq<bv8>)
    requires |bytes| == |target| && at + 4 <= |bytes| && |quad| == 4
    requires target[at .. at + 4] == quad
    requires forall k :: 0 <= k < at ==> bytes[k] == target[k]
    ensures forall k :: 0 <= k < at + 4 ==>
      bytes[at := quad[0]][at + 1 := quad[1]][at + 2 := quad[2]][at + 3 := quad[3]][k] == target[k]
  {
    forall k | at <= k < at + 4
      ensures target[k] == quad[k - at]
    {
      assert target[k] == target[at .. at + 4][k - at];
    }
  }
}
