/** The 12-byte ID and its 20-character text form.

    The 12 bytes are read as a 96-bit big-endian bit string, four zero bits
    are appended, and the resulting 100 bits are cut into twenty 5-bit
    digits, most significant first; digit `d` is written as the symbol
    `Encoding[d]`. Decoding reverses this and accepts only the canonical
    text, the one whose four padding bits are zero.

    Both directions are written as the straight-line shift-and-mask
    expressions of src/index.ts: `EncodeSlot(b, k)` is the digit of output
    position `k`, `DecodeSlot(d, i)` the value stored into byte `i`. */
module Codec {
  import opened Alphabet

  /** One element of a `Uint8Array`. */
  type Byte = bv8

  /** A JavaScript number as the bitwise operators see it: they work on
      32-bit integers. Every operand in the codec is non-negative and below
      2^31, where signed and unsigned 32-bit arithmetic agree. */
  type Word = bv32

  const RawLen: nat := 12
  const EncodedLen: nat := 20

  /** The binary form of an ID: exactly 12 bytes. */
  type Id = b: seq<Byte> | |b| == RawLen witness Zero

  /** The all-zero ID. */
  const Zero: seq<Byte> := [0, 0, 0, 0, 0, 0, 0, 0, 0, 0, 0, 0]

  /** Every failure of the codec is the one error "xid: invalid ID". */
  datatype Result<T> = Ok(value: T) | InvalidId

  /** Reading a byte into a number. */
  function W(x: Byte): Word { x as Word }

  /** Storing a number into a `Uint8Array` slot keeps its low 8 bits. */
  function Store(x: Word): (y: Byte)
    ensures W(y) == x & 0xFF
  {
    (x & 0xFF) as Byte
  }

  // ---------------------------------------------------------------------
  // Encoding

  /** The digit the encoder writes at position `k`: bits 5k .. 5k+4 of the
      bytes followed by four zero bits. */
  function EncodeSlot(b: Id, k: nat): (x: Word)
    requires k < EncodedLen
    ensures x < 32
  {
    match k
    case 0 => W(b[0]) >> 3
    case 1 => (W(b[1]) >> 6) | ((W(b[0]) << 2) & 0x1F)
    case 2 => (W(b[1]) >> 1) & 0x1F
    case 3 => (W(b[2]) >> 4) | ((W(b[1]) << 4) & 0x1F)
    case 4 => (W(b[3]) >> 7) | ((W(b[2]) << 1) & 0x1F)
    case 5 => (W(b[3]) >> 2) & 0x1F
    case 6 => (W(b[4]) >> 5) | ((W(b[3]) << 3) & 0x1F)
    case 7 => W(b[4]) & 0x1F
    case 8 => W(b[5]) >> 3
    case 9 => (W(b[6]) >> 6) | ((W(b[5]) << 2) & 0x1F)
    case 10 => (W(b[6]) >> 1) & 0x1F
    case 11 => (W(b[7]) >> 4) | ((W(b[6]) << 4) & 0x1F)
    case 12 => (W(b[8]) >> 7) | ((W(b[7]) << 1) & 0x1F)
    case 13 => (W(b[8]) >> 2) & 0x1F
    case 14 => (W(b[9]) >> 5) | ((W(b[8]) << 3) & 0x1F)
    case 15 => W(b[9]) & 0x1F
    case 16 => W(b[10]) >> 3
    case 17 => (W(b[11]) >> 6) | ((W(b[10]) << 2) & 0x1F)
    case 18 => (W(b[11]) >> 1) & 0x1F
    case _ => (W(b[11]) << 4) & 0x1F
  }

  /** The symbol the encoder writes for the digit `x`. */
  function Symbol(x: Word): (c: char)
    requires x < 32
    ensures W(Digit(c)) == x
  {
    DigitOfEncoding(x as Byte);
    Encoding[x as Byte]
  }

  /** The text form of an ID: each digit written as its symbol. */
  function Encode(b: Id): (s: string)
    ensures |s| == EncodedLen && InAlphabet(s)
  {
    seq(EncodedLen, k requires 0 <= k < EncodedLen => Symbol(EncodeSlot(b, k)))
  }

  // ---------------------------------------------------------------------
  // Decoding

  /** Every character of `s` is a symbol of the alphabet. */
  predicate InAlphabet(s: string)
  {
    forall k :: 0 <= k < |s| ==> Digit(s[k]) != Invalid
  }

  /** The digits a well-formed text stands for: its characters looked up in
      the decoding table. */
  function Digits(s: string): (d: seq<Byte>)
    requires |s| == EncodedLen && InAlphabet(s)
    ensures |d| == EncodedLen
  {
    seq(EncodedLen, k requires 0 <= k < EncodedLen => Digit(s[k]))
  }

  /** Writing back the digits of a well-formed text gives the text. */
  lemma SymbolsOfDigits(s: string)
    requires |s| == EncodedLen && InAlphabet(s)
    ensures forall k :: 0 <= k < EncodedLen ==> Digits(s)[k] < 32 && Symbol(W(Digits(s)[k])) == s[k]
  {
    forall k | 0 <= k < EncodedLen
      ensures Digits(s)[k] < 32 && Symbol(W(Digits(s)[k])) == s[k]
    {
      EncodingOfDigit(s[k]);
    }
  }

  /** The value the decoder stores into byte `i`: bits 8i .. 8i+7 of the
      100 bits spelled by the digits `d`. */
  function DecodeSlot(d: seq<Byte>, i: nat): Byte
    requires |d| == EncodedLen && i < RawLen
  {
    match i
    case 0 => Store((W(d[0]) << 3) | (W(d[1]) >> 2))
    case 1 => Store((W(d[1]) << 6) | (W(d[2]) << 1) | (W(d[3]) >> 4))
    case 2 => Store((W(d[3]) << 4) | (W(d[4]) >> 1))
    case 3 => Store((W(d[4]) << 7) | (W(d[5]) << 2) | (W(d[6]) >> 3))
    case 4 => Store((W(d[6]) << 5) | W(d[7]))
    case 5 => Store((W(d[8]) << 3) | (W(d[9]) >> 2))
    case 6 => Store((W(d[9]) << 6) | (W(d[10]) << 1) | (W(d[11]) >> 4))
    case 7 => Store((W(d[11]) << 4) | (W(d[12]) >> 1))
    case 8 => Store((W(d[12]) << 7) | (W(d[13]) << 2) | (W(d[14]) >> 3))
    case 9 => Store((W(d[14]) << 5) | W(d[15]))
    case 10 => Store((W(d[16]) << 3) | (W(d[17]) >> 2))
    case _ => Store((W(d[17]) << 6) | (W(d[18]) << 1) | (W(d[19]) >> 4))
  }

  /** The 12 bytes the decoder stores for the digits `d`. */
  function Unpack(d: seq<Byte>): (b: Id)
    requires |d| == EncodedLen
    ensures forall i :: 0 <= i < RawLen ==> b[i] == DecodeSlot(d, i)
  {
    seq(RawLen, i requires 0 <= i < RawLen => DecodeSlot(d, i))
  }

  /** Parsing a text: it must have 20 characters, all symbols, and its last
      symbol must carry zero padding bits, which the decoder checks by
      re-encoding the last digit from the decoded byte 11. */
  function Decode(s: string): (r: Result<Id>)
    ensures r.Ok? ==> |s| == EncodedLen && InAlphabet(s)
  {
    if |s| != EncodedLen || !InAlphabet(s) then InvalidId
    else
      var b := Unpack(Digits(s));
      if Symbol(EncodeSlot(b, 19)) != s[19] then InvalidId else Ok(b)
  }

  // ---------------------------------------------------------------------
  // Round trips

  /** Reading the symbols of an encoded ID gives back the encoder's digits. */
  lemma DigitsOfEncode(b: Id)
    ensures forall k :: 0 <= k < EncodedLen ==> W(Digits(Encode(b))[k]) == EncodeSlot(b, k)
  {
    var d := Digits(Encode(b));
    forall k | 0 <= k < EncodedLen ensures W(d[k]) == EncodeSlot(b, k) {
    }
  }

  /** The decoder's byte expressions undo the encoder's digit expressions,
      bytes 0 to 5 (from digits 0 to 9). */
  lemma UnpackSlotsHigh(b: Id, d: seq<Byte>)
    requires |d| == EncodedLen
    requires W(d[0]) == EncodeSlot(b, 0) && W(d[1]) == EncodeSlot(b, 1)
    requires W(d[2]) == EncodeSlot(b, 2) && W(d[3]) == EncodeSlot(b, 3)
    requires W(d[4]) == EncodeSlot(b, 4) && W(d[5]) == EncodeSlot(b, 5)
    requires W(d[6]) == EncodeSlot(b, 6) && W(d[7]) == EncodeSlot(b, 7)
    requires W(d[8]) == EncodeSlot(b, 8) && W(d[9]) == EncodeSlot(b, 9)
    ensures DecodeSlot(d, 0) == b[0] && DecodeSlot(d, 1) == b[1] && DecodeSlot(d, 2) == b[2]
    ensures DecodeSlot(d, 3) == b[3] && DecodeSlot(d, 4) == b[4] && DecodeSlot(d, 5) == b[5]
  {
  }

  /** The decoder's byte expressions undo the encoder's digit expressions,
      bytes 6 to 11 (from digits 9 to 19). */
  lemma UnpackSlotsLow(b: Id, d: seq<Byte>)
    requires |d| == EncodedLen
    requires W(d[9]) == EncodeSlot(b, 9) && W(d[10]) == EncodeSlot(b, 10)
    requires W(d[11]) == EncodeSlot(b, 11) && W(d[12]) == EncodeSlot(b, 12)
    requires W(d[13]) == EncodeSlot(b, 13) && W(d[14]) == EncodeSlot(b, 14)
    requires W(d[15]) == EncodeSlot(b, 15) && W(d[16]) == EncodeSlot(b, 16)
    requires W(d[17]) == EncodeSlot(b, 17) && W(d[18]) == EncodeSlot(b, 18)
    requires W(d[19]) == EncodeSlot(b, 19)
    ensures DecodeSlot(d, 6) == b[6] && DecodeSlot(d, 7) == b[7] && DecodeSlot(d, 8) == b[8]
    ensures DecodeSlot(d, 9) == b[9] && DecodeSlot(d, 10) == b[10] && DecodeSlot(d, 11) == b[11]
  {
  }

  /** Two IDs that agree byte by byte. */
  lemma SameId(a: Id, b: Id)
    requires a[0] == b[0] && a[1] == b[1] && a[2] == b[2] && a[3] == b[3]
    requires a[4] == b[4] && a[5] == b[5] && a[6] == b[6] && a[7] == b[7]
    requires a[8] == b[8] && a[9] == b[9] && a[10] == b[10] && a[11] == b[11]
    ensures a == b
  {
  }

  /** Decoding the text form of any ID gives back that ID. */
  lemma DecodeEncode(b: Id)
    ensures Decode(Encode(b)) == Ok(b)
  {
    var d := Digits(Encode(b));
    DigitsOfEncode(b);
    UnpackSlotsHigh(b, d);
    UnpackSlotsLow(b, d);
    SameId(Unpack(d), b);
  }

  /** The encoder's digit expressions undo the decoder's byte expressions,
      digits 0 to 9 (from bytes 0 to 6). */
  lemma RegroupSlotsHigh(d: seq<Byte>, b: Id)
    requires |d| == EncodedLen
    requires d[0] < 32 && d[1] < 32 && d[2] < 32 && d[3] < 32 && d[4] < 32
    requires d[5] < 32 && d[6] < 32 && d[7] < 32 && d[8] < 32 && d[9] < 32 && d[10] < 32
    requires b[0] == DecodeSlot(d, 0) && b[1] == DecodeSlot(d, 1) && b[2] == DecodeSlot(d, 2)
    requires b[3] == DecodeSlot(d, 3) && b[4] == DecodeSlot(d, 4) && b[5] == DecodeSlot(d, 5)
    requires b[6] == DecodeSlot(d, 6)
    ensures EncodeSlot(b, 0) == W(d[0]) && EncodeSlot(b, 1) == W(d[1])
    ensures EncodeSlot(b, 2) == W(d[2]) && EncodeSlot(b, 3) == W(d[3])
    ensures EncodeSlot(b, 4) == W(d[4]) && EncodeSlot(b, 5) == W(d[5])
    ensures EncodeSlot(b, 6) == W(d[6]) && EncodeSlot(b, 7) == W(d[7])
    ensures EncodeSlot(b, 8) == W(d[8]) && EncodeSlot(b, 9) == W(d[9])
  {
  }

  /** The encoder's digit expressions undo the decoder's byte expressions,
      digits 10 to 19 (from bytes 6 to 11), except that the four padding
      bits of the last digit come back as zero. */
  lemma RegroupSlotsLow(d: seq<Byte>, b: Id)
    requires |d| == EncodedLen
    requires d[9] < 32 && d[10] < 32 && d[11] < 32 && d[12] < 32 && d[13] < 32 && d[14] < 32
    requires d[15] < 32 && d[16] < 32 && d[17] < 32 && d[18] < 32 && d[19] < 32
    requires b[6] == DecodeSlot(d, 6) && b[7] == DecodeSlot(d, 7) && b[8] == DecodeSlot(d, 8)
    requires b[9] == DecodeSlot(d, 9) && b[10] == DecodeSlot(d, 10) && b[11] == DecodeSlot(d, 11)
    ensures EncodeSlot(b, 10) == W(d[10]) && EncodeSlot(b, 11) == W(d[11])
    ensures EncodeSlot(b, 12) == W(d[12]) && EncodeSlot(b, 13) == W(d[13])
    ensures EncodeSlot(b, 14) == W(d[14]) && EncodeSlot(b, 15) == W(d[15])
    ensures EncodeSlot(b, 16) == W(d[16]) && EncodeSlot(b, 17) == W(d[17])
    ensures EncodeSlot(b, 18) == W(d[18])
    ensures EncodeSlot(b, 19) == W(d[19]) & 0x10
  {
  }

  /** Two texts of 20 characters that agree position by position. */
  lemma SameText(s: string, t: string)
    requires |s| == EncodedLen && |t| == EncodedLen
    requires s[0] == t[0] && s[1] == t[1] && s[2] == t[2] && s[3] == t[3]
    requires s[4] == t[4] && s[5] == t[5] && s[6] == t[6] && s[7] == t[7]
    requires s[8] == t[8] && s[9] == t[9] && s[10] == t[10] && s[11] == t[11]
    requires s[12] == t[12] && s[13] == t[13] && s[14] == t[14] && s[15] == t[15]
    requires s[16] == t[16] && s[17] == t[17] && s[18] == t[18] && s[19] == t[19]
    ensures s == t
  {
  }

  /** A text that holds, at every position, the symbol the encoder writes
      there for `b` is the text form of `b`. */
  lemma SpelledBy(b: Id, s: string)
    requires |s| == EncodedLen
    requires Symbol(EncodeSlot(b, 0)) == s[0] && Symbol(EncodeSlot(b, 1)) == s[1]
    requires Symbol(EncodeSlot(b, 2)) == s[2] && Symbol(EncodeSlot(b, 3)) == s[3]
    requires Symbol(EncodeSlot(b, 4)) == s[4] && Symbol(EncodeSlot(b, 5)) == s[5]
    requires Symbol(EncodeSlot(b, 6)) == s[6] && Symbol(EncodeSlot(b, 7)) == s[7]
    requires Symbol(EncodeSlot(b, 8)) == s[8] && Symbol(EncodeSlot(b, 9)) == s[9]
    requires Symbol(EncodeSlot(b, 10)) == s[10] && Symbol(EncodeSlot(b, 11)) == s[11]
    requires Symbol(EncodeSlot(b, 12)) == s[12] && Symbol(EncodeSlot(b, 13)) == s[13]
    requires Symbol(EncodeSlot(b, 14)) == s[14] && Symbol(EncodeSlot(b, 15)) == s[15]
    requires Symbol(EncodeSlot(b, 16)) == s[16] && Symbol(EncodeSlot(b, 17)) == s[17]
    requires Symbol(EncodeSlot(b, 18)) == s[18] && Symbol(EncodeSlot(b, 19)) == s[19]
    ensures Encode(b) == s
  {
    SameText(Encode(b), s);
  }

  /** Encoding a decoded ID gives back the very text it was decoded from:
      the decoder accepts only canonical texts. */
  lemma EncodeDecode(s: string, b: Id)
    requires Decode(s) == Ok(b)
    ensures Encode(b) == s
  {
    var d := Digits(s);
    SymbolsOfDigits(s);
    RegroupSlotsHigh(d, b);
    RegroupSlotsLow(d, b);
    SpelledBy(b, s);
  }

  /** Decoding fails exactly when the text does not have 20 characters,
      holds a character outside the alphabet, or sets one of the four
      padding bits carried by its last symbol. */
  lemma DecodeFails(s: string)
    ensures Decode(s) == InvalidId <==>
      |s| != EncodedLen || !InAlphabet(s) || Digit(s[19]) & 0x0F != 0
  {
    if |s| == EncodedLen && InAlphabet(s) {
      var d := Digits(s);
      var b := Unpack(d);
      RegroupSlotsLow(d, b);
      var last := EncodeSlot(b, 19);
      if Symbol(last) == s[19] {
        assert W(Digit(s[19])) == last;
      }
    }
  }

  /** On text of 20 symbols the decoder's verdict rests on byte 11 alone:
      the text is accepted exactly when its last symbol is the one the
      encoder writes for that byte. */
  lemma DecodeSymbols(s: string)
    requires |s| == EncodedLen && InAlphabet(s)
    ensures Decode(s) ==
      if Symbol((W(DecodeSlot(Digits(s), 11)) << 4) & 0x1F) == s[19]
      then Ok(Unpack(Digits(s))) else InvalidId
  {
  }

  /** The last symbol of an encoded ID carries only one data bit, so it is
      `0` or `g`. */
  lemma EncodeLastSymbol(b: Id)
    ensures Encode(b)[19] == '0' || Encode(b)[19] == 'g'
  {
    assert EncodeSlot(b, 19) == 0 || EncodeSlot(b, 19) == 16;
  }

  // ---------------------------------------------------------------------
  // Known texts

  /** The zero ID is twenty `0` symbols, and that text decodes to it. */
  lemma ZeroText(b: Id, t: string)
    requires b == Zero
    requires t == "00000000000000000000"
    ensures Encode(b) == t
    ensures Decode(t) == Ok(b)
  {
    SpelledBy(b, t);
    DecodeEncode(b);
  }

  /** Known pair: the bytes 64b78f6e73ee26338715e112 are written `cirourjjtoj371ols490`. */
  lemma Vector1(b: Id, t: string)
    requires b == [0x64, 0xb7, 0x8f, 0x6e, 0x73, 0xee, 0x26, 0x33, 0x87, 0x15, 0xe1, 0x12]
    requires t == "cirourjjtoj371ols490"
    ensures Encode(b) == t
    ensures Decode(t) == Ok(b)
  {
    SpelledBy(b, t);
    DecodeEncode(b);
  }

  /** Known pair: the bytes 64b78f6e73ee26338715e113 are written `cirourjjtoj371ols49g`. */
  lemma Vector2(b: Id, t: string)
    requires b == [0x64, 0xb7, 0x8f, 0x6e, 0x73, 0xee, 0x26, 0x33, 0x87, 0x15, 0xe1, 0x13]
    requires t == "cirourjjtoj371ols49g"
    ensures Encode(b) == t
    ensures Decode(t) == Ok(b)
  {
    SpelledBy(b, t);
    DecodeEncode(b);
  }

  /** Known pair: the bytes 64b78f6e73ee26338715e114 are written `cirourjjtoj371ols4a0`. */
  lemma Vector3(b: Id, t: string)
    requires b == [0x64, 0xb7, 0x8f, 0x6e, 0x73, 0xee, 0x26, 0x33, 0x87, 0x15, 0xe1, 0x14]
    requires t == "cirourjjtoj371ols4a0"
    ensures Encode(b) == t
    ensures Decode(t) == Ok(b)
  {
    SpelledBy(b, t);
    DecodeEncode(b);
  }

  /** Known pair: the bytes 64b78f6e73ee26338715e115 are written `cirourjjtoj371ols4ag`. */
  lemma Vector4(b: Id, t: string)
    requires b == [0x64, 0xb7, 0x8f, 0x6e, 0x73, 0xee, 0x26, 0x33, 0x87, 0x15, 0xe1, 0x15]
    requires t == "cirourjjtoj371ols4ag"
    ensures Encode(b) == t
    ensures Decode(t) == Ok(b)
  {
    SpelledBy(b, t);
    DecodeEncode(b);
  }

  /** Known pair: the bytes 64b78f6e73ee26338715e116 are written `cirourjjtoj371ols4b0`. */
  lemma Vector5(b: Id, t: string)
    requires b == [0x64, 0xb7, 0x8f, 0x6e, 0x73, 0xee, 0x26, 0x33, 0x87, 0x15, 0xe1, 0x16]
    requires t == "cirourjjtoj371ols4b0"
    ensures Encode(b) == t
    ensures Decode(t) == Ok(b)
  {
    SpelledBy(b, t);
    DecodeEncode(b);
  }

  /** Known pair: the bytes 64b78f6e73ee26338715e117 are written `cirourjjtoj371ols4bg`. */
  lemma Vector6(b: Id, t: string)
    requires b == [0x64, 0xb7, 0x8f, 0x6e, 0x73, 0xee, 0x26, 0x33, 0x87, 0x15, 0xe1, 0x17]
    requires t == "cirourjjtoj371ols4bg"
    ensures Encode(b) == t
    ensures Decode(t) == Ok(b)
  {
    SpelledBy(b, t);
    DecodeEncode(b);
  }

  /** Known pair: the bytes 4d88e15b60f486e428412dc9 are written `9m4e2mr0ui3e8a215n4g`. */
  lemma Vector7(b: Id, t: string)
    requires b == [0x4d, 0x88, 0xe1, 0x5b, 0x60, 0xf4, 0x86, 0xe4, 0x28, 0x41, 0x2d, 0xc9]
    requires t == "9m4e2mr0ui3e8a215n4g"
    ensures Encode(b) == t
    ensures Decode(t) == Ok(b)
  {
    SpelledBy(b, t);
    DecodeEncode(b);
  }

  /** Texts the decoder refuses: the empty text and a 28-character one for
      their length, and `00000000000000jarvis`, whose symbols are all in
      the alphabet but whose last one, `s`, sets padding bits. */
  lemma RejectedTexts()
    ensures Decode("") == InvalidId
    ensures Decode("0000000000000000000000000000") == InvalidId
    ensures Decode("00000000000000jarvis") == InvalidId
  {
    DecodeFails("00000000000000jarvis");
  }
}
