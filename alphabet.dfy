/** The text alphabet of an ID and its 256-entry decoding table.

    An ID's text form uses the lower-case "extended hex" alphabet of section 7
    of RFC 4648 (`0`-`9` then `a`-`v`). Its symbols are in increasing ASCII
    order, so the string order of encoded IDs follows their byte order
    (`Order.EncodeKeepsOrder`).
    Digit `d` (0..31) is written as `Encoding[d]`; the decoding table maps a
    byte back to its digit, or to `Invalid` when the byte is not a symbol. */
module Alphabet {

  /** The 32 symbols; a digit's value is its position. */
  const Encoding: string := "0123456789abcdefghijklmnopqrstuv"

  /** The decoding-table entry of every byte that is not a symbol. */
  const Invalid: bv8 := 0xFF

  /** Reference definition of the decoding table, entry by entry: the digit
      a character stands for, or `Invalid`. Text is handed to the decoder as
      UTF-8 bytes, and every non-ASCII character becomes bytes of 0x80 and
      above, none of which is a symbol; so a character outside the alphabet,
      ASCII or not, is `Invalid`. */
  function Digit(c: char): (d: bv8)
    ensures d == Invalid || d < 32
  {
    match c
      case '0' => 0
      case '1' => 1
      case '2' => 2
      case '3' => 3
      case '4' => 4
      case '5' => 5
      case '6' => 6
      case '7' => 7
      case '8' => 8
      case '9' => 9
      case 'a' => 10
      case 'b' => 11
      case 'c' => 12
      case 'd' => 13
      case 'e' => 14
      case 'f' => 15
      case 'g' => 16
      case 'h' => 17
      case 'i' => 18
      case 'j' => 19
      case 'k' => 20
      case 'l' => 21
      case 'm' => 22
      case 'n' => 23
      case 'o' => 24
      case 'p' => 25
      case 'q' => 26
      case 'r' => 27
      case 's' => 28
      case 't' => 29
      case 'u' => 30
      case 'v' => 31
      case _ => Invalid
  }

  /** The table inverts the alphabet: every symbol decodes to its position. */
  lemma DigitOfEncoding(d: bv8)
    requires d < 32
    ensures Digit(Encoding[d]) == d
  {
    if d < 8 { SymbolsFrom0(d); }
    else if d < 16 { SymbolsFrom8(d); }
    else if d < 24 { SymbolsFrom16(d); }
    else { SymbolsFrom24(d); }
  }

  /** `DigitOfEncoding` for the symbols `0`-`7`. */
  lemma SymbolsFrom0(d: bv8)
    requires d < 8
    ensures Digit(Encoding[d]) == d
  {
    if d == 0 { }
    else if d == 1 { }
    else if d == 2 { }
    else if d == 3 { }
    else if d == 4 { }
    else if d == 5 { }
    else if d == 6 { }
    else { }
  }

  /** `DigitOfEncoding` for the symbols `8`, `9` and `a`-`f`. */
  lemma SymbolsFrom8(d: bv8)
    requires 8 <= d < 16
    ensures Digit(Encoding[d]) == d
  {
    if d == 8 { }
    else if d == 9 { }
    else if d == 10 { }
    else if d == 11 { }
    else if d == 12 { }
    else if d == 13 { }
    else if d == 14 { }
    else { }
  }

  /** `DigitOfEncoding` for the symbols `g`-`n`. */
  lemma SymbolsFrom16(d: bv8)
    requires 16 <= d < 24
    ensures Digit(Encoding[d]) == d
  {
    if d == 16 { }
    else if d == 17 { }
    else if d == 18 { }
    else if d == 19 { }
    else if d == 20 { }
    else if d == 21 { }
    else if d == 22 { }
    else { }
  }

  /** `DigitOfEncoding` for the symbols `o`-`v`. */
  lemma SymbolsFrom24(d: bv8)
    requires 24 <= d < 32
    ensures Digit(Encoding[d]) == d
  {
    if d == 24 { }
    else if d == 25 { }
    else if d == 26 { }
    else if d == 27 { }
    else if d == 28 { }
    else if d == 29 { }
    else if d == 30 { }
    else { }
  }

  /** A character the table accepts is the symbol of its digit. */
  lemma EncodingOfDigit(c: char)
    requires Digit(c) != Invalid
    ensures Encoding[Digit(c)] == c
  {
  }

  /** Distinct digits are written as distinct symbols. */
  lemma EncodingInjective(d: bv8, e: bv8)
    requires d < 32 && e < 32 && Encoding[d] == Encoding[e]
    ensures d == e
  {
    DigitOfEncoding(d);
    DigitOfEncoding(e);
  }

  /** Digits follow the order of their symbols. */
  lemma DigitMonotone(c: char, c': char)
    requires Digit(c) != Invalid && Digit(c') != Invalid && c < c'
    ensures Digit(c) < Digit(c')
  {
  }

  /** Builds the decoding table as the module initialisation does: a
      256-byte array filled with `Invalid`, then one store per symbol. */
  method BuildTable() returns (dec: array<bv8>)
    ensures fresh(dec) && dec.Length == 256
    ensures forall c :: 0 <= c < 256 ==> dec[c] == Digit(c as char)
  {
    dec := new bv8[256](_ => Invalid);
    var i: bv8 := 0;
    while i < 32
      invariant i <= 32
      invariant forall c :: 0 <= c < 256 ==>
        dec[c] == if Digit(c as char) < i then Digit(c as char) else Invalid
    {
      DigitOfEncoding(i);
      dec[Encoding[i] as int] := i;
      i := i + 1;
    }
  }
}
