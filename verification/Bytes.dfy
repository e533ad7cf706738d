/** Octets, big-endian integers, exclusive-or and hexadecimal text. */
module Bytes {

  import opened Wrappers

  type Byte = x: int | 0 <= x < 256
  type Bytes = seq<Byte>

  function Zeros(n: nat): (r: Bytes)
    ensures |r| == n && forall i :: 0 <= i < n ==> r[i] == 0
  {
    seq(n, _ => 0)
  }

  /** u16::from_be_bytes. */
  function BigEndian16(hi: Byte, lo: Byte): (r: int)
    ensures 0 <= r < 0x1_0000
  {
    256 * hi + lo
  }

  // ---------------------------------------------------------------- //
  //  Exclusive-or                                                     //
  // ---------------------------------------------------------------- //

  function ToBits(b: Byte): bv8 {
    b as bv8
  }

  function OfBits(b: bv8): Byte {
    b as int
  }

  function XorBits(a: bv8, b: bv8): bv8 {
    a ^ b
  }

  function Xor(a: Byte, b: Byte): Byte {
    OfBits(XorBits(ToBits(a), ToBits(b)))
  }

  lemma BitsFirst(b: bv8)
    ensures ToBits(OfBits(b)) == b
  {
  }

  lemma BitsSuccessor(b: bv8)
    requires b < 255
    ensures (b + 1) as int == b as int + 1
  {
  }

  lemma BitsBelow(b: bv8)
    ensures b as int < 255 <==> b < 255
  {
  }

  lemma {:induction false} BitsExist(b: Byte) returns (x: bv8)
    ensures OfBits(x) == b
  {
    if b == 0 {
      x := 0;
    } else {
      var y := BitsExist(b - 1);
      BitsBelow(y);
      BitsSuccessor(y);
      x := y + 1;
    }
  }

  lemma BytesFirst(b: Byte)
    ensures OfBits(ToBits(b)) == b
  {
    var x := BitsExist(b);
    BitsFirst(x);
  }

  lemma XorBitsLaws(a: bv8, b: bv8)
    ensures XorBits(XorBits(a, b), b) == a
    ensures XorBits(a, 0) == a && XorBits(0, b) == b
    ensures XorBits(a, b) == a ==> b == 0
  {
  }

  /** Applying the same mask twice gives the byte back, and zero is no mask. */
  lemma XorInvolutive(a: Byte, b: Byte)
    ensures Xor(Xor(a, b), b) == a
    ensures Xor(a, 0) == a
  {
    BitsFirst(XorBits(ToBits(a), ToBits(b)));
    XorBitsLaws(ToBits(a), ToBits(b));
    BytesFirst(a);
  }

  /** A mask shows through on zero and leaves no byte alone unless it is zero. */
  lemma XorShows(a: Byte, b: Byte)
    ensures Xor(0, b) == b
    ensures Xor(a, b) == a ==> b == 0
  {
    BitsFirst(XorBits(ToBits(a), ToBits(b)));
    XorBitsLaws(ToBits(a), ToBits(b));
    BytesFirst(b);
  }

  // ---------------------------------------------------------------- //
  //  Hexadecimal                                                      //
  // ---------------------------------------------------------------- //

  const HEX_DIGITS: string := "0123456789abcdef"

  function HexDigit(v: int): char
    requires 0 <= v < 16
  {
    HEX_DIGITS[v]
  }

  /** Digits of either case, as the hex crate accepts them. */
  function HexValue(c: char): (r: Option<int>)
    ensures r.Some? ==> 0 <= r.value < 16
  {
    if '0' <= c <= '9' then Some(c as int - '0' as int)
    else if 'a' <= c <= 'f' then Some(c as int - 'a' as int + 10)
    else if 'A' <= c <= 'F' then Some(c as int - 'A' as int + 10)
    else None
  }

  function HexEncode(data: Bytes): (text: string)
    ensures |text| == 2 * |data|
  {
    if data == [] then ""
    else [HexDigit(data[0] / 16), HexDigit(data[0] % 16)] + HexEncode(data[1..])
  }

  function HexDecode(text: string): Option<Bytes> {
    if text == "" then Some([])
    else if |text| == 1 then None
    else
      match (HexValue(text[0]), HexValue(text[1]), HexDecode(text[2..]))
      case (Some(hi), Some(lo), Some(rest)) => Some([16 * hi + lo] + rest)
      case _ => None
  }

  lemma HexDigitValue(v: int)
    requires 0 <= v < 16
    ensures HexValue(HexDigit(v)) == Some(v)
  {
    assert HEX_DIGITS == ['0', '1', '2', '3', '4', '5', '6', '7', '8', '9', 'a', 'b', 'c', 'd', 'e', 'f'];
  }

  lemma HexPair(a: char, c: char, rest: string)
    ensures HexDecode([a, c] + rest)
         == match (HexValue(a), HexValue(c), HexDecode(rest))
            case (Some(hi), Some(lo), Some(tail)) => Some([16 * hi + lo] + tail)
            case _ => None
  {
    hide HexValue;
    assert ([a, c] + rest)[2..] == rest;
  }

  lemma HexByte(b: Byte, rest: string)
    requires HexDecode(rest).Some?
    ensures HexDecode([HexDigit(b / 16), HexDigit(b % 16)] + rest) == Some([b] + HexDecode(rest).value)
  {
    hide HexDecode, HexDigit, HexValue;
    HexDigitValue(b / 16);
    HexDigitValue(b % 16);
    HexPair(HexDigit(b / 16), HexDigit(b % 16), rest);
  }

  function LowerDigit(c: char): char {
    if 'A' <= c <= 'F' then (c as int + 32) as char else c
  }

  function LowerDigits(text: string): (r: string)
    ensures |r| == |text|
  {
    seq(|text|, i requires 0 <= i < |text| => LowerDigit(text[i]))
  }

  lemma HexValueExact(c: char, v: int)
    requires 0 <= v < 16
    ensures HexValue(c) == Some(v) <==> LowerDigit(c) == HexDigit(v)
  {
    assert HEX_DIGITS == ['0', '1', '2', '3', '4', '5', '6', '7', '8', '9', 'a', 'b', 'c', 'd', 'e', 'f'];
  }

  lemma PairSplits(hi: int, lo: int, tail: Bytes, data: Bytes)
    requires 0 <= hi < 16 && 0 <= lo < 16 && data != []
    ensures [16 * hi + lo] + tail == data <==> hi == data[0] / 16 && lo == data[0] % 16 && tail == data[1..]
  {
    if [16 * hi + lo] + tail == data {
      assert data[1..] == tail;
    } else if tail == data[1..] {
      assert data == [data[0]] + tail;
    }
  }

  lemma DecodeSplits(text: string, data: Bytes)
    requires |text| >= 2 && data != []
    ensures HexDecode(text) == Some(data) <==>
              && HexValue(text[0]) == Some(data[0] / 16) && HexValue(text[1]) == Some(data[0] % 16)
              && HexDecode(text[2..]) == Some(data[1..])
  {
    hide HexDecode, HexValue;
    HexPair(text[0], text[1], text[2..]);
    assert text == [text[0], text[1]] + text[2..];
    match (HexValue(text[0]), HexValue(text[1]), HexDecode(text[2..]))
    case (Some(hi), Some(lo), Some(tail)) => PairSplits(hi, lo, tail, data);
    case _ =>
  }

  /** Decoding accepts exactly the encodings, with digits of either case. */
  lemma {:induction false} HexDecodeExact(text: string, data: Bytes)
    ensures HexDecode(text) == Some(data) <==> LowerDigits(text) == HexEncode(data)
  {
    if |text| < 2 || data == [] {
      HexEmpty(text, data);
    } else {
      hide HexDecode, HexValue, HexDigit, HexEncode, LowerDigits, LowerDigit;
      HexDecodeExact(text[2..], data[1..]);
      HexValueExact(text[0], data[0] / 16);
      HexValueExact(text[1], data[0] % 16);
      DecodeSplits(text, data);
      HexSplit(text, data);
    }
  }

  lemma HexEmpty(text: string, data: Bytes)
    requires |text| < 2 || data == []
    ensures HexDecode(text) == Some(data) <==> LowerDigits(text) == HexEncode(data)
  {
    if text != "" && data == [] {
      assert |LowerDigits(text)| > 0;
    }
  }

  lemma HexSplit(text: string, data: Bytes)
    requires |text| >= 2 && data != []
    ensures LowerDigits(text) == HexEncode(data) <==>
              && LowerDigit(text[0]) == HexDigit(data[0] / 16) && LowerDigit(text[1]) == HexDigit(data[0] % 16)
              && LowerDigits(text[2..]) == HexEncode(data[1..])
  {
    assert LowerDigits(text) == [LowerDigit(text[0]), LowerDigit(text[1])] + LowerDigits(text[2..]);
    if LowerDigits(text) == HexEncode(data) {
      assert LowerDigits(text)[2..] == HexEncode(data)[2..];
      assert LowerDigits(text)[0] == HexEncode(data)[0] && LowerDigits(text)[1] == HexEncode(data)[1];
    }
  }

  lemma {:induction false} HexRoundTrip(data: Bytes)
    ensures HexDecode(HexEncode(data)) == Some(data)
  {
    if data != [] {
      var rest := data[1..];
      HexRoundTrip(rest);
      HexByte(data[0], HexEncode(rest));
      hide HexDecode, HexDigit;
      assert HexEncode(data) == [HexDigit(data[0] / 16), HexDigit(data[0] % 16)] + HexEncode(rest);
      assert data == [data[0]] + rest;
    }
  }
}
