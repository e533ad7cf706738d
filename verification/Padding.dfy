/** Bucket padding of outgoing messages and its removal. */
module Padding {

  import opened Wrappers
  import opened Bytes
  import opened Powers

  datatype PaddingError = BadHex | EmptyMessage | BadPaddingLength

  const MAX_MESSAGE: nat := 65535
  const MIN_BUCKET: nat := 256
  const MAX_BUCKET: nat := 65536

  /** Filler bytes between the message and the end of its bucket. */
  function PadLength(messageLength: nat): (r: nat)
    requires messageLength <= MAX_MESSAGE
  {
    BucketSize(messageLength + 1) - messageLength - 1
  }

  function BucketSize(total: nat): (r: nat)
    ensures total <= MAX_BUCKET ==> total <= r
  {
    if total <= 256 then 256
    else if total <= 512 then 512
    else if total <= 1024 then 1024
    else if total <= 2048 then 2048
    else if total <= 4096 then 4096
    else if total <= 8192 then 8192
    else if total <= 16384 then 16384
    else if total <= 32768 then 32768
    else 65536
  }

  /** The filler, drawn byte by byte from the random source. */
  function Filler(n: nat, noise: nat -> Byte): (r: Bytes)
    ensures |r| == n && forall i :: 0 <= i < n ==> r[i] == noise(i)
  {
    if n == 0 then [] else Filler(n - 1, noise) + [noise(n - 1)]
  }

  /** Header, message, filler. The header keeps only the low byte of the length. */
  function Padded(message: Bytes, noise: nat -> Byte): Bytes
    requires |message| <= MAX_MESSAGE
  {
    var padLength := PadLength(|message|);
    [padLength % 256] + message + Filler(padLength, noise)
  }

  function Unpadded(text: string): Result<Bytes, PaddingError> {
    match HexDecode(text)
    case None => Err(BadHex)
    case Some(data) => Stripped(data)
  }

  function Stripped(data: Bytes): Result<Bytes, PaddingError> {
    if data == [] then Err(EmptyMessage)
    else
      var padLength: int := data[0];
      if |data| < padLength + 1 then Err(BadPaddingLength)
      else Ok(data[1..|data| - padLength])
  }

  method PadMessageBucket(message: Bytes, noise: nat -> Byte) returns (text: string)
    requires |message| <= MAX_MESSAGE
    ensures text == HexEncode(Padded(message, noise))
  {
    var padLength := BucketSize(|message| + 1) - |message| - 1;
    var result: Bytes := [padLength % 256];
    result := result + message;
    var padding := new Byte[padLength](_ => 0);
    for i := 0 to padLength
      invariant forall k :: 0 <= k < i ==> padding[k] == noise(k)
    {
      padding[i] := noise(i);
    }
    assert padding[..] == Filler(padLength, noise);
    result := result + padding[..];
    text := HexEncode(result);
  }

  // ---------------------------------------------------------------- //
  //  Properties                                                       //
  // ---------------------------------------------------------------- //

  lemma BucketPowers()
    ensures Pow2(8) == 256 && Pow2(9) == 512 && Pow2(10) == 1024 && Pow2(11) == 2048 && Pow2(12) == 4096
    ensures Pow2(13) == 8192 && Pow2(14) == 16384 && Pow2(15) == 32768 && Pow2(16) == 65536
  {
    assert Pow2(4) == 16;
    assert Pow2(8) == 256;
    assert Pow2(12) == 4096;
  }

  /** The decoded form fills exactly the least power-of-two bucket, of 256 bytes
      or more, that holds the message and its header. */
  lemma PaddedFillsLeastBucket(message: Bytes, noise: nat -> Byte) returns (exponent: nat)
    requires |message| <= MAX_MESSAGE
    ensures var data := HexDecode(HexEncode(Padded(message, noise)));
            data.Some? && |data.value| == Pow2(exponent)
    ensures Pow2(exponent) >= MIN_BUCKET && Pow2(exponent) >= |message| + 1
    ensures forall e: nat :: Pow2(e) >= MIN_BUCKET && Pow2(e) >= |message| + 1 ==> Pow2(exponent) <= Pow2(e)
  {
    HexRoundTrip(Padded(message, noise));
    BucketPowers();
    var total := |message| + 1;
    exponent := if total <= 256 then 8 else if total <= 512 then 9 else if total <= 1024 then 10
                else if total <= 2048 then 11 else if total <= 4096 then 12 else if total <= 8192 then 13
                else if total <= 16384 then 14 else if total <= 32768 then 15 else 16;
    forall e: nat | Pow2(e) >= MIN_BUCKET && Pow2(e) >= total ensures Pow2(exponent) <= Pow2(e) {
      if e < exponent {
        Pow2Monotone(e, exponent - 1);
        assert false;
      } else {
        Pow2Monotone(exponent, e);
      }
    }
  }

  /** The filler bytes that the one-byte header cannot count: none when the
      filler length fits in a byte. */
  function Leftover(messageLength: nat, noise: nat -> Byte): (r: Bytes)
    requires messageLength <= MAX_MESSAGE
  {
    var padLength := PadLength(messageLength);
    Filler(padLength, noise)[..padLength - padLength % 256]
  }

  lemma CutMiddle(header: Byte, message: Bytes, filler: Bytes, keep: nat)
    requires keep <= |filler|
    ensures ([header] + message + filler)[1..1 + |message| + keep] == message + filler[..keep]
  {
    assert ([header] + message + filler)[1..] == message + filler;
  }

  /** Unpadding strips as many bytes from the end as the header says. */
  lemma StripsFiller(data: Bytes, end: nat)
    requires data != [] && 1 <= end && end + data[0] == |data|
    ensures Stripped(data) == Ok(data[1..end])
  {
    var padLength: int := data[0];
    assert |data| - padLength == end;
  }

  lemma UnpadStrips(data: Bytes, end: nat)
    requires data != [] && 1 <= end && end + data[0] == |data|
    ensures Unpadded(HexEncode(data)) == Ok(data[1..end])
  {
    hide HexDecode, HexEncode;
    HexRoundTrip(data);
    StripsFiller(data, end);
    hide Stripped;
  }

  /** Unpadding always yields bytes that start with the message. */
  lemma UnpadStartsWithMessage(message: Bytes, noise: nat -> Byte)
    requires |message| <= MAX_MESSAGE
    ensures Unpadded(HexEncode(Padded(message, noise))) == Ok(message + Leftover(|message|, noise))
    ensures |Leftover(|message|, noise)| == PadLength(|message|) / 256 * 256
  {
    var padLength := PadLength(|message|);
    var keep := padLength - padLength % 256;
    CutMiddle(padLength % 256, message, Filler(padLength, noise), keep);
    UnpadStrips(Padded(message, noise), 1 + |message| + keep);
  }

  /** The round trip is exact if and only if the filler length fits in the header. */
  lemma RoundTripExact(message: Bytes, noise: nat -> Byte)
    requires |message| <= MAX_MESSAGE
    ensures Unpadded(HexEncode(Padded(message, noise))) == Ok(message) <==> PadLength(|message|) <= 255
  {
    UnpadStartsWithMessage(message, noise);
    var leftover := Leftover(|message|, noise);
    if leftover == [] {
      assert message + leftover == message;
    } else {
      assert |message + leftover| > |message|;
    }
  }

  /** Every message of up to 511 bytes survives; the shortest that does not has 512. */
  lemma ShortMessagesSurvive(message: Bytes, noise: nat -> Byte)
    requires |message| <= 512
    ensures Unpadded(HexEncode(Padded(message, noise))) == Ok(message) <==> |message| <= 511
  {
    RoundTripExact(message, noise);
  }
}
