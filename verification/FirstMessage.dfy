/** A concrete choice of primitives. It satisfies everything the ratchet proofs
    assume, and under it a first message between two fresh sessions is refused. */
module FirstMessage {

  import opened Wrappers
  import opened Bytes
  import opened Ratchet

  /** Three bytes a character. */
  function CharsToBytes(s: string): (r: Bytes)
    ensures |r| == 3 * |s|
  {
    if s == "" then []
    else
      var c := s[0] as int;
      [c / 65536, c / 256 % 256, c % 256] + CharsToBytes(s[1..])
  }

  function Joined(high: int, mid: int, low: int): int {
    65536 * high + 256 * mid + low
  }

  function BytesToChars(b: Bytes): Option<string> {
    if b == [] then Some("")
    else if |b| < 3 then None
    else
      var c := Joined(b[0], b[1], b[2]);
      var rest := BytesToChars(b[3..]);
      if rest.Some? && (c < 0xD800 || 0xE000 <= c < 0x11_0000) then Some([c as char] + rest.value) else None
  }

  /** The three bytes of a number put together again. */
  lemma Rejoined(c: nat)
    ensures Joined(c / 65536, c / 256 % 256, c % 256) == c
  {
    assert c / 65536 == c / 256 / 256;
    assert c / 256 == 256 * (c / 256 / 256) + c / 256 % 256;
  }

  lemma CharOfBytes(c: char, rest: Bytes)
    requires BytesToChars(rest).Some?
    ensures var n := c as int;
            BytesToChars([n / 65536, n / 256 % 256, n % 256] + rest) == Some([c] + BytesToChars(rest).value)
  {
    hide Joined;
    var n := c as int;
    Rejoined(n);
    assert ([n / 65536, n / 256 % 256, n % 256] + rest)[3..] == rest;
  }

  lemma {:induction false} CharsRoundTrip(s: string)
    ensures BytesToChars(CharsToBytes(s)) == Some(s)
  {
    if s != "" {
      CharsRoundTrip(s[1..]);
      CharOfBytes(s[0], CharsToBytes(s[1..]));
      hide BytesToChars;
      assert [s[0]] + s[1..] == s;
    }
  }

  lemma FirstChar(b: Bytes)
    requires b != [] && BytesToChars(b).Some?
    ensures |b| >= 3 && BytesToChars(b[3..]).Some?
    ensures var s := BytesToChars(b).value;
            s != "" && s[0] as int == Joined(b[0], b[1], b[2]) && s[1..] == BytesToChars(b[3..]).value
  {
  }

  lemma ThreeBytes(high: Byte, mid: Byte, low: Byte)
    ensures var c := Joined(high, mid, low);
            c / 65536 == high && c / 256 % 256 == mid && c % 256 == low
  {
    LowByte(256 * high + mid, low);
    LowByte(high, mid);
    HighByte(high, 256 * mid + low);
    assert Joined(high, mid, low) == 256 * (256 * high + mid) + low == 65536 * high + (256 * mid + low);
  }

  lemma LowByte(high: nat, low: nat)
    requires low < 256
    ensures (256 * high + low) / 256 == high && (256 * high + low) % 256 == low
  {
  }

  lemma HighByte(high: nat, low: nat)
    requires low < 65536
    ensures (65536 * high + low) / 65536 == high
  {
  }

  lemma {:induction false} BytesRoundTrip(b: Bytes)
    requires BytesToChars(b).Some?
    ensures CharsToBytes(BytesToChars(b).value) == b
  {
    if b != [] {
      FirstChar(b);
      hide BytesToChars;
      var s := BytesToChars(b).value;
      BytesRoundTrip(b[3..]);
      ThreeBytes(b[0], b[1], b[2]);
      assert CharsToBytes(s) == [b[0], b[1], b[2]] + CharsToBytes(s[1..]);
      assert b == [b[0], b[1], b[2]] + b[3..];
    }
  }

  /** A tag of fourteen zeros followed by 0 and 1. */
  const TAG: Bytes := Zeros(14) + [0, 1]

  const EXAMPLE: Primitives := Primitives(
    _ => Zeros(32),
    secret => Zeros(64),
    chainKey => Zeros(64),
    (key, nonce, plain) => plain + TAG,
    (key, nonce, sealed) => if |sealed| >= TAG_SIZE then Some(sealed[..|sealed| - TAG_SIZE]) else None,
    (pk, coins) => (Zeros(KEM_CT_SIZE), Zeros(32)),
    (sk, ct) => Zeros(32),
    s => CharsToBytes(s),
    b => BytesToChars(b),
    b => HexEncode(b),
    t => HexDecode(t))

  /** The assumptions of the ratchet proofs hold together. */
  lemma ExampleIsSound(pk: Bytes, sk: Bytes)
    ensures EXAMPLE.Sound() && EXAMPLE.HonestPair(pk, sk)
  {
    forall k: Bytes, n: Nonce, m: Bytes ensures EXAMPLE.unseal(k, n, EXAMPLE.seal(k, n, m)) == Some(m) {
      assert (m + TAG)[..|m|] == m;
    }
    forall b: Bytes | EXAMPLE.utf8Decode(b).Some? ensures EXAMPLE.utf8Encode(EXAMPLE.utf8Decode(b).value) == b {
      BytesRoundTrip(b);
    }
    forall s ensures EXAMPLE.utf8Decode(EXAMPLE.utf8Encode(s)) == Some(s) {
      CharsRoundTrip(s);
    }
    forall b ensures EXAMPLE.base64Decode(EXAMPLE.base64Encode(b)) == Some(b) {
      HexRoundTrip(b);
    }
  }

  /** Not every first message can be read: here the tag ends in 0, 1, which the
      receiver takes for a one-byte KEM ciphertext, although both sessions are
      fresh and hold the same chain key. */
  lemma FirstMessageCanBeRefused(chainKey: Bytes, sk: Bytes, nonce: Nonce)
    ensures EXAMPLE.Sound()
    ensures var frame := FirstFrame(EXAMPLE, chainKey, "hello", nonce).0;
            && OpenFrame(EXAMPLE, chainKey, EXAMPLE.base64Encode(frame), sk)
            == Opened(Err(KyberParse), chainKey, false)
            && !FirstFrameReadable(frame)
  {
    ExampleIsSound([], sk);
    var frame := FirstFrame(EXAMPLE, chainKey, "hello", nonce).0;
    HexRoundTrip(frame);
    var body := frame[NONCE_SIZE..];
    assert body == CharsToBytes("hello") + TAG;
    assert Trailer(body) == 1;
  }
}
