/** Proof of work: counting leading zero bits, checking a nonce, and searching
    for one. */
module Pow {

  import opened Wrappers
  import opened Bytes
  import opened Powers

  const MIN_DIFFICULTY: nat := 8
  const HASH_LEN: nat := 32

  /** The ASCII bytes of "nullnode-dht-pow". */
  const POW_SALT: Bytes :=
    [0x6e, 0x75, 0x6c, 0x6c, 0x6e, 0x6f, 0x64, 0x65, 0x2d, 0x64, 0x68, 0x74, 0x2d, 0x70, 0x6f, 0x77]

  datatype PowError = DifficultyTooLow | HashFailed

  type Hash = h: Bytes | |h| == HASH_LEN witness seq(HASH_LEN, _ => 0)

  /** Argon2id of a password and a salt; None if hashing fails. */
  type Argon2 = (string, Bytes) -> Option<Hash>

  // ---------------------------------------------------------------- //
  //  Leading zero bits                                                //
  // ---------------------------------------------------------------- //

  /** Leading zero bits of a non-zero byte. */
  function ByteZeros(b: int): (n: nat)
    requires 0 < b < 256
    decreases 256 - b
  {
    if b >= 128 then 0 else 1 + ByteZeros(2 * b)
  }

  function ZeroBits(h: Bytes): (n: nat) {
    if h == [] then 0
    else if h[0] == 0 then 8 + ZeroBits(h[1..])
    else ByteZeros(h[0])
  }

  /** The bytes as a big-endian number. */
  function Value(h: Bytes): (v: nat) {
    if h == [] then 0 else h[0] * Pow2(8 * (|h| - 1)) + Value(h[1..])
  }

  /** What the bit tricks of the inner loop mean for a byte. */
  lemma HighBit(b: bv8)
    ensures (b & 0x80 == 0) <==> b as int < 128
    ensures b as int < 128 ==> (b << 1) as int == 2 * (b as int)
  {
    HighBitTest(b);
    if b < 128 {
      ShiftDoubles(b);
    }
  }

  lemma HighBitTest(b: bv8)
    ensures (b & 0x80 == 0) <==> b as int < 128
  {
  }

  lemma ShiftDoubles(b: bv8)
    requires b < 128
    ensures (b << 1) as int == 2 * (b as int)
  {
  }

  /** The inner loop, shifting a byte until its high bit is set. */
  method LeadingZerosOfByte(byte: Byte) returns (bits: nat)
    requires byte != 0
    ensures bits == ByteZeros(byte)
  {
    bits := 0;
    var b := ToBits(byte);
    BytesFirst(byte);
    while b > 0 && b & 0x80 == 0
      invariant 0 < b as int < 256
      invariant bits + ByteZeros(b as int) == ByteZeros(byte)
      decreases 256 - b as int
    {
      HighBit(b);
      bits := bits + 1;
      b := b << 1;
    }
    HighBit(b);
  }

  method LeadingZeroBits(hash: Bytes) returns (bits: nat)
    ensures bits == ZeroBits(hash)
  {
    bits := 0;
    for i := 0 to |hash|
      invariant bits + ZeroBits(hash[i..]) == ZeroBits(hash)
    {
      var byte := hash[i];
      assert hash[i..][1..] == hash[i + 1..];
      if byte == 0 {
        bits := bits + 8;
      } else {
        var rest := LeadingZerosOfByte(byte);
        bits := bits + rest;
        return;
      }
    }
    assert hash[|hash|..] == [];
  }

  // ---------------------------------------------------------------- //
  //  The numeric threshold                                            //
  // ---------------------------------------------------------------- //

  lemma {:induction false} ScaleLess(a: nat, b: nat, k: nat)
    requires a < b
    ensures a * k + k <= b * k
    decreases b
  {
    assert b * k == (b - 1) * k + k;
    if a < b - 1 {
      ScaleLess(a, b - 1, k);
    }
  }

  lemma {:induction false} ValueBound(h: Bytes)
    ensures Value(h) < Pow2(8 * |h|)
  {
    if h != [] {
      var unit := Pow2(8 * (|h| - 1));
      ValueBound(h[1..]);
      Pow2Add(8, 8 * (|h| - 1));
      assert Pow2(8) == 256 by {
        assert Pow2(4) == 16;
      }
      ScaleLess(h[0], 256, unit);
    }
  }

  lemma {:induction false} ByteThreshold(b: int, d: nat)
    requires 0 < b < 256 && d <= 8
    ensures ByteZeros(b) >= d <==> b < Pow2(8 - d)
    decreases 256 - b
  {
    assert Pow2(4) == 16;
    assert Pow2(7) == 128 && Pow2(8) == 256;
    if b >= 128 {
      if d > 0 {
        Pow2Monotone(8 - d, 7);
      }
    } else if d > 0 {
      ByteThreshold(2 * b, d - 1);
    }
  }

  /** The leading byte decides a comparison with a power of two that is at least
      one unit of it. */
  lemma LeadingByteDecides(h: Bytes, e: nat)
    requires h != [] && e >= 8 * (|h| - 1)
    ensures Value(h) < Pow2(e) <==> h[0] < Pow2(e - 8 * (|h| - 1))
  {
    var low := 8 * (|h| - 1);
    var unit, bound := Pow2(low), Pow2(e - low);
    ValueBound(h[1..]);
    Pow2Add(e - low, low);
    assert Pow2(e) == bound * unit;
    if h[0] < bound {
      ScaleLess(h[0], bound, unit);
    } else if h[0] > bound {
      ScaleLess(bound, h[0], unit);
    }
  }

  lemma ZeroHead(h: Bytes)
    requires h != [] && h[0] == 0
    ensures Value(h) == Value(h[1..]) && ZeroBits(h) == 8 + ZeroBits(h[1..])
  {
  }

  /** Counting leading zero bits is comparing with a power of two: h has at least
      d of them if and only if its big-endian value is below 2^(8|h| - d). */
  lemma {:induction false} ThresholdExact(h: Bytes, d: nat)
    requires d <= 8 * |h|
    ensures ZeroBits(h) >= d <==> Value(h) < Pow2(8 * |h| - d)
  {
    if h == [] {
    } else if h[0] == 0 {
      ValueBound(h[1..]);
      ZeroHead(h);
      hide Pow2, Value, ZeroBits;
      if d >= 8 {
        ThresholdExact(h[1..], d - 8);
      } else {
        Pow2Monotone(8 * (|h| - 1), 8 * |h| - d);
      }
    } else if d <= 8 {
      ByteThreshold(h[0], d);
      LeadingByteDecides(h, 8 * |h| - d);
    } else {
      ByteThreshold(h[0], 8);
      LeadingByteDecides(h, 8 * (|h| - 1));
      Pow2Monotone(8 * |h| - d, 8 * (|h| - 1));
    }
  }

  // ---------------------------------------------------------------- //
  //  Checking and searching                                           //
  // ---------------------------------------------------------------- //

  function Digit(d: nat): char
    requires d < 10
  {
    '0' + d as char
  }

  /** Decimal notation of a number. */
  function Decimal(n: nat): (s: string) {
    if n < 10 then [Digit(n)] else Decimal(n / 10) + [Digit(n % 10)]
  }

  /** The number that decimal digits spell. */
  function Spelled(s: string): int {
    if s == "" then 0 else 10 * Spelled(s[..|s| - 1]) + (s[|s| - 1] as int - '0' as int)
  }

  /** Decimal notation spells the number, in decimal digits and without a leading zero. */
  lemma {:induction false} DecimalSpells(n: nat)
    ensures Spelled(Decimal(n)) == n
    ensures forall i :: 0 <= i < |Decimal(n)| ==> '0' <= Decimal(n)[i] <= '9'
    ensures Decimal(n) != "" && (Decimal(n)[0] == '0' ==> n == 0)
  {
    if n >= 10 {
      DecimalSpells(n / 10);
      assert Decimal(n)[..|Decimal(n)| - 1] == Decimal(n / 10);
    }
  }

  function Secret(data: string, nonce: nat): string {
    data + ":" + Decimal(nonce)
  }

  function NodePowSalt(nodeSecret: Bytes): Bytes {
    POW_SALT + nodeSecret
  }

  function Checked(argon2: Argon2, data: string, nonce: nat, difficulty: nat, nodeSecret: Bytes)
    : Result<bool, PowError>
  {
    if difficulty < MIN_DIFFICULTY then Err(DifficultyTooLow)
    else
      match argon2(Secret(data, nonce), NodePowSalt(nodeSecret))
      case None => Err(HashFailed)
      case Some(raw) => Ok(ZeroBits(raw) >= difficulty)
  }

  method PowCheck(argon2: Argon2, data: string, nonce: nat, difficulty: nat, nodeSecret: Bytes)
    returns (r: Result<bool, PowError>)
    ensures r == Checked(argon2, data, nonce, difficulty, nodeSecret)
  {
    if difficulty < MIN_DIFFICULTY {
      return Err(DifficultyTooLow);
    }
    var raw := argon2(Secret(data, nonce), NodePowSalt(nodeSecret));
    if raw == None {
      return Err(HashFailed);
    }
    var bits := LeadingZeroBits(raw.value);
    return Ok(bits >= difficulty);
  }

  /** Every nonce below n is refused. */
  ghost predicate AllRefused(argon2: Argon2, data: string, n: nat, difficulty: nat, nodeSecret: Bytes) {
    forall m: nat :: m < n ==> Checked(argon2, data, m, difficulty, nodeSecret) == Ok(false)
  }

  /** Sound, complete and minimal: the least nonce that the check accepts, none if
      the check refuses them all, an error only where the check reports one before
      it accepts any. */
  method PowSolve(argon2: Argon2, data: string, difficulty: nat, maxAttempts: nat, nodeSecret: Bytes)
    returns (r: Result<Option<nat>, PowError>)
    ensures r.Ok? && r.value.Some? ==>
              && r.value.value < maxAttempts
              && Checked(argon2, data, r.value.value, difficulty, nodeSecret) == Ok(true)
              && AllRefused(argon2, data, r.value.value, difficulty, nodeSecret)
    ensures r == Ok(None) ==>
              difficulty >= MIN_DIFFICULTY && AllRefused(argon2, data, maxAttempts, difficulty, nodeSecret)
    ensures r == Err(DifficultyTooLow) <==> difficulty < MIN_DIFFICULTY
    ensures r == Err(HashFailed) ==>
              exists n: nat :: n < maxAttempts
                && Checked(argon2, data, n, difficulty, nodeSecret) == Err(HashFailed)
                && AllRefused(argon2, data, n, difficulty, nodeSecret)
  {
    if difficulty < MIN_DIFFICULTY {
      return Err(DifficultyTooLow);
    }
    var salt := NodePowSalt(nodeSecret);
    for nonce := 0 to maxAttempts
      invariant AllRefused(argon2, data, nonce, difficulty, nodeSecret)
    {
      var raw := argon2(Secret(data, nonce), salt);
      if raw == None {
        return Err(HashFailed);
      }
      var bits := LeadingZeroBits(raw.value);
      if bits >= difficulty {
        return Ok(Some(nonce));
      }
    }
    return Ok(None);
  }

  /** A nonce is valid exactly when its hash, read as a 256-bit number, lies below
      2^(256 - difficulty); above 256 bits no nonce is. */
  lemma AcceptanceIsThreshold(argon2: Argon2, data: string, nonce: nat, difficulty: nat, nodeSecret: Bytes)
    ensures var answer := Checked(argon2, data, nonce, difficulty, nodeSecret);
            if difficulty < 8 then answer == Err(DifficultyTooLow)
            else
              match argon2(data + ":" + Decimal(nonce), POW_SALT + nodeSecret)
              case None => answer == Err(HashFailed)
              case Some(raw) => answer == Ok(difficulty <= 256 && Value(raw) < Pow2(256 - difficulty))
  {
    var raw := argon2(Secret(data, nonce), NodePowSalt(nodeSecret));
    if raw.Some? {
      if difficulty <= 256 {
        ThresholdExact(raw.value, difficulty);
      } else {
        ZeroBitsBound(raw.value);
      }
    }
  }

  lemma {:induction false} ZeroBitsBound(h: Bytes)
    ensures ZeroBits(h) <= 8 * |h|
  {
    if h == [] {
    } else if h[0] == 0 {
      ZeroBitsBound(h[1..]);
    } else {
      ByteThreshold(h[0], 8);
    }
  }

  // ---------------------------------------------------------------- //
  //  The hashed string                                                //
  // ---------------------------------------------------------------- //

  lemma {:induction false} DecimalHasNoColon(n: nat)
    ensures |Decimal(n)| >= 1 && forall i :: 0 <= i < |Decimal(n)| ==> Decimal(n)[i] != ':'
  {
    if n >= 10 {
      DecimalHasNoColon(n / 10);
    }
  }

  lemma {:induction false} DecimalInjective(m: nat, n: nat)
    requires Decimal(m) == Decimal(n)
    ensures m == n
  {
    var s := Decimal(m);
    DecimalHasNoColon(m / 10);
    DecimalHasNoColon(n / 10);
    assert s[|s| - 1] == Digit(m % 10) == Digit(n % 10);
    if m >= 10 && n >= 10 {
      assert s[..|s| - 1] == Decimal(m / 10) == Decimal(n / 10);
      DecimalInjective(m / 10, n / 10);
    }
  }

  lemma SecretShape(data: string, nonce: nat)
    ensures var s, d := Secret(data, nonce), |Decimal(nonce)|;
            && |s| == |data| + 1 + d
            && s[|s| - 1 - d] == ':'
            && s[..|s| - 1 - d] == data
            && s[|s| - d..] == Decimal(nonce)
            && forall i :: |s| - d <= i < |s| ==> s[i] != ':'
  {
    DecimalHasNoColon(nonce);
  }

  /** Different work is hashed differently: the string is injective in data and
      nonce together, and the salt in the node's secret. */
  lemma WorkIsInjective(data: string, nonce: nat, data': string, nonce': nat)
    requires Secret(data, nonce) == Secret(data', nonce')
    ensures data == data' && nonce == nonce'
  {
    SecretShape(data, nonce);
    SecretShape(data', nonce');
    assert |Decimal(nonce)| == |Decimal(nonce')|;
    DecimalInjective(nonce, nonce');
  }

  lemma SaltIsInjective(a: Bytes, b: Bytes)
    requires NodePowSalt(a) == NodePowSalt(b)
    ensures a == b
  {
    assert NodePowSalt(a)[|POW_SALT|..] == a;
  }
}
