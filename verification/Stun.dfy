/** Scanning a STUN response for its mapped address, against the attribute
    encoding of RFC 5389, sections 6, 15 and 15.2. */
module Stun {

  import opened Wrappers
  import opened Bytes

  const HEADER_SIZE: nat := 20
  const XOR_MAPPED_ADDRESS: int := 0x0020
  const IPV4: Byte := 0x01
  const MAGIC_COOKIE: Bytes := [0x21, 0x12, 0xA4, 0x42]

  datatype StunError = TooShort | NotSuccess | NoMappedAddress

  /** An IPv4 address as its four bytes, and a port. */
  datatype StunResult = StunResult(ip: (Byte, Byte, Byte, Byte), port: int)

  // ---------------------------------------------------------------- //
  //  The walk over the attributes                                     //
  // ---------------------------------------------------------------- //

  function AttrType(r: Bytes, at: nat): int
    requires at + 4 <= |r|
  {
    BigEndian16(r[at], r[at + 1])
  }

  function AttrLength(r: Bytes, at: nat): (n: nat)
    requires at + 4 <= |r|
  {
    BigEndian16(r[at + 2], r[at + 3])
  }

  /** The least multiple of four that is at least n. */
  function PaddedLength(n: nat): (r: nat)
    ensures n <= r < n + 4
  {
    if n == 0 then 0 else if n <= 4 then 4 else 4 + PaddedLength(n - 4)
  }

  /** Where the attribute after this one starts. */
  function Next(r: Bytes, at: nat): (next: nat)
    requires at + 4 <= |r|
    ensures next >= at + 4
  {
    at + 4 + PaddedLength(AttrLength(r, at))
  }

  /** at is an attribute boundary of the walk that starts at from. */
  predicate OnWalk(r: Bytes, from: nat, at: nat)
    decreases |r| - from
  {
    from == at || (from < at && from + 4 <= |r| && OnWalk(r, Next(r, from), at))
  }

  /** An attribute the scan takes its answer from: an XOR-MAPPED-ADDRESS with room
      for an IPv4 address, and of that family. */
  predicate Qualifies(r: Bytes, at: nat) {
    && at + 4 <= |r|
    && AttrType(r, at) == XOR_MAPPED_ADDRESS
    && at + 4 + 8 <= |r| && AttrLength(r, at) >= 8
    && r[at + 5] == IPV4
  }

  /** The eight value bytes of an attribute that qualifies. */
  function AddressBytes(r: Bytes, at: nat): (v: Bytes)
    requires at + 12 <= |r|
    ensures |v| == 8
  {
    r[at + 4..at + 12]
  }

  /** XORed byte by byte, as u16 and u32 values in network order are. */
  function Decoded(v: Bytes): StunResult
    requires |v| == 8
  {
    StunResult(
      (Xor(v[4], MAGIC_COOKIE[0]), Xor(v[5], MAGIC_COOKIE[1]),
       Xor(v[6], MAGIC_COOKIE[2]), Xor(v[7], MAGIC_COOKIE[3])),
      BigEndian16(Xor(v[2], MAGIC_COOKIE[0]), Xor(v[3], MAGIC_COOKIE[1])))
  }

  /** The first qualifying attribute from an offset on. */
  function FirstMatch(r: Bytes, from: nat): (m: Option<nat>)
    ensures m.Some? ==> Qualifies(r, m.value)
    decreases |r| - from
  {
    if from + 4 > |r| then None
    else if Qualifies(r, from) then Some(from)
    else FirstMatch(r, Next(r, from))
  }

  function Parsed(r: Bytes): Result<StunResult, StunError> {
    if |r| < HEADER_SIZE then Err(TooShort)
    else if r[0] != 0x01 || r[1] != 0x01 then Err(NotSuccess)
    else
      match FirstMatch(r, HEADER_SIZE)
      case None => Err(NoMappedAddress)
      case Some(at) => Ok(Decoded(AddressBytes(r, at)))
  }

  /** Rounding up by division is rounding up to the least multiple. */
  lemma {:induction false} RoundingUp(n: nat)
    ensures (n + 3) / 4 * 4 == PaddedLength(n)
  {
    if n > 4 {
      RoundingUp(n - 4);
    }
  }

  method DecodeAddress(r: Bytes, at: nat) returns (addr: StunResult)
    requires at + 12 <= |r|
    ensures addr == Decoded(AddressBytes(r, at))
  {
    var port := BigEndian16(Xor(r[at + 6], 0x21), Xor(r[at + 7], 0x12));
    var ip := (Xor(r[at + 8], 0x21), Xor(r[at + 9], 0x12), Xor(r[at + 10], 0xA4), Xor(r[at + 11], 0x42));
    addr := StunResult(ip, port);
  }

  /** The part of query_stun that starts with the received datagram. */
  method ParseResponse(r: Bytes) returns (result: Result<StunResult, StunError>)
    ensures result == Parsed(r)
  {
    if |r| < HEADER_SIZE {
      return Err(TooShort);
    }
    if r[0] != 0x01 || r[1] != 0x01 {
      return Err(NotSuccess);
    }
    var offset := HEADER_SIZE;
    while offset + 4 <= |r|
      invariant FirstMatch(r, offset) == FirstMatch(r, HEADER_SIZE)
      decreases |r| - offset
    {
      var attrType := BigEndian16(r[offset], r[offset + 1]);
      var attrLen := BigEndian16(r[offset + 2], r[offset + 3]);
      if attrType == XOR_MAPPED_ADDRESS {
        if offset + 4 + 8 <= |r| && attrLen >= 8 {
          var family := r[offset + 5];
          if family == IPV4 {
            var addr := DecodeAddress(r, offset);
            return Ok(addr);
          }
        }
      }
      var paddedLen := (attrLen + 3) / 4 * 4;
      RoundingUp(attrLen);
      offset := offset + 4 + paddedLen;
    }
    return Err(NoMappedAddress);
  }

  lemma {:induction false} WalkGoesUp(r: Bytes, from: nat, at: nat)
    requires OnWalk(r, from, at)
    ensures from <= at
  {
  }

  /** The answer comes from an attribute boundary of the walk, from the first one
      that qualifies, and there is none only if no boundary qualifies. */
  lemma {:induction false} FirstMatchMeaning(r: Bytes, from: nat)
    ensures match FirstMatch(r, from)
            case Some(at) =>
              OnWalk(r, from, at) && forall b: nat :: OnWalk(r, from, b) && b < at ==> !Qualifies(r, b)
            case None => forall b: nat :: OnWalk(r, from, b) ==> !Qualifies(r, b)
    decreases |r| - from
  {
    if from + 4 <= |r| && !Qualifies(r, from) {
      FirstMatchMeaning(r, Next(r, from));
    }
    forall b: nat | OnWalk(r, from, b) ensures from <= b {
      WalkGoesUp(r, from, b);
    }
    if from + 4 <= |r| {
      forall at: nat | OnWalk(r, Next(r, from), at) ensures from < at && OnWalk(r, from, at) {
        WalkGoesUp(r, Next(r, from), at);
      }
    }
  }

  // ---------------------------------------------------------------- //
  //  The encoding                                                     //
  // ---------------------------------------------------------------- //

  /** An attribute, with the filler that follows its value. */
  datatype Attribute = Attribute(kind: int, value: Bytes, filler: Bytes)

  predicate WellFormed(a: Attribute) {
    0 <= a.kind < 0x1_0000 && |a.value| < 0x1_0000 && |a.value| + |a.filler| == PaddedLength(|a.value|)
  }

  function EncodeAttribute(a: Attribute): (r: Bytes)
    requires WellFormed(a)
    ensures |r| == 4 + PaddedLength(|a.value|)
  {
    [a.kind / 256, a.kind % 256, |a.value| / 256, |a.value| % 256] + a.value + a.filler
  }

  function EncodeAll(attrs: seq<Attribute>): Bytes
    requires forall i :: 0 <= i < |attrs| ==> WellFormed(attrs[i])
    decreases |attrs|
  {
    if attrs == [] then [] else EncodeAttribute(attrs[0]) + EncodeAll(attrs[1..])
  }

  /** Section 15.2 of RFC 5389: a reserved byte, the family, and port and address
      XORed with the magic cookie. */
  function EncodeAddress(reserved: Byte, addr: StunResult): Bytes
    requires 0 <= addr.port < 0x1_0000
  {
    [reserved, IPV4, Xor(addr.port / 256, MAGIC_COOKIE[0]), Xor(addr.port % 256, MAGIC_COOKIE[1]),
     Xor(addr.ip.0, MAGIC_COOKIE[0]), Xor(addr.ip.1, MAGIC_COOKIE[1]),
     Xor(addr.ip.2, MAGIC_COOKIE[2]), Xor(addr.ip.3, MAGIC_COOKIE[3])]
  }

  /** An attribute that is not an IPv4 mapped address. */
  predicate IsOther(a: Attribute) {
    a.kind != XOR_MAPPED_ADDRESS || |a.value| < 8 || a.value[1] != IPV4
  }

  /** The bytes of piece stand in r from at on. */
  predicate StandsAt(r: Bytes, at: nat, piece: Bytes) {
    at + |piece| <= |r| && r[at..at + |piece|] == piece
  }

  lemma StandsAtSplit(r: Bytes, at: nat, left: Bytes, right: Bytes)
    requires StandsAt(r, at, left + right)
    ensures StandsAt(r, at, left) && StandsAt(r, at + |left|, right)
  {
    var piece := r[at..at + |left + right|];
    assert piece[..|left|] == left && piece[|left|..] == right;
  }

  lemma StandingBytes(r: Bytes, at: nat, piece: Bytes)
    requires StandsAt(r, at, piece)
    ensures at + |piece| <= |r| && forall k :: 0 <= k < |piece| ==> r[at + k] == piece[k]
  {
    forall k | 0 <= k < |piece| ensures r[at + k] == piece[k] {
      assert r[at..at + |piece|][k] == piece[k];
    }
  }

  lemma EncodedHeader(r: Bytes, at: nat, a: Attribute)
    requires WellFormed(a) && StandsAt(r, at, EncodeAttribute(a))
    ensures AttrType(r, at) == a.kind && AttrLength(r, at) == |a.value|
    ensures at + 4 + |a.value| <= |r| && r[at + 4..at + 4 + |a.value|] == a.value
    ensures Next(r, at) == at + |EncodeAttribute(a)|
  {
    var e := EncodeAttribute(a);
    StandingBytes(r, at, e);
    hide StandsAt;
    assert r[at] == e[0] && r[at + 1] == e[1] && r[at + 2] == e[2] && r[at + 3] == e[3];
    assert forall k :: 0 <= k < |a.value| ==> r[at + 4 + k] == e[4 + k] == a.value[k];
  }

  /** Applying the cookie twice gives port and address back. */
  lemma DecodedInvertsEncoding(reserved: Byte, addr: StunResult)
    requires 0 <= addr.port < 0x1_0000
    ensures Decoded(EncodeAddress(reserved, addr)) == addr
  {
    hide Xor;
    XorInvolutive(addr.port / 256, MAGIC_COOKIE[0]);
    XorInvolutive(addr.port % 256, MAGIC_COOKIE[1]);
    XorInvolutive(addr.ip.0, MAGIC_COOKIE[0]);
    XorInvolutive(addr.ip.1, MAGIC_COOKIE[1]);
    XorInvolutive(addr.ip.2, MAGIC_COOKIE[2]);
    XorInvolutive(addr.ip.3, MAGIC_COOKIE[3]);
  }

  lemma ValueStartsWith(r: Bytes, at: nat, a: Attribute, piece: Bytes)
    requires WellFormed(a) && StandsAt(r, at, EncodeAttribute(a))
    requires a.kind == XOR_MAPPED_ADDRESS && |piece| == 8 && piece <= a.value && piece[1] == IPV4
    ensures Qualifies(r, at) && AddressBytes(r, at) == piece
  {
    EncodedHeader(r, at, a);
    assert AddressBytes(r, at) == r[at + 4..at + 4 + |a.value|][..8];
    assert r[at + 5] == AddressBytes(r, at)[1];
  }

  lemma AddressQualifies(r: Bytes, at: nat, a: Attribute, reserved: Byte, addr: StunResult)
    requires WellFormed(a) && StandsAt(r, at, EncodeAttribute(a))
    requires a.kind == XOR_MAPPED_ADDRESS && 0 <= addr.port < 0x1_0000
    requires EncodeAddress(reserved, addr) <= a.value
    ensures Qualifies(r, at) && Decoded(AddressBytes(r, at)) == addr
  {
    ValueStartsWith(r, at, a, EncodeAddress(reserved, addr));
    DecodedInvertsEncoding(reserved, addr);
  }

  lemma OtherDoesNotQualify(r: Bytes, at: nat, a: Attribute)
    requires WellFormed(a) && IsOther(a) && StandsAt(r, at, EncodeAttribute(a))
    ensures !Qualifies(r, at)
  {
    EncodedHeader(r, at, a);
    if |a.value| >= 8 {
      assert r[at + 5] == r[at + 4..at + 4 + |a.value|][1] == a.value[1];
    }
  }

  predicate AllOther(attrs: seq<Attribute>) {
    forall i :: 0 <= i < |attrs| ==> WellFormed(attrs[i]) && IsOther(attrs[i])
  }

  lemma EncodeNone()
    ensures EncodeAll([]) == []
  {
  }

  lemma EncodeAllHead(attrs: seq<Attribute>)
    requires AllOther(attrs) && attrs != []
    ensures AllOther(attrs[1..]) && WellFormed(attrs[0]) && IsOther(attrs[0])
    ensures EncodeAll(attrs) == EncodeAttribute(attrs[0]) + EncodeAll(attrs[1..])
  {
  }

  lemma ScanSkipsOne(r: Bytes, at: nat, a: Attribute)
    requires WellFormed(a) && IsOther(a) && StandsAt(r, at, EncodeAttribute(a))
    ensures FirstMatch(r, at) == FirstMatch(r, at + |EncodeAttribute(a)|)
  {
    EncodedHeader(r, at, a);
    OtherDoesNotQualify(r, at, a);
  }

  /** The scan steps over any other attributes. */
  lemma {:induction false} ScanSkipsOthers(r: Bytes, at: nat, others: seq<Attribute>, end: nat)
    requires AllOther(others) && StandsAt(r, at, EncodeAll(others)) && end == at + |EncodeAll(others)|
    ensures FirstMatch(r, at) == FirstMatch(r, end)
    decreases |others|
  {
    hide FirstMatch, StandsAt, EncodeAttribute, EncodeAll, WellFormed, IsOther, AllOther;
    if others == [] {
      EncodeNone();
    } else {
      EncodeAllHead(others);
      StandsAtSplit(r, at, EncodeAttribute(others[0]), EncodeAll(others[1..]));
      ScanSkipsOne(r, at, others[0]);
      ScanSkipsOthers(r, at + |EncodeAttribute(others[0])|, others[1..], end);
    }
  }

  /** Parsing inverts the encoding: any success response whose first IPv4
      XOR-MAPPED-ADDRESS carries an address, after any other attributes of any
      length and before anything at all, is parsed to exactly that address. */
  lemma ParsingInvertsEncoding(header: Bytes, others: seq<Attribute>, a: Attribute, after: Bytes,
                               reserved: Byte, addr: StunResult)
    requires |header| == HEADER_SIZE && header[0] == 0x01 && header[1] == 0x01
    requires AllOther(others)
    requires WellFormed(a) && a.kind == XOR_MAPPED_ADDRESS && 0 <= addr.port < 0x1_0000
    requires EncodeAddress(reserved, addr) <= a.value
    ensures Parsed(header + (EncodeAll(others) + EncodeAttribute(a)) + after) == Ok(addr)
  {
    var skipped, mapped := EncodeAll(others), EncodeAttribute(a);
    var r := header + (skipped + mapped) + after;
    assert StandsAt(r, HEADER_SIZE, skipped + mapped);
    StandsAtSplit(r, HEADER_SIZE, skipped, mapped);
    ScanSkipsOthers(r, HEADER_SIZE, others, HEADER_SIZE + |skipped|);
    AddressQualifies(r, HEADER_SIZE + |skipped|, a, reserved, addr);
  }

  // ---------------------------------------------------------------- //
  //  Any datagram                                                     //
  // ---------------------------------------------------------------- //

  /** An attribute of type 0x0020 and of length eight or more begins here, with the IPv4
      family and eight value bytes inside the datagram; the rest may be cut off. */
  predicate CarriesAddress(r: Bytes, at: nat) {
    && at + 12 <= |r|
    && r[at] == 0x00 && r[at + 1] == 0x20
    && 256 * (r[at + 2] as int) + r[at + 3] as int >= 8
    && r[at + 5] == 0x01
  }

  /** A datagram is refused if it has fewer than 20 bytes, if it is not a success
      response, or if no attribute boundary carries an address; otherwise the answer is
      decoded from the first one that does. */
  lemma ParsingExact(r: Bytes)
    ensures match Parsed(r)
            case Err(TooShort) => |r| < 20
            case Err(NotSuccess) => |r| >= 20 && r[..2] != [0x01, 0x01]
            case Err(NoMappedAddress) =>
              |r| >= 20 && r[..2] == [0x01, 0x01] && forall at: nat :: OnWalk(r, 20, at) ==> !CarriesAddress(r, at)
            case Ok(addr) =>
              && |r| >= 20 && r[..2] == [0x01, 0x01]
              && exists at: nat ::
                   && OnWalk(r, 20, at) && CarriesAddress(r, at)
                   && addr == Decoded(r[at + 4..at + 12])
                   && forall b: nat :: OnWalk(r, 20, b) && b < at ==> !CarriesAddress(r, b)
  {
    FirstMatchMeaning(r, 20);
    forall at: nat ensures Qualifies(r, at) <==> CarriesAddress(r, at) {
      QualifiesMeans(r, at);
    }
    if |r| >= 20 {
      assert r[..2] == [r[0], r[1]];
    }
  }

  lemma QualifiesMeans(r: Bytes, at: nat)
    ensures Qualifies(r, at) <==> CarriesAddress(r, at)
  {
  }
}
