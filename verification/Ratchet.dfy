/** The Double Ratchet session: two symmetric chains, a fresh KEM secret mixed
    into every message but the first, and a wire frame that is parsed from its
    tail. */
module Ratchet {

  import opened Wrappers
  import opened Bytes

  const NONCE_SIZE: nat := 12
  const TAG_SIZE: nat := 16
  const KEM_CT_SIZE: nat := 1568
  const MIN_SECRET_SIZE: nat := 32

  type Block64 = b: Bytes | |b| == 64 witness seq(64, _ => 0)
  type Nonce = b: Bytes | |b| == NONCE_SIZE witness seq(NONCE_SIZE, _ => 0)
  type KemCiphertext = b: Bytes | |b| == KEM_CT_SIZE witness seq(KEM_CT_SIZE, _ => 0)

  /** The library calls the session is built on. Nothing is known of them but
      what Sound and HonestPair say. */
  datatype Primitives = Primitives(
    hkdfRoot: Bytes -> Bytes,
    hkdfChains: Bytes -> Block64,
    hkdfStep: Bytes -> Block64,
    seal: (Bytes, Nonce, Bytes) -> Bytes,
    unseal: (Bytes, Nonce, Bytes) -> Option<Bytes>,
    encapsulate: (Bytes, Bytes) -> (KemCiphertext, Bytes),
    decapsulate: (Bytes, KemCiphertext) -> Bytes,
    utf8Encode: string -> Bytes,
    utf8Decode: Bytes -> Option<string>,
    base64Encode: Bytes -> string,
    base64Decode: string -> Option<Bytes>)
  {
    /** The AEAD opens what it sealed under the same key and nonce, and whatever it
        opens is 16 bytes longer than the plaintext; a KEM secret has 32 bytes; the
        codecs are inverse pairs, and UTF-8 has no second encoding of a text. */
    ghost predicate Sound() {
      && (forall k, n, m :: unseal(k, n, seal(k, n, m)) == Some(m))
      && (forall k, n, m :: |seal(k, n, m)| == |m| + TAG_SIZE)
      && (forall k, n, c :: unseal(k, n, c).Some? ==> |c| == |unseal(k, n, c).value| + TAG_SIZE)
      && (forall pk, r :: |encapsulate(pk, r).1| == 32)
      && (forall s :: utf8Decode(utf8Encode(s)) == Some(s))
      && (forall b :: utf8Decode(b).Some? ==> utf8Encode(utf8Decode(b).value) == b)
      && (forall b :: base64Decode(base64Encode(b)) == Some(b))
    }

    /** sk decapsulates what was encapsulated to pk. */
    ghost predicate HonestPair(pk: Bytes, sk: Bytes) {
      forall r :: decapsulate(sk, encapsulate(pk, r).0) == encapsulate(pk, r).1
    }
  }

  datatype RatchetError =
    | SecretTooShort
    | BadBase64
    | FrameTooShort
    | KyberParse
    | AeadRejected
    | NotUtf8

  datatype RatchetState = RatchetState(
    peerFp: string,
    peerNid: string,
    ourFp: string,
    isInitiator: bool,
    rootKey: Bytes,
    sendChainKey: Bytes,
    recvChainKey: Bytes,
    sendMessageNumber: nat,
    recvMessageNumber: nat)

  // ---------------------------------------------------------------- //
  //  Specification                                                    //
  // ---------------------------------------------------------------- //

  function InitialState(p: Primitives, peerFp: string, peerNid: string, ourFp: string,
                        isInitiator: bool, secret: Bytes): Result<RatchetState, RatchetError> {
    if |secret| < MIN_SECRET_SIZE then Err(SecretTooShort)
    else
      var chains := p.hkdfChains(secret);
      var (sendKey, recvKey) :=
        if isInitiator then (chains[..32], chains[32..]) else (chains[32..], chains[..32]);
      Ok(RatchetState(peerFp, peerNid, ourFp, isInitiator, p.hkdfRoot(secret), sendKey, recvKey, 0, 0))
  }

  /** The message key and the next chain key. */
  function DeriveMessageKey(p: Primitives, chainKey: Bytes): (Bytes, Bytes) {
    var output := p.hkdfStep(chainKey);
    (output[..32], output[32..])
  }

  /** A frame without trailer, and the chain key after it. */
  function FirstFrame(p: Primitives, chainKey: Bytes, plaintext: string, nonce: Nonce): (Bytes, Bytes) {
    var (key, next) := DeriveMessageKey(p, chainKey);
    (nonce + p.seal(key, nonce, p.utf8Encode(plaintext)), next)
  }

  /** u16::to_be_bytes of the KEM ciphertext length. */
  const KEM_TRAILER: Bytes := [KEM_CT_SIZE / 256, KEM_CT_SIZE % 256]

  /** A frame that carries a KEM ciphertext and its length behind the AEAD
      ciphertext, and the chain key after it. */
  function MixedFrame(p: Primitives, chainKey: Bytes, plaintext: string, pk: Bytes, coins: Bytes,
                      nonce: Nonce): (Bytes, Bytes) {
    var (kemCt, secret) := p.encapsulate(pk, coins);
    var (key, next) := DeriveMessageKey(p, chainKey + secret);
    (nonce + p.seal(key, nonce, p.utf8Encode(plaintext)) + kemCt + KEM_TRAILER, next)
  }

  /** The length a frame body claims in its last two bytes. */
  function Trailer(body: Bytes): int
    requires |body| >= 2
  {
    BigEndian16(body[|body| - 2], body[|body| - 1])
  }

  /** True when the receiver looks for a KEM ciphertext in the body. */
  predicate LooksMixed(body: Bytes) {
    |body| > 2 && 0 < Trailer(body) <= |body| - 2
  }

  /** What one frame does to a receiver: the answer, the receive chain key
      afterwards, and whether the message was counted. */
  datatype Opened = Opened(result: Result<string, RatchetError>, chainKey: Bytes, counted: bool)

  function Unlock(p: Primitives, keys: (Bytes, Bytes), nonce: Nonce, sealed: Bytes): Opened {
    match p.unseal(keys.0, nonce, sealed)
    case None => Opened(Err(AeadRejected), keys.1, false)
    case Some(plain) =>
      match p.utf8Decode(plain)
      case None => Opened(Err(NotUtf8), keys.1, true)
      case Some(s) => Opened(Ok(s), keys.1, true)
  }

  function OpenFrame(p: Primitives, chainKey: Bytes, text: string, sk: Bytes): Opened {
    match p.base64Decode(text)
    case None => Opened(Err(BadBase64), chainKey, false)
    case Some(raw) =>
      if |raw| < NONCE_SIZE + 16 + 2 then Opened(Err(FrameTooShort), chainKey, false)
      else
        var nonce, body := raw[..NONCE_SIZE], raw[NONCE_SIZE..];
        if LooksMixed(body) then
          var end := |body| - 2 - Trailer(body);
          var kem := body[end..|body| - 2];
          if |kem| != KEM_CT_SIZE then Opened(Err(KyberParse), chainKey, false)
          else Unlock(p, DeriveMessageKey(p, chainKey + p.decapsulate(sk, kem)), nonce, body[..end])
        else Unlock(p, DeriveMessageKey(p, chainKey), nonce, body)
  }

  /** The whole session after a decryption attempt, successful or not. */
  function Received(st: RatchetState, o: Opened): RatchetState {
    st.(recvChainKey := o.chainKey,
        recvMessageNumber := if o.counted then st.recvMessageNumber + 1 else st.recvMessageNumber)
  }

  function Sent(st: RatchetState, nextKey: Bytes): RatchetState {
    st.(sendChainKey := nextKey, sendMessageNumber := st.sendMessageNumber + 1)
  }

  // ---------------------------------------------------------------- //
  //  The session object                                               //
  // ---------------------------------------------------------------- //

  class DoubleRatchetSession {
    var state: RatchetState

    /** Deserialising a stored session. */
    constructor Restore(st: RatchetState)
      ensures state == st
    {
      state := st;
    }

    static method Create(p: Primitives, peerFp: string, peerNid: string, ourFp: string,
                         isInitiator: bool, secret: Bytes)
      returns (r: Result<DoubleRatchetSession, RatchetError>)
      ensures r.Ok? <==> |secret| >= MIN_SECRET_SIZE
      ensures r.Ok? ==> fresh(r.value)
      ensures match r
              case Ok(session) =>
                && Ok(session.state) == InitialState(p, peerFp, peerNid, ourFp, isInitiator, secret)
                && var first, second := p.hkdfChains(secret)[..32], p.hkdfChains(secret)[32..];
                   session.state ==
                     RatchetState(peerFp, peerNid, ourFp, isInitiator, p.hkdfRoot(secret),
                                  if isInitiator then first else second, if isInitiator then second else first, 0, 0)
              case Err(e) =>
                e == SecretTooShort && InitialState(p, peerFp, peerNid, ourFp, isInitiator, secret) == Err(e)
    {
      if |secret| < MIN_SECRET_SIZE {
        return Err(SecretTooShort);
      }
      var rootKey := p.hkdfRoot(secret);
      var chains := p.hkdfChains(secret);
      var sendKey, recvKey;
      if isInitiator {
        sendKey, recvKey := chains[..32], chains[32..];
      } else {
        sendKey, recvKey := chains[32..], chains[..32];
      }
      var session := new DoubleRatchetSession.Restore(
        RatchetState(peerFp, peerNid, ourFp, isInitiator, rootKey, sendKey, recvKey, 0, 0));
      return Ok(session);
    }

    method EncryptFirst(p: Primitives, plaintext: string, nonce: Nonce) returns (frame: Bytes)
      modifies this
      ensures (frame, state.sendChainKey) == FirstFrame(p, old(state).sendChainKey, plaintext, nonce)
      ensures state == Sent(old(state), state.sendChainKey)
      ensures var step := p.hkdfStep(old(state).sendChainKey);
              && frame == nonce + p.seal(step[..32], nonce, p.utf8Encode(plaintext))
              && state == old(state).(sendChainKey := step[32..],
                                      sendMessageNumber := old(state).sendMessageNumber + 1)
    {
      var (key, next) := DeriveMessageKey(p, state.sendChainKey);
      state := state.(sendChainKey := next);
      var sealed := p.seal(key, nonce, p.utf8Encode(plaintext));
      frame := nonce;
      frame := frame + sealed;
      state := state.(sendMessageNumber := state.sendMessageNumber + 1);
    }

    method EncryptMessage(p: Primitives, plaintext: string, pk: Bytes, coins: Bytes, nonce: Nonce)
      returns (frame: Bytes)
      modifies this
      ensures (frame, state.sendChainKey)
           == MixedFrame(p, old(state).sendChainKey, plaintext, pk, coins, nonce)
      ensures state == Sent(old(state), state.sendChainKey)
      ensures var (kemCt, secret) := p.encapsulate(pk, coins);
              var step := p.hkdfStep(old(state).sendChainKey + secret);
              && frame == nonce + p.seal(step[..32], nonce, p.utf8Encode(plaintext)) + kemCt + [6, 32]
              && state == old(state).(sendChainKey := step[32..],
                                      sendMessageNumber := old(state).sendMessageNumber + 1)
    {
      var (kemCt, secret) := p.encapsulate(pk, coins);
      var mixed := state.sendChainKey + secret;
      var (key, next) := DeriveMessageKey(p, mixed);
      state := state.(sendChainKey := next);
      var sealed := p.seal(key, nonce, p.utf8Encode(plaintext));
      frame := nonce;
      frame := frame + sealed;
      frame := frame + kemCt;
      frame := frame + [|kemCt| / 256, |kemCt| % 256];
      state := state.(sendMessageNumber := state.sendMessageNumber + 1);
    }

    method DecryptMessage(p: Primitives, text: string, sk: Bytes) returns (r: Result<string, RatchetError>)
      modifies this
      ensures var o := OpenFrame(p, old(state).recvChainKey, text, sk);
              && r == o.result && state == Received(old(state), o)
              && state == old(state).(recvChainKey := o.chainKey,
                                      recvMessageNumber := old(state).recvMessageNumber + if o.counted then 1 else 0)
    {
      var decoded := p.base64Decode(text);
      if decoded == None {
        return Err(BadBase64);
      }
      var raw := decoded.value;
      if |raw| < NONCE_SIZE + 16 + 2 {
        return Err(FrameTooShort);
      }
      var nonce, body := raw[..NONCE_SIZE], raw[NONCE_SIZE..];
      var plain: Bytes;
      var kyberLen := Trailer(body);
      if |body| > 2 && kyberLen > 0 && kyberLen + 2 <= |body| {
        var end := |body| - 2 - kyberLen;
        var sealed, kem := body[..end], body[end..|body| - 2];
        if |kem| != KEM_CT_SIZE {
          return Err(KyberParse);
        }
        var secret := p.decapsulate(sk, kem);
        var mixed := state.recvChainKey + secret;
        var (key, next) := DeriveMessageKey(p, mixed);
        state := state.(recvChainKey := next);
        var answer := p.unseal(key, nonce, sealed);
        if answer == None {
          return Err(AeadRejected);
        }
        state := state.(recvMessageNumber := state.recvMessageNumber + 1);
        plain := answer.value;
      } else {
        var answer := SimpleDecrypt(p, nonce, body);
        if answer.Err? {
          return Err(answer.error);
        }
        plain := answer.value;
      }
      var utf8 := p.utf8Decode(plain);
      return if utf8 == None then Err(NotUtf8) else Ok(utf8.value);
    }

    method SimpleDecrypt(p: Primitives, nonce: Nonce, body: Bytes) returns (r: Result<Bytes, RatchetError>)
      modifies this
      ensures var step := p.hkdfStep(old(state).recvChainKey);
              match p.unseal(step[..32], nonce, body)
              case None =>
                r == Err(AeadRejected) && state == old(state).(recvChainKey := step[32..])
              case Some(plain) =>
                r == Ok(plain) &&
                state == old(state).(recvChainKey := step[32..],
                                     recvMessageNumber := old(state).recvMessageNumber + 1)
    {
      var (key, next) := DeriveMessageKey(p, state.recvChainKey);
      state := state.(recvChainKey := next);
      var answer := p.unseal(key, nonce, body);
      if answer == None {
        return Err(AeadRejected);
      }
      state := state.(recvMessageNumber := state.recvMessageNumber + 1);
      return Ok(answer.value);
    }
  }

  // ---------------------------------------------------------------- //
  //  Single frames                                                    //
  // ---------------------------------------------------------------- //

  /** A step of the chain loses nothing: the message key of 32 bytes and the next chain
      key are the derived output. */
  lemma ChainStep(p: Primitives, chainKey: Bytes)
    ensures var (key, next) := DeriveMessageKey(p, chainKey);
            |key| == 32 && key + next == p.hkdfStep(chainKey)
  {
    var output := p.hkdfStep(chainKey);
    assert output[..32] + output[32..] == output;
  }

  /** What the receiver makes of a text sealed under the key that follows a chain key:
      the chain has moved whatever the AEAD answers, the counter only if it opens. */
  predicate OpenedUnder(p: Primitives, chainKey: Bytes, nonce: Nonce, sealed: Bytes, o: Opened) {
    var step := p.hkdfStep(chainKey);
    && o.chainKey == step[32..]
    && match p.unseal(step[..32], nonce, sealed)
       case None => o.result == Err(AeadRejected) && !o.counted
       case Some(plain) =>
         && o.counted
         && (if p.utf8Decode(plain).Some? then o.result == Ok(p.utf8Decode(plain).value) else o.result == Err(NotUtf8))
  }

  /** A frame whose last two bytes give the length of what stands before them: it is a
      KEM ciphertext, which must have its one size, and its secret is mixed in. */
  lemma OpensTagged(p: Primitives, chainKey: Bytes, text: string, sk: Bytes, nonce: Nonce, sealed: Bytes, kem: Bytes)
    requires 0 < |kem| < 0x1_0000
    requires p.base64Decode(text) == Some(nonce + sealed + kem + [|kem| / 256, |kem| % 256])
    ensures var o := OpenFrame(p, chainKey, text, sk);
            if |sealed| + |kem| < 16 then o == Opened(Err(FrameTooShort), chainKey, false)
            else if |kem| != KEM_CT_SIZE then o == Opened(Err(KyberParse), chainKey, false)
            else OpenedUnder(p, chainKey + p.decapsulate(sk, kem), nonce, sealed, o)
  {
    var raw := nonce + sealed + kem + [|kem| / 256, |kem| % 256];
    var body := raw[NONCE_SIZE..];
    assert raw[..NONCE_SIZE] == nonce;
    assert body == sealed + kem + [|kem| / 256, |kem| % 256];
    assert Trailer(body) == |kem|;
    assert body[..|sealed|] == sealed;
    assert body[|sealed|..|body| - 2] == kem;
  }

  /** Any other frame of 30 bytes or more is opened with nothing mixed in. */
  lemma OpensUntagged(p: Primitives, chainKey: Bytes, text: string, sk: Bytes, nonce: Nonce, body: Bytes)
    requires p.base64Decode(text) == Some(nonce + body) && |body| >= 2
    requires var claimed: int := 256 * (body[|body| - 2] as int) + body[|body| - 1];
             claimed == 0 || claimed > |body| - 2
    ensures var o := OpenFrame(p, chainKey, text, sk);
            if |body| < 18 then o == Opened(Err(FrameTooShort), chainKey, false)
            else OpenedUnder(p, chainKey, nonce, body, o)
  {
    var raw := nonce + body;
    assert raw[..NONCE_SIZE] == nonce && raw[NONCE_SIZE..] == body;
  }

  /** Two sessions built on one secret with opposite roles face each other. */
  lemma OppositeRoles(p: Primitives, secret: Bytes, fpA: string, nidA: string, fpB: string, nidB: string)
    requires |secret| >= MIN_SECRET_SIZE
    ensures var a := InitialState(p, fpB, nidB, fpA, true, secret);
            var b := InitialState(p, fpA, nidA, fpB, false, secret);
            && a.Ok? && b.Ok?
            && a.value.sendChainKey == b.value.recvChainKey
            && a.value.recvChainKey == b.value.sendChainKey
            && |a.value.sendChainKey| == |a.value.recvChainKey| == 32
            && p.hkdfChains(secret) == a.value.sendChainKey + a.value.recvChainKey
  {
    var chains := p.hkdfChains(secret);
    assert chains == chains[..32] + chains[32..];
  }

  /** A frame that carries a KEM ciphertext is always read back: the receiver,
      holding the sender's chain key, gets the plaintext and the sender's next
      chain key. */
  lemma MixedFrameOpens(p: Primitives, chainKey: Bytes, plaintext: string, pk: Bytes, sk: Bytes,
                        coins: Bytes, nonce: Nonce)
    requires p.Sound() && p.HonestPair(pk, sk)
    ensures var (frame, next) := MixedFrame(p, chainKey, plaintext, pk, coins, nonce);
            OpenFrame(p, chainKey, p.base64Encode(frame), sk) == Opened(Ok(plaintext), next, true)
  {
    var (frame, next) := MixedFrame(p, chainKey, plaintext, pk, coins, nonce);
    var (kemCt, secret) := p.encapsulate(pk, coins);
    var (key, _) := DeriveMessageKey(p, chainKey + secret);
    var sealed := p.seal(key, nonce, p.utf8Encode(plaintext));
    var body := frame[NONCE_SIZE..];
    assert frame[..NONCE_SIZE] == nonce;
    assert body == sealed + kemCt + KEM_TRAILER;
    assert body[|body| - 2..] == KEM_TRAILER;
    assert Trailer(body) == KEM_CT_SIZE;
    assert body[..|sealed|] == sealed;
    assert body[|sealed|..|body| - 2] == kemCt;
  }

  /** True when the receiver takes the simple path on a first frame. */
  predicate FirstFrameReadable(frame: Bytes) {
    |frame| >= NONCE_SIZE + 16 + 2 && !LooksMixed(frame[NONCE_SIZE..])
  }

  /** A first frame that is not mistaken for a mixed one is opened under the next key
      of the receiver's chain, whatever that is. */
  lemma SimplePath(p: Primitives, chainKey: Bytes, plaintext: string, nonce: Nonce, receiver: Bytes, sk: Bytes)
    requires p.Sound()
    requires FirstFrameReadable(FirstFrame(p, chainKey, plaintext, nonce).0)
    ensures var sealed := p.seal(DeriveMessageKey(p, chainKey).0, nonce, p.utf8Encode(plaintext));
            OpenFrame(p, receiver, p.base64Encode(FirstFrame(p, chainKey, plaintext, nonce).0), sk)
            == Unlock(p, DeriveMessageKey(p, receiver), nonce, sealed)
  {
    var frame := FirstFrame(p, chainKey, plaintext, nonce).0;
    assert frame[..NONCE_SIZE] == nonce;
    assert frame[NONCE_SIZE..] == p.seal(DeriveMessageKey(p, chainKey).0, nonce, p.utf8Encode(plaintext));
  }

  /** So a receiver that holds the sender's chain key reads it. */
  lemma FirstFrameOpens(p: Primitives, chainKey: Bytes, plaintext: string, sk: Bytes, nonce: Nonce)
    requires p.Sound()
    requires FirstFrameReadable(FirstFrame(p, chainKey, plaintext, nonce).0)
    ensures var (frame, next) := FirstFrame(p, chainKey, plaintext, nonce);
            OpenFrame(p, chainKey, p.base64Encode(frame), sk) == Opened(Ok(plaintext), next, true)
  {
    SimplePath(p, chainKey, plaintext, nonce, chainKey, sk);
  }

  /** First frames carry no trailer, so the last two bytes of the tag decide how
      they are parsed: the plaintext is read back if and only if the frame has at
      least 30 bytes and they do not spell a length that fits in the body. Otherwise,
      unless they spell 1568, the frame is refused without moving the receive chain. */
  lemma FirstFrameExact(p: Primitives, chainKey: Bytes, plaintext: string, sk: Bytes, nonce: Nonce)
    requires p.Sound()
    ensures var (frame, next) := FirstFrame(p, chainKey, plaintext, nonce);
            var o := OpenFrame(p, chainKey, p.base64Encode(frame), sk);
            && |frame| >= NONCE_SIZE + TAG_SIZE
            && (o.result == Ok(plaintext) <==> FirstFrameReadable(frame))
            && (FirstFrameReadable(frame) ==> o == Opened(Ok(plaintext), next, true))
            && (!FirstFrameReadable(frame)
                && (Trailer(frame) != KEM_CT_SIZE || |frame| < NONCE_SIZE + KEM_CT_SIZE + 2) ==>
                 o.result.Err? && o.chainKey == chainKey && !o.counted)
  {
    var (frame, next) := FirstFrame(p, chainKey, plaintext, nonce);
    if FirstFrameReadable(frame) {
      FirstFrameOpens(p, chainKey, plaintext, sk, nonce);
    } else if |frame| >= NONCE_SIZE + 16 + 2 {
      assert Trailer(frame) == Trailer(frame[NONCE_SIZE..]);
      if OpenFrame(p, chainKey, p.base64Encode(frame), sk).result.Ok? {
        MixedReadingIsShorter(p, chainKey, p.base64Encode(frame), sk);
      }
    }
  }

  /** What is read from a frame taken for a mixed one is shorter than its body by the
      claimed KEM ciphertext, the length and the tag. */
  lemma MixedReadingIsShorter(p: Primitives, chainKey: Bytes, text: string, sk: Bytes)
    requires p.Sound() && OpenFrame(p, chainKey, text, sk).result.Ok?
    requires p.base64Decode(text).Some? && |p.base64Decode(text).value| >= NONCE_SIZE
    requires LooksMixed(p.base64Decode(text).value[NONCE_SIZE..])
    ensures var raw := p.base64Decode(text).value;
            |p.utf8Encode(OpenFrame(p, chainKey, text, sk).result.value)| + TAG_SIZE + KEM_CT_SIZE + 2
            == |raw| - NONCE_SIZE
  {
  }

  /** A refusal by the AEAD moves the in-memory receive chain all the same: it ends at
      the second half of one derivation step, where only the KEM secret mixed in (none on
      the simple path) depends on the frame. */
  lemma RejectionAdvancesChain(p: Primitives, chainKey: Bytes, text: string, sk: Bytes) returns (mixedIn: Bytes)
    requires OpenFrame(p, chainKey, text, sk).result == Err(AeadRejected)
    ensures OpenFrame(p, chainKey, text, sk)
         == Opened(Err(AeadRejected), p.hkdfStep(chainKey + mixedIn)[32..], false)
    ensures mixedIn == [] || exists kem: KemCiphertext :: mixedIn == p.decapsulate(sk, kem)
  {
    var body := p.base64Decode(text).value[NONCE_SIZE..];
    if LooksMixed(body) {
      var kem := body[|body| - 2 - Trailer(body)..|body| - 2];
      mixedIn := p.decapsulate(sk, kem);
    } else {
      mixedIn := [];
      assert chainKey + [] == chainKey;
    }
  }
}
