/** Two parties that both write first. A concrete choice of primitives, keyed by the
    first byte of a secret, under which each refuses the other's opening message. */
module CrossedPosts {

  import opened Wrappers
  import opened Bytes
  import opened Ratchet
  import opened Client
  import opened Delivery
  import opened DeliveryRuns
  import F = FirstMessage
  import Padding

  function FirstByte(b: Bytes): Byte {
    if b == [] then 0 else b[0]
  }

  function Block(b: Byte, n: nat): (r: Bytes)
    requires n >= 1
    ensures |r| == n && r[0] == b
  {
    [b] + Zeros(n - 1)
  }

  /** A tag that names the first byte of its key and ends in zeros. */
  function Tag(key: Bytes): (r: Bytes)
    ensures |r| == TAG_SIZE
  {
    Block(FirstByte(key), TAG_SIZE)
  }

  const KEYED: Primitives := Primitives(
    _ => Zeros(32),
    secret => Block(FirstByte(secret), 32) + Block(255 - FirstByte(secret), 32),
    chainKey => Block(FirstByte(chainKey), 64),
    (key, nonce, plain) => plain + Tag(key),
    (key, nonce, sealed) =>
      if |sealed| >= TAG_SIZE && sealed[|sealed| - TAG_SIZE..] == Tag(key) then Some(sealed[..|sealed| - TAG_SIZE])
      else None,
    (pk, coins) => (Block(FirstByte(coins), KEM_CT_SIZE), Block(FirstByte(coins), 32)),
    (sk, ct) => Block(FirstByte(ct), 32),
    s => F.CharsToBytes(s),
    b => F.BytesToChars(b),
    b => HexEncode(b),
    t => HexDecode(t))

  const ENV: Environment := Environment(KEYED, fp => fp, b =>
    match F.BytesToChars(b) case Some(s) => s case None => "")

  const ALICE: Party := Party("alice", "alice", [], [])
  const BOB: Party := Party("bob", "bob", [], [])

  lemma KeyedIsSound(pk: Bytes, sk: Bytes)
    ensures ENV.Sound() && KEYED.HonestPair(pk, sk)
  {
    hide F.CharsToBytes, F.BytesToChars, HexEncode, HexDecode;
    forall k: Bytes, n: Nonce, m: Bytes ensures KEYED.unseal(k, n, KEYED.seal(k, n, m)) == Some(m) {
      assert (m + Tag(k))[..|m|] == m && (m + Tag(k))[|m|..] == Tag(k);
    }
    forall s ensures KEYED.utf8Decode(KEYED.utf8Encode(s)) == Some(s) {
      F.CharsRoundTrip(s);
    }
    forall b: Bytes | KEYED.utf8Decode(b).Some? ensures KEYED.utf8Encode(KEYED.utf8Decode(b).value) == b {
      F.BytesRoundTrip(b);
    }
    forall b ensures KEYED.base64Decode(KEYED.base64Encode(b)) == Some(b) {
      HexRoundTrip(b);
    }
  }

  lemma KeyedRefuses(key: Bytes, other: Bytes, nonce: Nonce, m: Bytes)
    requires FirstByte(key) != FirstByte(other)
    ensures KEYED.unseal(other, nonce, KEYED.seal(key, nonce, m)) == None
  {
    assert (m + Tag(key))[|m|..] == Tag(key);
    assert Tag(key)[0] != Tag(other)[0];
  }

  lemma KeyedReadable(chainKey: Bytes, text: string, nonce: Nonce)
    requires text != ""
    ensures FirstFrameReadable(FirstFrame(KEYED, chainKey, text, nonce).0)
  {
    var body := FirstFrame(KEYED, chainKey, text, nonce).0[NONCE_SIZE..];
    var tag := Tag(DeriveMessageKey(KEYED, chainKey).0);
    assert body == KEYED.utf8Encode(text) + tag;
    assert body[|body| - 2..] == tag[TAG_SIZE - 2..] == [0, 0];
    assert Trailer(body) == 0;
  }

  /** A first frame sealed under one chain key, opened under another. */
  lemma KeyedFirstFrame(chainKey: Bytes, other: Bytes, text: string, sk: Bytes, nonce: Nonce)
    requires KEYED.Sound() && text != "" && FirstByte(chainKey) != FirstByte(other)
    ensures OpenFrame(KEYED, other, KEYED.base64Encode(FirstFrame(KEYED, chainKey, text, nonce).0), sk).result
         == Err(AeadRejected)
  {
    KeyedReadable(chainKey, text, nonce);
    SimplePath(KEYED, chainKey, text, nonce, other, sk);
    KeyedRefuses(DeriveMessageKey(KEYED, chainKey).0, DeriveMessageKey(KEYED, other).0, nonce,
                 KEYED.utf8Encode(text));
  }

  function Coins(b: Byte): Draw {
    Draw([b], [], Zeros(NONCE_SIZE), (i: nat) => 0)
  }

  predicate Short(message: string) {
    3 * |message| <= Padding.MAX_MESSAGE
  }

  function Frame(chainKey: Bytes, text: string): string {
    KEYED.base64Encode(FirstFrame(KEYED, chainKey, text, Zeros(NONCE_SIZE)).0)
  }

  /** An opening message made with secret b: the chain key it was sealed under, and
      the session it leaves its sender with. */
  predicate IsOpening(me: Party, b: Byte, out: Outgoing, chainKey: Bytes, a: RatchetState) {
    && out.entry.blob.Envelope? && out.entry.senderNid == me.nid && out.padded != ""
    && out.entry.blob.ciphertext == Some(Frame(chainKey, out.padded))
    && FirstByte(chainKey) == b && FirstByte(a.recvChainKey) == 255 - b && a.isInitiator
  }

  lemma OpeningKeys(me: Party, peer: Party, b: Byte)
    ensures var start := Opening(ENV, me, peer, Coins(b));
            && start.Ok? && start.value.isInitiator
            && FirstByte(start.value.sendChainKey) == b && FirstByte(start.value.recvChainKey) == 255 - b
  {
  }

  lemma PaddedIsNotEmpty(message: string, noise: nat -> Byte)
    requires Short(message)
    ensures PaddedText(ENV, message, noise) != ""
  {
  }

  lemma OpeningShape(me: Party, peer: Party, sessions: Sessions, message: string, b: Byte)
    returns (out: Outgoing, chainKey: Bytes, a: RatchetState)
    requires peer.nid !in sessions && Short(message)
    ensures Outbound(ENV, me, peer, sessions, message, Coins(b)) == Ok((out.entry, a))
    ensures out.message == message && out.padded == PaddedText(ENV, message, Coins(b).noise)
    ensures IsOpening(me, b, out, chainKey, a)
  {
    var draw := Coins(b);
    OpeningKeys(me, peer, b);
    PaddedIsNotEmpty(message, draw.noise);
    hide Opening, Outbound, PaddedText, DeriveMessageKey, FirstByte;
    FirstOutbound(ENV, me, peer, sessions, message, draw);
    var (entry, st) := Outbound(ENV, me, peer, sessions, message, draw).value;
    chainKey := Opening(ENV, me, peer, draw).value.sendChainKey;
    out, a := Outgoing(message, PaddedText(ENV, message, draw.noise), entry), st;
  }

  lemma OpeningWith(me: Party, peer: Party, w: Mail, message: string, b: Byte)
    returns (out: Outgoing, chainKey: Bytes, a: RatchetState)
    requires peer.nid !in w.alice && Short(message)
    ensures Moved(ENV, me, peer, w, Post(message, Coins(b), Saved))
         == w.(alice := w.alice[peer.nid := a],
               toBob := w.toBob.(unread := w.toBob.unread + [out]), sentByAlice := w.sentByAlice + [out])
    ensures IsOpening(me, b, out, chainKey, a)
  {
    hide Outbound, PaddedText, IsOpening;
    out, chainKey, a := OpeningShape(me, peer, w.alice, message, b);
  }

  lemma PeerRefuses(me: Party, from: Party, b: Byte, out: Outgoing, chainKey: Bytes, a: RatchetState,
                    sessions: Sessions)
    requires KEYED.Sound() && IsOpening(from, b, out, chainKey, a)
    requires from.nid != "" && from.nid in sessions && b != FirstByte(sessions[from.nid].recvChainKey)
    ensures RelayDecrypt(ENV, me, sessions, out.entry) == (Err(RatchetFailed(AeadRejected)), sessions)
    ensures Refuses(ENV, me, sessions[from.nid], out)
  {
    KeyedFirstFrame(chainKey, sessions[from.nid].recvChainKey, out.padded, me.sk, Zeros(NONCE_SIZE));
  }

  /** Alice writes with secret 1, Bob with secret 2. */
  function Write(byBob: bool, message: string): MailMove {
    MailMove(byBob, Post(message, Coins(if byBob then 2 else 1), Saved))
  }

  lemma TwoMoves(m: MailMove, n: MailMove)
    ensures MailRun(ENV, ALICE, BOB, [m, n])
         == StepBy(ENV, ALICE, BOB, StepBy(ENV, ALICE, BOB, NO_MAIL, m), n)
  {
    var moves := [m, n];
    assert moves[..1] == [m] && [m][..0] == [];
    assert MailRun(ENV, ALICE, BOB, [m]) == StepBy(ENV, ALICE, BOB, NO_MAIL, m);
  }

  function AfterHello(hello: Outgoing, a: RatchetState): Mail {
    Mail(map[BOB.nid := a], map[], Letterbox([hello], []), EMPTY_BOX, [hello], [], [], [])
  }

  lemma AlicePosted(m: string) returns (hello: Outgoing, chainA: Bytes, a: RatchetState)
    requires Short(m)
    ensures StepBy(ENV, ALICE, BOB, NO_MAIL, Write(false, m)) == AfterHello(hello, a)
    ensures IsOpening(ALICE, 1, hello, chainA, a)
  {
    hello, chainA, a := OpeningWith(ALICE, BOB, NO_MAIL, m, 1);
  }

  function AfterBoth(hello: Outgoing, hi: Outgoing, a: RatchetState, b: RatchetState): Mail {
    Mail(map[BOB.nid := a], map[ALICE.nid := b], Letterbox([hello], []), Letterbox([hi], []), [hello], [hi], [], [])
  }

  lemma BobPosted(n: string, hello: Outgoing, a: RatchetState) returns (hi: Outgoing, chainB: Bytes, b: RatchetState)
    requires Short(n)
    ensures StepBy(ENV, ALICE, BOB, AfterHello(hello, a), Write(true, n)) == AfterBoth(hello, hi, a, b)
    ensures IsOpening(BOB, 2, hi, chainB, b)
  {
    hi, chainB, b := OpeningWith(BOB, ALICE, AfterHello(hello, a).Flip(), n, 2);
  }

  /** Each refuses the other's only message. */
  ghost predicate Estranged(w: Mail) {
    && |w.toBob.unread| == |w.toAlice.unread| == 1
    && RelayDecrypt(ENV, BOB, w.bob, w.toBob.unread[0].entry) == (Err(RatchetFailed(AeadRejected)), w.bob)
    && RelayDecrypt(ENV, ALICE, w.alice, w.toAlice.unread[0].entry) == (Err(RatchetFailed(AeadRejected)), w.alice)
  }

  lemma BothRefuse(hello: Outgoing, hi: Outgoing, chainA: Bytes, chainB: Bytes, a: RatchetState, b: RatchetState)
    requires KEYED.Sound() && IsOpening(ALICE, 1, hello, chainA, a) && IsOpening(BOB, 2, hi, chainB, b)
    ensures Estranged(AfterBoth(hello, hi, a, b)) && Broken(ALICE, BOB, AfterBoth(hello, hi, a, b))
  {
    var w := AfterBoth(hello, hi, a, b);
    PeerRefuses(BOB, ALICE, 1, hello, chainA, a, w.bob);
    PeerRefuses(ALICE, BOB, 2, hi, chainB, b, w.alice);
  }

  /** Both parties write before either reads, whatever they write. Each now holds a
      session of its own making, each refuses the other's opening message, and
      nothing that is handed out again changes that. */
  lemma BothWriteFirst(m: string, n: string)
    requires Short(m) && Short(n)
    ensures ENV.Sound() && KEYED.HonestPair(ALICE.pk, ALICE.sk) && KEYED.HonestPair(BOB.pk, BOB.sk)
    ensures var w := MailRun(ENV, ALICE, BOB, [Write(false, m), Write(true, n)]);
            Estranged(w) && !Committed(ENV, ALICE, BOB, w)
  {
    KeyedIsSound([], []);
    var hello, chainA, a := AlicePosted(m);
    var hi, chainB, b := BobPosted(n, hello, a);
    hide Estranged, Broken, Committed, AfterBoth, IsOpening;
    TwoMoves(Write(false, m), Write(true, n));
    BothRefuse(hello, hi, chainA, chainB, a, b);
    if Committed(ENV, ALICE, BOB, AfterBoth(hello, hi, a, b)) {
      CommittedIsWhole(ENV, ALICE, BOB, AfterBoth(hello, hi, a, b));
    }
  }
}
