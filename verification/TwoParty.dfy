/** Two ratchet sessions over two first-in first-out channels, in every
    interleaving of sends and deliveries. */
module TwoParty {

  import opened Wrappers
  import opened Bytes
  import opened Ratchet

  /** A frame on the wire, with the plaintext its sender put in. */
  datatype Wire = Wire(text: string, plaintext: string)

  datatype Keys = Keys(alicePk: Bytes, aliceSk: Bytes, bobPk: Bytes, bobSk: Bytes) {
    function Flip(): Keys {
      Keys(bobPk, bobSk, alicePk, aliceSk)
    }
    ghost predicate Honest(p: Primitives) {
      p.HonestPair(alicePk, aliceSk) && p.HonestPair(bobPk, bobSk)
    }
  }

  datatype World = World(
    alice: RatchetState, bob: RatchetState,
    toBob: seq<Wire>, toAlice: seq<Wire>,
    sentByAlice: seq<string>, sentByBob: seq<string>,
    readByAlice: seq<string>, readByBob: seq<string>)
  {
    /** The same world with the parties' names exchanged. */
    function Flip(): World {
      World(bob, alice, toAlice, toBob, sentByBob, sentByAlice, readByBob, readByAlice)
    }
  }

  datatype Action =
    | SendFirst(plaintext: string, nonce: Nonce)
    | SendMixed(plaintext: string, coins: Bytes, nonce: Nonce)
    | Receive

  datatype Move = Move(byBob: bool, action: Action)

  function Start(p: Primitives, secret: Bytes): World
    requires |secret| >= MIN_SECRET_SIZE
  {
    World(InitialState(p, "bob", "bob", "alice", true, secret).value,
          InitialState(p, "alice", "alice", "bob", false, secret).value,
          [], [], [], [], [], [])
  }

  function Post(p: Primitives, w: World, frame: (Bytes, Bytes), plaintext: string): World {
    w.(alice := Sent(w.alice, frame.1),
       toBob := w.toBob + [Wire(p.base64Encode(frame.0), plaintext)],
       sentByAlice := w.sentByAlice + [plaintext])
  }

  function AliceMoves(p: Primitives, keys: Keys, w: World, a: Action): World {
    match a
    case SendFirst(plaintext, nonce) =>
      Post(p, w, FirstFrame(p, w.alice.sendChainKey, plaintext, nonce), plaintext)
    case SendMixed(plaintext, coins, nonce) =>
      Post(p, w, MixedFrame(p, w.alice.sendChainKey, plaintext, keys.bobPk, coins, nonce), plaintext)
    case Receive =>
      if w.toAlice == [] then w
      else
        var o := OpenFrame(p, w.alice.recvChainKey, w.toAlice[0].text, keys.aliceSk);
        w.(alice := Received(w.alice, o),
           toAlice := w.toAlice[1..],
           readByAlice := if o.result.Ok? then w.readByAlice + [o.result.value] else w.readByAlice)
  }

  function Step(p: Primitives, keys: Keys, w: World, m: Move): World {
    if m.byBob then AliceMoves(p, keys.Flip(), w.Flip(), m.action).Flip()
    else AliceMoves(p, keys, w, m.action)
  }

  /** First frames must be readable; nothing else is asked of a move. */
  predicate Legal(p: Primitives, w: World, m: Move) {
    m.action.SendFirst? ==>
      var sender := if m.byBob then w.bob else w.alice;
      FirstFrameReadable(FirstFrame(p, sender.sendChainKey, m.action.plaintext, m.action.nonce).0)
  }

  function Run(p: Primitives, keys: Keys, start: World, moves: seq<Move>): World {
    if moves == [] then start
    else Step(p, keys, Run(p, keys, start, moves[..|moves| - 1]), moves[|moves| - 1])
  }

  predicate LegalRun(p: Primitives, keys: Keys, start: World, moves: seq<Move>) {
    moves != [] ==>
      && LegalRun(p, keys, start, moves[..|moves| - 1])
      && Legal(p, Run(p, keys, start, moves[..|moves| - 1]), moves[|moves| - 1])
  }

  // ---------------------------------------------------------------- //
  //  One direction                                                    //
  // ---------------------------------------------------------------- //

  /** Folding the in-flight frames over the receiver's chain key opens every one
      of them to its plaintext and ends in the sender's chain key. */
  predicate InStep(p: Primitives, chainKey: Bytes, sk: Bytes, wire: seq<Wire>, target: Bytes)
    decreases |wire|
  {
    if wire == [] then chainKey == target
    else
      var o := OpenFrame(p, chainKey, wire[0].text, sk);
      && o.result == Ok(wire[0].plaintext)
      && o.counted
      && InStep(p, o.chainKey, sk, wire[1..], target)
  }

  function Plaintexts(wire: seq<Wire>): (r: seq<string>)
    ensures |r| == |wire|
  {
    seq(|wire|, i requires 0 <= i < |wire| => wire[i].plaintext)
  }

  predicate Lane(p: Primitives, sender: RatchetState, receiver: RatchetState, sk: Bytes,
                 wire: seq<Wire>, sent: seq<string>, read: seq<string>) {
    && InStep(p, receiver.recvChainKey, sk, wire, sender.sendChainKey)
    && sent == read + Plaintexts(wire)
    && sender.sendMessageNumber == |sent|
    && receiver.recvMessageNumber == |read|
  }

  lemma {:induction false} InStepExtend(p: Primitives, chainKey: Bytes, sk: Bytes, wire: seq<Wire>,
                                        target: Bytes, last: Wire, next: Bytes)
    requires InStep(p, chainKey, sk, wire, target)
    requires OpenFrame(p, target, last.text, sk) == Opened(Ok(last.plaintext), next, true)
    ensures InStep(p, chainKey, sk, wire + [last], next)
    decreases |wire|
  {
    if wire == [] {
      assert [last][1..] == [];
    } else {
      assert (wire + [last])[1..] == wire[1..] + [last];
      InStepExtend(p, OpenFrame(p, chainKey, wire[0].text, sk).chainKey, sk, wire[1..], target, last, next);
    }
  }

  /** Sending a frame the receiver can open keeps the lane in step. */
  lemma SendKeepsLane(p: Primitives, sender: RatchetState, receiver: RatchetState, sk: Bytes,
                      wire: seq<Wire>, sent: seq<string>, read: seq<string>, last: Wire, next: Bytes)
    requires Lane(p, sender, receiver, sk, wire, sent, read)
    requires OpenFrame(p, sender.sendChainKey, last.text, sk) == Opened(Ok(last.plaintext), next, true)
    ensures Lane(p, Sent(sender, next), receiver, sk, wire + [last], sent + [last.plaintext], read)
  {
    InStepExtend(p, receiver.recvChainKey, sk, wire, sender.sendChainKey, last, next);
    assert Plaintexts(wire + [last]) == Plaintexts(wire) + [last.plaintext];
  }

  /** Delivering the oldest frame keeps the lane in step and reads its plaintext. */
  lemma ReceiveKeepsLane(p: Primitives, sender: RatchetState, receiver: RatchetState, sk: Bytes,
                         wire: seq<Wire>, sent: seq<string>, read: seq<string>)
    requires Lane(p, sender, receiver, sk, wire, sent, read) && wire != []
    ensures var o := OpenFrame(p, receiver.recvChainKey, wire[0].text, sk);
            && o.result == Ok(wire[0].plaintext)
            && Lane(p, sender, Received(receiver, o), sk, wire[1..], sent, read + [wire[0].plaintext])
  {
    assert Plaintexts(wire) == [wire[0].plaintext] + Plaintexts(wire[1..]);
  }

  // ---------------------------------------------------------------- //
  //  Both directions, every run                                       //
  // ---------------------------------------------------------------- //

  predicate Agreement(p: Primitives, keys: Keys, w: World) {
    && Lane(p, w.alice, w.bob, keys.bobSk, w.toBob, w.sentByAlice, w.readByBob)
    && Lane(p, w.bob, w.alice, keys.aliceSk, w.toAlice, w.sentByBob, w.readByAlice)
  }

  lemma AliceKeepsAgreement(p: Primitives, keys: Keys, w: World, a: Action)
    requires p.Sound() && keys.Honest(p) && Agreement(p, keys, w)
    requires Legal(p, w, Move(false, a))
    ensures Agreement(p, keys, AliceMoves(p, keys, w, a))
  {
    match a
    case SendFirst(plaintext, nonce) =>
      FirstFrameOpens(p, w.alice.sendChainKey, plaintext, keys.bobSk, nonce);
      var (frame, next) := FirstFrame(p, w.alice.sendChainKey, plaintext, nonce);
      SendKeepsLane(p, w.alice, w.bob, keys.bobSk, w.toBob, w.sentByAlice, w.readByBob,
                    Wire(p.base64Encode(frame), plaintext), next);
    case SendMixed(plaintext, coins, nonce) =>
      MixedFrameOpens(p, w.alice.sendChainKey, plaintext, keys.bobPk, keys.bobSk, coins, nonce);
      var (frame, next) := MixedFrame(p, w.alice.sendChainKey, plaintext, keys.bobPk, coins, nonce);
      SendKeepsLane(p, w.alice, w.bob, keys.bobSk, w.toBob, w.sentByAlice, w.readByBob,
                    Wire(p.base64Encode(frame), plaintext), next);
    case Receive =>
      if w.toAlice != [] {
        ReceiveKeepsLane(p, w.bob, w.alice, keys.aliceSk, w.toAlice, w.sentByBob, w.readByAlice);
      }
  }

  lemma StepKeepsAgreement(p: Primitives, keys: Keys, w: World, m: Move)
    requires p.Sound() && keys.Honest(p) && Agreement(p, keys, w) && Legal(p, w, m)
    ensures Agreement(p, keys, Step(p, keys, w, m))
  {
    if m.byBob {
      AliceKeepsAgreement(p, keys.Flip(), w.Flip(), m.action);
    } else {
      AliceKeepsAgreement(p, keys, w, m.action);
    }
  }

  /** In every run from two sessions on one shared secret, in both directions,
      the receiver's chain folded over the in-flight frames is the sender's
      chain, every in-flight frame opens to its plaintext, what was read is the
      prefix of what was sent that has been delivered, and the counters count. */
  lemma {:induction false} EveryRunAgrees(p: Primitives, keys: Keys, secret: Bytes, moves: seq<Move>)
    requires p.Sound() && keys.Honest(p) && |secret| >= MIN_SECRET_SIZE
    requires LegalRun(p, keys, Start(p, secret), moves)
    ensures Agreement(p, keys, Run(p, keys, Start(p, secret), moves))
  {
    var start := Start(p, secret);
    if moves == [] {
      OppositeRoles(p, secret, "alice", "alice", "bob", "bob");
    } else {
      var before := moves[..|moves| - 1];
      EveryRunAgrees(p, keys, secret, before);
      StepKeepsAgreement(p, keys, Run(p, keys, start, before), moves[|moves| - 1]);
    }
  }

  /** Once both channels are drained, both parties have read exactly what the
      other sent and hold the same pair of chain keys. */
  lemma DrainedRunDeliversAll(p: Primitives, keys: Keys, secret: Bytes, moves: seq<Move>)
    requires p.Sound() && keys.Honest(p) && |secret| >= MIN_SECRET_SIZE
    requires LegalRun(p, keys, Start(p, secret), moves)
    ensures var w := Run(p, keys, Start(p, secret), moves);
            w.toBob == [] && w.toAlice == [] ==>
              && w.readByBob == w.sentByAlice && w.readByAlice == w.sentByBob
              && w.bob.recvChainKey == w.alice.sendChainKey
              && w.alice.recvChainKey == w.bob.sendChainKey
              && w.bob.recvMessageNumber == w.alice.sendMessageNumber
              && w.alice.recvMessageNumber == w.bob.sendMessageNumber
  {
    EveryRunAgrees(p, keys, secret, moves);
  }
}
