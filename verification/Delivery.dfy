/** Two clients exchanging messages through the relay: sends that the relay refuses,
    or stores without the sender learning of it, fetches that hand out a whole mailbox
    again and again, purges, and entries from elsewhere mixed into either mailbox. */
module Delivery {

  import opened Wrappers
  import opened Bytes
  import opened Ratchet
  import opened Client
  import Padding
  import opened TwoParty

  /** A message a client sent: its padded text and the entry that carries it. */
  datatype Outgoing = Outgoing(message: string, padded: string, entry: RelayEntry)

  /** An entry a fetch hands out: a genuine message that was not read before, or
      anything else. The client does not see the tag. */
  datatype Item = Genuine(out: Outgoing) | Foreign(entry: RelayEntry) {
    function Entry(): RelayEntry {
      if Genuine? then out.entry else entry
    }
  }

  /** A mailbox: the peer's messages that its owner has not read, oldest first, and
      everything else in it: messages that were read, messages whose sender never
      learned that they were stored, and whatever others stored. */
  datatype Letterbox = Letterbox(unread: seq<Outgoing>, other: seq<RelayEntry>)

  datatype Mail = Mail(
    alice: Sessions, bob: Sessions,
    toBob: Letterbox, toAlice: Letterbox,
    sentByAlice: seq<Outgoing>, sentByBob: seq<Outgoing>,
    readByAlice: seq<string>, readByBob: seq<string>)
  {
    function Flip(): Mail {
      Mail(bob, alice, toAlice, toBob, sentByBob, sentByAlice, readByBob, readByAlice)
    }
  }

  /** What becomes of a send: stored and answered, refused, or stored with the answer
      lost. Only the first saves the sender's session. */
  datatype Outcome = Saved | Refused | Unanswered

  datatype MailAction =
    | Post(message: string, draw: Draw, outcome: Outcome)
    | Inject(entry: RelayEntry)   // an entry from elsewhere lands in the mover's mailbox
    | Fetch(answer: seq<Item>)    // the mover works through its whole mailbox, which keeps every entry
    | Discard(rest: Letterbox)    // the mover's mailbox is cut down to the rest

  const EMPTY_BOX: Letterbox := Letterbox([], [])
  /** A purge empties a mailbox. */
  const PURGE: MailAction := Discard(EMPTY_BOX)

  const NO_MAIL: Mail := Mail(map[], map[], EMPTY_BOX, EMPTY_BOX, [], [], [], [])

  /** The messages without the first occurrence of one. */
  function Without(unread: seq<Outgoing>, out: Outgoing): seq<Outgoing> {
    if unread == [] then []
    else if unread[0] == out then unread[1..]
    else [unread[0]] + Without(unread[1..], out)
  }

  /** A genuine message that was read stays in the mailbox, but not as unread. */
  function MarkRead(box: Letterbox, out: Outgoing): Letterbox {
    Letterbox(Without(box.unread, out), box.other + [out.entry])
  }

  /** The genuine messages handed out, in order. */
  function Genuines(answer: seq<Item>): seq<Outgoing> {
    if answer == [] then []
    else (if answer[0].Genuine? then [answer[0].out] else []) + Genuines(answer[1..])
  }

  function Others(answer: seq<Item>): seq<RelayEntry> {
    if answer == [] then []
    else (if answer[0].Foreign? then [answer[0].entry] else []) + Others(answer[1..])
  }

  lemma GenuinesHead(items: seq<Item>)
    requires items != []
    ensures Genuines(items) == (if items[0].Genuine? then [items[0].out] else []) + Genuines(items[1..])
    ensures Others(items) == (if items[0].Foreign? then [items[0].entry] else []) + Others(items[1..])
  {
  }

  lemma {:induction false} GenuinesSnoc(items: seq<Item>, item: Item)
    ensures Genuines(items + [item]) == Genuines(items) + if item.Genuine? then [item.out] else []
    ensures Others(items + [item]) == Others(items) + if item.Foreign? then [item.entry] else []
  {
    if items == [] {
      assert [] + [item] == [item] && [item][1..] == [];
    } else {
      hide Genuines, Others;
      var all, rest := items + [item], items[1..];
      assert all[0] == items[0] && all[1..] == rest + [item];
      GenuinesHead(items);
      GenuinesHead(all);
      GenuinesSnoc(rest, item);
    }
  }

  function Letters(unread: seq<Outgoing>): (r: seq<RelayEntry>)
    ensures |r| == |unread|
  {
    seq(|unread|, i requires 0 <= i < |unread| => unread[i].entry)
  }

  /** All entries in a mailbox. */
  function Contents(box: Letterbox): multiset<RelayEntry> {
    multiset(Letters(box.unread)) + multiset(box.other)
  }

  /** A fetch hands out the whole mailbox, the unread messages oldest first. */
  predicate HandsOut(box: Letterbox, answer: seq<Item>) {
    Genuines(answer) == box.unread && multiset(Others(answer)) == multiset(box.other)
  }

  /** Me, whose side of the mail is the alice side, works through one entry. Only the
      peer's own messages count as read. */
  ghost function Worked(env: Environment, me: Party, peer: Party, w: Mail, item: Item): Mail {
    var (r, after) := RelayDecrypt(env, me, w.alice, item.Entry());
    w.(alice := after,
       toAlice := if item.Genuine? && r.Ok? then MarkRead(w.toAlice, item.out) else w.toAlice,
       readByAlice := if item.Genuine? && r.Ok? && SenderOf(env, item.Entry()) == peer.nid
                      then w.readByAlice + [r.value] else w.readByAlice)
  }

  /** Working through the first k entries of an answer. */
  ghost function WorkedTo(env: Environment, me: Party, peer: Party, w: Mail, answer: seq<Item>, k: nat): Mail
    requires k <= |answer|
  {
    if k == 0 then w else Worked(env, me, peer, WorkedTo(env, me, peer, w, answer, k - 1), answer[k - 1])
  }

  ghost function Posted(env: Environment, me: Party, peer: Party, w: Mail, message: string, draw: Draw): Mail
    requires |env.p.utf8Encode(message)| <= Padding.MAX_MESSAGE
  {
    match Outbound(env, me, peer, w.alice, message, draw)
    case Err(_) => w
    case Ok((entry, st)) =>
      var out := Outgoing(message, PaddedText(env, message, draw.noise), entry);
      w.(alice := w.alice[peer.nid := st],
         toBob := w.toBob.(unread := w.toBob.unread + [out]),
         sentByAlice := w.sentByAlice + [out])
  }

  /** The entry reaches the peer's mailbox, and the sender keeps its old session. */
  function Strayed(env: Environment, me: Party, peer: Party, w: Mail, message: string, draw: Draw): Mail
    requires |env.p.utf8Encode(message)| <= Padding.MAX_MESSAGE
  {
    match Outbound(env, me, peer, w.alice, message, draw)
    case Err(_) => w
    case Ok((entry, _)) => w.(toBob := w.toBob.(other := w.toBob.other + [entry]))
  }

  /** One move by me. */
  ghost function Moved(env: Environment, me: Party, peer: Party, w: Mail, a: MailAction): Mail {
    match a
    case Post(message, draw, outcome) =>
      if |env.p.utf8Encode(message)| > Padding.MAX_MESSAGE then w
      else (
        match outcome
        case Saved => Posted(env, me, peer, w, message, draw)
        case Refused => w
        case Unanswered => Strayed(env, me, peer, w, message, draw))
    case Inject(entry) => w.(toAlice := w.toAlice.(other := w.toAlice.other + [entry]))
    case Fetch(answer) => WorkedTo(env, me, peer, w, answer, |answer|)
    case Discard(rest) => w.(toAlice := rest)
  }

  /** An entry that is refused, or that belongs to another sender's session. */
  ghost predicate Harmless(env: Environment, me: Party, peer: Party, sessions: Sessions, entry: RelayEntry) {
    RelayDecrypt(env, me, sessions, entry).0.Err? || SenderOf(env, entry) != peer.nid
  }

  /** What the first k entries hold besides unread messages is harmless in its turn. */
  ghost predicate HarmlessTo(env: Environment, me: Party, peer: Party, w: Mail, answer: seq<Item>, k: nat)
    requires k <= |answer|
  {
    forall i :: 0 <= i < k && answer[i].Foreign? ==>
      Harmless(env, me, peer, WorkedTo(env, me, peer, w, answer, i).alice, answer[i].entry)
  }

  ghost predicate HarmlessInTurn(env: Environment, me: Party, peer: Party, w: Mail, answer: seq<Item>) {
    HarmlessTo(env, me, peer, w, answer, |answer|)
  }

  /** The session a first message creates for its sender. */
  function Opening(env: Environment, me: Party, peer: Party, draw: Draw): Result<RatchetState, RatchetError> {
    InitialState(env.p, peer.fp, peer.nid, me.fp, true, env.p.encapsulate(peer.pk, draw.sessionCoins).1)
  }

  ghost predicate FirstPostReadable(env: Environment, me: Party, peer: Party, message: string, draw: Draw)
    requires |env.p.utf8Encode(message)| <= Padding.MAX_MESSAGE
  {
    var start := Opening(env, me, peer, draw);
    start.Ok? ==>
      FirstFrameReadable(
        FirstFrame(env.p, start.value.sendChainKey, PaddedText(env, message, draw.noise), draw.nonce).0)
  }

  /** A session refuses a message. */
  predicate Refuses(env: Environment, me: Party, st: RatchetState, out: Outgoing) {
    OpenFrame(env.p, st.recvChainKey, WireOf(out).text, me.sk).result.Err?
  }

  /** The peer's oldest unread message does not open under the session that a first
      message with these draws would create: the two rest on different secrets. */
  predicate KeysSeparated(env: Environment, me: Party, peer: Party, w: Mail, draw: Draw) {
    var mine := Opening(env, me, peer, draw);
    mine.Ok? && w.toAlice.unread != [] ==> Refuses(env, me, mine.value, w.toAlice.unread[0])
  }

  /** My session refuses the peer's oldest unread message. */
  predicate Stuck(env: Environment, me: Party, peer: Party, w: Mail) {
    peer.nid in w.alice && w.toAlice.unread != [] && Refuses(env, me, w.alice[peer.nid], w.toAlice.unread[0])
  }

  ghost predicate RefusedInTurn(env: Environment, me: Party, peer: Party, w: Mail, answer: seq<Item>) {
    forall k :: 0 <= k < |answer| && answer[k].Genuine? ==>
      RelayDecrypt(env, me, WorkedTo(env, me, peer, w, answer, k).alice, answer[k].Entry()).0.Err?
  }

  /** What is asked of a move: a message the padding can hold, with a readable frame if
      it is the very first of all; an answer that hands out the mailbox; and a rest that
      has all the unread messages or fewer. */
  ghost predicate Allowed(env: Environment, me: Party, peer: Party, w: Mail, a: MailAction) {
    match a
    case Post(message, draw, outcome) =>
      && |env.p.utf8Encode(message)| <= Padding.MAX_MESSAGE
      && (outcome.Saved? && peer.nid !in w.alice && me.nid !in w.bob ==>
            FirstPostReadable(env, me, peer, message, draw))
    case Inject(_) => true
    case Fetch(answer) => HandsOut(w.toAlice, answer)
    case Discard(rest) => rest.unread == w.toAlice.unread || |rest.unread| < |w.toAlice.unread|
  }

  /** The moves that end the agreement: a first message to a peer who has opened a
      session with a first message of its own; a fetch in which an entry that is not one
      of the peer's unread messages is accepted into the peer's session; and dropping an
      unread message. */
  ghost predicate Damages(env: Environment, me: Party, peer: Party, w: Mail, a: MailAction) {
    match a
    case Post(_, _, outcome) => outcome.Saved? && peer.nid !in w.alice && me.nid in w.bob
    case Inject(_) => false
    case Fetch(answer) => !HarmlessInTurn(env, me, peer, w, answer)
    case Discard(rest) => rest.unread != w.toAlice.unread
  }

  // ---------------------------------------------------------------- //
  //  One direction                                                    //
  // ---------------------------------------------------------------- //

  /** An entry as its sender made it. */
  ghost predicate WellMade(env: Environment, sender: Party, o: Outgoing) {
    && o.entry.blob.Envelope? && o.entry.blob.ciphertext.Some?
    && o.entry.senderNid == sender.nid && o.entry.senderFp == sender.fp
    && |env.p.utf8Encode(o.message)| <= Padding.MAX_MESSAGE
    && exists noise: nat -> Byte :: o.padded == PaddedText(env, o.message, noise)
  }

  function WireOf(o: Outgoing): Wire {
    Wire(if o.entry.blob.Envelope? && o.entry.blob.ciphertext.Some? then o.entry.blob.ciphertext.value else "",
         o.padded)
  }

  function Wires(os: seq<Outgoing>): (r: seq<Wire>)
    ensures |r| == |os|
  {
    seq(|os|, i requires 0 <= i < |os| => WireOf(os[i]))
  }

  lemma WiresTail(os: seq<Outgoing>)
    requires os != []
    ensures Wires(os)[0] == WireOf(os[0]) && Wires(os)[1..] == Wires(os[1..])
  {
  }

  /** What the recipient makes of a message once its padded text is back. */
  function Recovered(env: Environment, o: Outgoing): string {
    match Padding.Unpadded(o.padded)
    case Ok(bytes) => env.lossy(bytes)
    case Err(_) => ""
  }

  /** What was read is what was sent, up to the unread rest. */
  ghost predicate Accounted(env: Environment, from: Party, unread: seq<Outgoing>, sent: seq<Outgoing>,
                            read: seq<string>) {
    && |read| <= |sent| && sent[|read|..] == unread
    && (forall i :: 0 <= i < |read| ==> read[i] == Recovered(env, sent[i]))
    && (forall i :: 0 <= i < |sent| ==> WellMade(env, from, sent[i]))
  }

  /** Sender and receiver sessions agree over the unread messages, and the rest of
      what was sent has been read in order. */
  ghost predicate MailLane(env: Environment, from: Party, sender: RatchetState, receiver: RatchetState, sk: Bytes,
                           unread: seq<Outgoing>, sent: seq<Outgoing>, read: seq<string>) {
    && InStep(env.p, receiver.recvChainKey, sk, Wires(unread), sender.sendChainKey)
    && Accounted(env, from, unread, sent, read)
    && sender.sendMessageNumber == |sent|
    && receiver.recvMessageNumber == |read|
  }

  lemma PostAccounts(env: Environment, from: Party, unread: seq<Outgoing>, sent: seq<Outgoing>,
                     read: seq<string>, out: Outgoing)
    requires Accounted(env, from, unread, sent, read) && WellMade(env, from, out)
    ensures Accounted(env, from, unread + [out], sent + [out], read)
  {
    assert (sent + [out])[|read|..] == sent[|read|..] + [out];
  }

  lemma PostKeepsLane(env: Environment, from: Party, sender: RatchetState, receiver: RatchetState, sk: Bytes,
                      unread: seq<Outgoing>, sent: seq<Outgoing>, read: seq<string>, out: Outgoing, next: Bytes)
    requires MailLane(env, from, sender, receiver, sk, unread, sent, read)
    requires WellMade(env, from, out)
    requires OpenFrame(env.p, sender.sendChainKey, WireOf(out).text, sk) == Opened(Ok(out.padded), next, true)
    ensures MailLane(env, from, Sent(sender, next), receiver, sk, unread + [out], sent + [out], read)
  {
    PostAccounts(env, from, unread, sent, read, out);
    InStepExtend(env.p, receiver.recvChainKey, sk, Wires(unread), sender.sendChainKey, WireOf(out), next);
    assert Wires(unread + [out]) == Wires(unread) + [WireOf(out)];
  }

  lemma ReadAccounts(env: Environment, from: Party, unread: seq<Outgoing>, sent: seq<Outgoing>, read: seq<string>)
    requires Accounted(env, from, unread, sent, read) && unread != []
    ensures WellMade(env, from, unread[0])
    ensures Accounted(env, from, unread[1..], sent, read + [Recovered(env, unread[0])])
  {
    assert sent[|read|] == sent[|read|..][0] == unread[0];
    assert sent[|read| + 1..] == sent[|read|..][1..];
  }

  /** The oldest unread frame opens, and the lane moves on by it. */
  lemma LaneAdvances(env: Environment, from: Party, sender: RatchetState, receiver: RatchetState, sk: Bytes,
                     unread: seq<Outgoing>, sent: seq<Outgoing>, read: seq<string>)
    requires MailLane(env, from, sender, receiver, sk, unread, sent, read) && unread != []
    ensures var o := OpenFrame(env.p, receiver.recvChainKey, WireOf(unread[0]).text, sk);
            && o.result == Ok(unread[0].padded)
            && MailLane(env, from, sender, Received(receiver, o), sk, unread[1..], sent,
                        read + [Recovered(env, unread[0])])
  {
    ReadAccounts(env, from, unread, sent, read);
    WiresTail(unread);
  }

  lemma WellMadeUnpads(env: Environment, from: Party, out: Outgoing)
    requires WellMade(env, from, out)
    ensures Padding.Unpadded(out.padded).Ok?
    ensures env.Sound() && |env.p.utf8Encode(out.message)| <= 511 ==> Recovered(env, out) == out.message
  {
    var noise: nat -> Byte :| out.padded == PaddedText(env, out.message, noise);
    Padding.UnpadStartsWithMessage(env.p.utf8Encode(out.message), noise);
    Padding.RoundTripExact(env.p.utf8Encode(out.message), noise);
  }

  /** Working through the oldest unread entry reads its message and saves the session. */
  lemma FetchGenuine(env: Environment, me: Party, from: Party, sessions: Sessions,
                     sender: RatchetState, receiver: RatchetState,
                     unread: seq<Outgoing>, sent: seq<Outgoing>, read: seq<string>) returns (o: Opened)
    requires from.nid != "" && unread != []
    requires MailLane(env, from, sender, receiver, me.sk, unread, sent, read)
    requires WellMade(env, from, unread[0])
    requires SessionFor(env, me, sessions, from.nid, from.fp, unread[0].entry.blob.kyberCiphertext) == Ok(receiver)
    ensures SenderOf(env, unread[0].entry) == from.nid
    ensures RelayDecrypt(env, me, sessions, unread[0].entry)
         == (Ok(Recovered(env, unread[0])), sessions[from.nid := Received(receiver, o)])
    ensures Received(receiver, o).sendChainKey == receiver.sendChainKey
    ensures Received(receiver, o).isInitiator == receiver.isInitiator
    ensures Received(receiver, o).sendMessageNumber == receiver.sendMessageNumber
    ensures MailLane(env, from, sender, Received(receiver, o), me.sk, unread[1..], sent,
                     read + [Recovered(env, unread[0])])
  {
    o := OpenFrame(env.p, receiver.recvChainKey, WireOf(unread[0]).text, me.sk);
    LaneAdvances(env, from, sender, receiver, me.sk, unread, sent, read);
    WellMadeUnpads(env, from, unread[0]);
  }

  // ---------------------------------------------------------------- //
  //  Both directions, every run                                       //
  // ---------------------------------------------------------------- //

  /** The session a party has with its peer: the stored one, or the one that the
      oldest unread message will create. */
  function View(env: Environment, me: Party, peer: Party, sessions: Sessions, unread: seq<Outgoing>)
    : Result<RatchetState, ClientError>
  {
    if peer.nid in sessions then Ok(sessions[peer.nid])
    else if unread == [] || !unread[0].entry.blob.Envelope? then Err(NoSession)
    else SessionFor(env, me, sessions, peer.nid, peer.fp, unread[0].entry.blob.kyberCiphertext)
  }

  ghost predicate Lanes(env: Environment, alice: Party, bob: Party, w: Mail, a: RatchetState, b: RatchetState) {
    && MailLane(env, alice, a, b, bob.sk, w.toBob.unread, w.sentByAlice, w.readByBob)
    && MailLane(env, bob, b, a, alice.sk, w.toAlice.unread, w.sentByBob, w.readByAlice)
  }

  predicate Silent(w: Mail) {
    && w.toBob.unread == w.toAlice.unread == []
    && w.sentByAlice == w.sentByBob == [] && w.readByAlice == w.readByBob == []
  }

  ghost predicate Committed(env: Environment, alice: Party, bob: Party, w: Mail) {
    if bob.nid !in w.alice && alice.nid !in w.bob then Silent(w)
    else
      var a := View(env, alice, bob, w.alice, w.toAlice.unread);
      var b := View(env, bob, alice, w.bob, w.toBob.unread);
      && a.Ok? && b.Ok? && a.value.isInitiator != b.value.isInitiator
      && Lanes(env, alice, bob, w, a.value, b.value)
      && (bob.nid !in w.alice ==> w.sentByAlice == [])
      && (alice.nid !in w.bob ==> w.sentByBob == [])
  }

  lemma CommittedFlips(env: Environment, alice: Party, bob: Party, w: Mail)
    ensures Committed(env, alice, bob, w) <==> Committed(env, bob, alice, w.Flip())
  {
  }

  predicate SameSession(nid: string, s: Sessions, t: Sessions) {
    (nid in s <==> nid in t) && (nid in s ==> s[nid] == t[nid])
  }

  /** Harmless entries leave the peer's session alone. */
  lemma HarmlessKeepsSession(env: Environment, me: Party, peer: Party, sessions: Sessions, entry: RelayEntry)
    requires Harmless(env, me, peer, sessions, entry)
    ensures SameSession(peer.nid, sessions, RelayDecrypt(env, me, sessions, entry).1)
  {
  }

  lemma ForeignCommits(env: Environment, me: Party, peer: Party, w: Mail, item: Item)
    requires item.Foreign? && Harmless(env, me, peer, w.alice, item.entry) && Committed(env, me, peer, w)
    ensures Committed(env, me, peer, Worked(env, me, peer, w, item))
    ensures Worked(env, me, peer, w, item).toAlice == w.toAlice
  {
    HarmlessKeepsSession(env, me, peer, w.alice, item.entry);
    var v := Worked(env, me, peer, w, item);
    assert v.readByAlice == w.readByAlice;
    assert View(env, me, peer, v.alice, v.toAlice.unread) == View(env, me, peer, w.alice, w.toAlice.unread);
  }

  lemma GenuineCommits(env: Environment, me: Party, peer: Party, w: Mail, item: Item)
    requires peer.nid != "" && Committed(env, me, peer, w)
    requires item.Genuine? && w.toAlice.unread != [] && w.toAlice.unread[0] == item.out
    ensures Committed(env, me, peer, Worked(env, me, peer, w, item))
    ensures Worked(env, me, peer, w, item).toAlice
         == Letterbox(w.toAlice.unread[1..], w.toAlice.other + [item.out.entry])
  {
    var a := View(env, me, peer, w.alice, w.toAlice.unread).value;
    var b := View(env, peer, me, w.bob, w.toBob.unread).value;
    ReadAccounts(env, peer, w.toAlice.unread, w.sentByBob, w.readByAlice);
    var o := FetchGenuine(env, me, peer, w.alice, b, a, w.toAlice.unread, w.sentByBob, w.readByAlice);
    var v := Worked(env, me, peer, w, item);
    assert v.alice[peer.nid] == Received(a, o);
    assert Lanes(env, me, peer, v, Received(a, o), b);
  }

  /** The genuine messages still to come when k entries have been worked through. */
  function Coming(answer: seq<Item>, k: nat): seq<Outgoing>
    requires k <= |answer|
  {
    Genuines(answer[k..])
  }

  lemma ComingAt(answer: seq<Item>, k: nat)
    requires k < |answer|
    ensures Coming(answer, k) == (if answer[k].Genuine? then [answer[k].out] else []) + Coming(answer, k + 1)
  {
    assert answer[k..][1..] == answer[k + 1..];
  }

  lemma ComingEnds(answer: seq<Item>)
    ensures Coming(answer, 0) == Genuines(answer) && Coming(answer, |answer|) == []
  {
    assert answer[0..] == answer;
  }

  lemma MarkReadKeepsContents(box: Letterbox)
    requires box.unread != []
    ensures Contents(Letterbox(box.unread[1..], box.other + [box.unread[0].entry])) == Contents(box)
  {
    assert Letters(box.unread) == [box.unread[0].entry] + Letters(box.unread[1..]);
  }

  /** One entry of a fetch: rest is what is still to come of the unread messages. */
  lemma ItemCommits(env: Environment, me: Party, peer: Party, w: Mail, item: Item, rest: seq<Outgoing>)
    requires peer.nid != "" && Committed(env, me, peer, w)
    requires w.toAlice.unread == (if item.Genuine? then [item.out] else []) + rest
    requires item.Foreign? ==> Harmless(env, me, peer, w.alice, item.entry)
    ensures var v := Worked(env, me, peer, w, item);
            Committed(env, me, peer, v) && v.toAlice.unread == rest && Contents(v.toAlice) == Contents(w.toAlice)
  {
    if item.Genuine? {
      GenuineCommits(env, me, peer, w, item);
      MarkReadKeepsContents(w.toAlice);
    } else {
      ForeignCommits(env, me, peer, w, item);
    }
  }

  /** A fetch keeps the sessions in step, entry by entry: what is still unread is
      what it has not come to yet. */
  lemma {:induction false} FetchCommits(env: Environment, me: Party, peer: Party, w: Mail, answer: seq<Item>, k: nat)
    requires peer.nid != "" && Committed(env, me, peer, w)
    requires Genuines(answer) == w.toAlice.unread && k <= |answer| && HarmlessTo(env, me, peer, w, answer, k)
    ensures Committed(env, me, peer, WorkedTo(env, me, peer, w, answer, k))
    ensures WorkedTo(env, me, peer, w, answer, k).toAlice.unread == Coming(answer, k)
    ensures Contents(WorkedTo(env, me, peer, w, answer, k).toAlice) == Contents(w.toAlice)
  {
    hide Worked, Coming, Committed, Contents;
    if k == 0 {
      ComingEnds(answer);
    } else {
      FetchCommits(env, me, peer, w, answer, k - 1);
      ComingAt(answer, k - 1);
      ItemCommits(env, me, peer, WorkedTo(env, me, peer, w, answer, k - 1), answer[k - 1], Coming(answer, k));
    }
  }

  /** A fetch reads all that is unread and leaves every entry in the mailbox. */
  lemma EveryFetchReadsAll(env: Environment, me: Party, peer: Party, w: Mail, answer: seq<Item>)
    requires peer.nid != "" && Committed(env, me, peer, w)
    requires HandsOut(w.toAlice, answer) && HarmlessInTurn(env, me, peer, w, answer)
    ensures Committed(env, me, peer, Moved(env, me, peer, w, Fetch(answer)))
    ensures var box := Moved(env, me, peer, w, Fetch(answer)).toAlice;
            box.unread == [] && Contents(box) == Contents(w.toAlice)
  {
    ComingEnds(answer);
    FetchCommits(env, me, peer, w, answer, |answer|);
  }

  /** A party that holds the session may always write. */
  lemma LaterPostCommits(env: Environment, me: Party, peer: Party, w: Mail, message: string, draw: Draw)
    requires env.Sound() && env.p.HonestPair(peer.pk, peer.sk) && Committed(env, me, peer, w)
    requires |env.p.utf8Encode(message)| <= Padding.MAX_MESSAGE && peer.nid in w.alice
    ensures Committed(env, me, peer, Posted(env, me, peer, w, message, draw))
  {
    var padded := PaddedText(env, message, draw.noise);
    var out := Outgoing(message, padded, Outbound(env, me, peer, w.alice, message, draw).value.0);
    var a, b := w.alice[peer.nid], View(env, peer, me, w.bob, w.toBob.unread).value;
    MixedFrameOpens(env.p, a.sendChainKey, padded, peer.pk, peer.sk, draw.messageCoins, draw.nonce);
    var next := MixedFrame(env.p, a.sendChainKey, padded, peer.pk, draw.messageCoins, draw.nonce).1;
    PostKeepsLane(env, me, a, b, peer.sk, w.toBob.unread, w.sentByAlice, w.readByBob, out, next);
    var v := Posted(env, me, peer, w, message, draw);
    assert View(env, peer, me, v.bob, v.toBob.unread).value == b;
    assert Lanes(env, me, peer, v, Sent(a, next), b);
  }

  /** What a party without a session sends. */
  lemma FirstOutbound(env: Environment, me: Party, peer: Party, sessions: Sessions, message: string, draw: Draw)
    requires peer.nid !in sessions && |env.p.utf8Encode(message)| <= Padding.MAX_MESSAGE
    requires Opening(env, me, peer, draw).Ok?
    ensures var start := Opening(env, me, peer, draw).value;
            var text := PaddedText(env, message, draw.noise);
            var (frame, next) := FirstFrame(env.p, start.sendChainKey, text, draw.nonce);
            var ct := env.p.encapsulate(peer.pk, draw.sessionCoins).0;
            Outbound(env, me, peer, sessions, message, draw)
            == Ok((RelayEntry(Envelope(Some(env.p.base64Encode(frame)), Some(HexEncode(ct))), me.nid, me.fp),
                   Sent(start, next)))
  {
  }

  /** The entry of a very first message determines the session the peer will have. */
  lemma OpeningIsSeen(env: Environment, me: Party, peer: Party, w: Mail, message: string, draw: Draw)
    returns (out: Outgoing, b: RatchetState, next: Bytes)
    requires env.Sound() && env.p.HonestPair(peer.pk, peer.sk)
    requires peer.nid !in w.alice && me.nid !in w.bob && |env.p.utf8Encode(message)| <= Padding.MAX_MESSAGE
    ensures var start := Opening(env, me, peer, draw);
            && start.Ok? && WellMade(env, me, out)
            && FirstFrame(env.p, start.value.sendChainKey, out.padded, draw.nonce).1 == next
            && WireOf(out).text
            == env.p.base64Encode(FirstFrame(env.p, start.value.sendChainKey, out.padded, draw.nonce).0)
            && out.padded == PaddedText(env, message, draw.noise)
            && Posted(env, me, peer, w, message, draw)
            == w.(alice := w.alice[peer.nid := Sent(start.value, next)],
                  toBob := w.toBob.(unread := w.toBob.unread + [out]), sentByAlice := w.sentByAlice + [out])
            && View(env, peer, me, w.bob, [out]) == Ok(b)
            && b.recvChainKey == start.value.sendChainKey && b.sendChainKey == start.value.recvChainKey
            && b.sendMessageNumber == b.recvMessageNumber == 0
            && start.value.isInitiator && !b.isInitiator
  {
    var (ct, secret) := env.p.encapsulate(peer.pk, draw.sessionCoins);
    HexRoundTrip(ct);
    b := InitialState(env.p, me.fp, me.nid, peer.fp, false, secret).value;
    out := Outgoing(message, PaddedText(env, message, draw.noise),
                    Outbound(env, me, peer, w.alice, message, draw).value.0);
    next := FirstFrame(env.p, Opening(env, me, peer, draw).value.sendChainKey, out.padded, draw.nonce).1;
  }

  /** The very first message keeps the sessions in step, although the peer's does
      not exist yet. */
  lemma FirstPostCommits(env: Environment, me: Party, peer: Party, w: Mail, message: string, draw: Draw)
    requires env.Sound() && env.p.HonestPair(peer.pk, peer.sk) && Committed(env, me, peer, w)
    requires peer.nid !in w.alice && me.nid !in w.bob
    requires |env.p.utf8Encode(message)| <= Padding.MAX_MESSAGE && FirstPostReadable(env, me, peer, message, draw)
    ensures Committed(env, me, peer, Posted(env, me, peer, w, message, draw))
  {
    var out, b, next := OpeningIsSeen(env, me, peer, w, message, draw);
    var a := Opening(env, me, peer, draw).value;
    FirstFrameOpens(env.p, a.sendChainKey, out.padded, peer.sk, draw.nonce);
    PostKeepsLane(env, me, a, b, peer.sk, [], [], [], out, next);
    assert w.toBob.unread + [out] == [out];
    assert Lanes(env, me, peer, Posted(env, me, peer, w, message, draw), Sent(a, next), b);
  }

  /** What is not unread does not matter. */
  lemma OthersDoNotMatter(env: Environment, me: Party, peer: Party, w: Mail, toAlice: Letterbox, toBob: Letterbox)
    requires Committed(env, me, peer, w)
    requires toAlice.unread == w.toAlice.unread && toBob.unread == w.toBob.unread
    ensures Committed(env, me, peer, w.(toAlice := toAlice, toBob := toBob))
  {
  }

  lemma MoveCommits(env: Environment, me: Party, peer: Party, w: Mail, a: MailAction)
    requires env.Sound() && env.p.HonestPair(peer.pk, peer.sk) && peer.nid != ""
    requires Committed(env, me, peer, w) && Allowed(env, me, peer, w, a)
    requires !Damages(env, me, peer, w, a)
    ensures Committed(env, me, peer, Moved(env, me, peer, w, a))
  {
    hide Committed;
    var v := Moved(env, me, peer, w, a);
    match a
    case Post(message, draw, outcome) =>
      if outcome.Refused? {
      } else if outcome.Unanswered? {
        OthersDoNotMatter(env, me, peer, w, w.toAlice, v.toBob);
      } else if peer.nid in w.alice {
        LaterPostCommits(env, me, peer, w, message, draw);
      } else {
        FirstPostCommits(env, me, peer, w, message, draw);
      }
    case Inject(entry) => OthersDoNotMatter(env, me, peer, w, v.toAlice, w.toBob);
    case Fetch(answer) => EveryFetchReadsAll(env, me, peer, w, answer);
    case Discard(rest) => OthersDoNotMatter(env, me, peer, w, rest, w.toBob);
  }

  // ---------------------------------------------------------------- //
  //  Whole fetches                                                    //
  // ---------------------------------------------------------------- //

  function EntriesOf(answer: seq<Item>): (r: seq<RelayEntry>)
    ensures |r| == |answer|
  {
    seq(|answer|, i requires 0 <= i < |answer| => answer[i].Entry())
  }

  lemma FetchAllSnoc(env: Environment, me: Party, sessions: Sessions, entries: seq<RelayEntry>, last: RelayEntry)
    ensures var (texts, before) := RelayFetchAll(env, me, sessions, entries);
            var (r, after) := RelayDecrypt(env, me, before, last);
            RelayFetchAll(env, me, sessions, entries + [last])
            == (if r.Ok? then texts + [r.value] else texts, after)
  {
    assert (entries + [last])[..|entries|] == entries;
  }

  /** The texts a fetch yields from entries of one sender. */
  function ReadFrom(env: Environment, me: Party, sessions: Sessions, entries: seq<RelayEntry>, nid: string)
    : seq<string>
  {
    if entries == [] then []
    else
      var init, last := entries[..|entries| - 1], entries[|entries| - 1];
      var r := RelayDecrypt(env, me, RelayFetchAll(env, me, sessions, init).1, last).0;
      ReadFrom(env, me, sessions, init, nid)
      + if r.Ok? && SenderOf(env, last) == nid then [r.value] else []
  }

  lemma ReadFromSnoc(env: Environment, me: Party, sessions: Sessions, entries: seq<RelayEntry>, last: RelayEntry,
                     nid: string)
    ensures var r := RelayDecrypt(env, me, RelayFetchAll(env, me, sessions, entries).1, last).0;
            ReadFrom(env, me, sessions, entries + [last], nid)
            == ReadFrom(env, me, sessions, entries, nid)
             + if r.Ok? && SenderOf(env, last) == nid then [r.value] else []
  {
    assert (entries + [last])[..|entries|] == entries;
  }

  /** v is what is left of w after a fetch of the entries. */
  ghost predicate IsFetchOf(env: Environment, me: Party, peer: Party, w: Mail, v: Mail, entries: seq<RelayEntry>,
                            harmless: bool) {
    && v == w.(alice := RelayFetchAll(env, me, w.alice, entries).1,
               toAlice := v.toAlice, readByAlice := v.readByAlice)
    && (harmless ==> v.readByAlice == w.readByAlice + ReadFrom(env, me, w.alice, entries, peer.nid))
  }

  lemma NothingIsFetched(env: Environment, me: Party, peer: Party, w: Mail, harmless: bool)
    ensures IsFetchOf(env, me, peer, w, w, [], harmless)
  {
  }

  lemma ItemIsFetched(env: Environment, me: Party, peer: Party, w: Mail, v: Mail, entries: seq<RelayEntry>,
                      harmless: bool, still: bool, item: Item)
    requires IsFetchOf(env, me, peer, w, v, entries, harmless)
    requires still ==> harmless && (item.Foreign? ==> Harmless(env, me, peer, v.alice, item.entry))
    ensures IsFetchOf(env, me, peer, w, Worked(env, me, peer, v, item), entries + [item.Entry()], still)
  {
    FetchAllSnoc(env, me, w.alice, entries, item.Entry());
    ReadFromSnoc(env, me, w.alice, entries, item.Entry(), peer.nid);
  }

  function EntriesTo(answer: seq<Item>, k: nat): seq<RelayEntry>
    requires k <= |answer|
  {
    EntriesOf(answer)[..k]
  }

  lemma EntriesToNext(answer: seq<Item>, k: nat)
    requires k < |answer|
    ensures EntriesTo(answer, k + 1) == EntriesTo(answer, k) + [answer[k].Entry()]
  {
  }

  lemma EntriesToEnds(answer: seq<Item>)
    ensures EntriesTo(answer, 0) == [] && EntriesTo(answer, |answer|) == EntriesOf(answer)
  {
  }

  lemma HarmlessToNext(env: Environment, me: Party, peer: Party, w: Mail, answer: seq<Item>, k: nat)
    requires k < |answer| && HarmlessTo(env, me, peer, w, answer, k + 1)
    ensures HarmlessTo(env, me, peer, w, answer, k)
    ensures answer[k].Foreign? ==>
              Harmless(env, me, peer, WorkedTo(env, me, peer, w, answer, k).alice, answer[k].entry)
  {
  }

  lemma {:induction false} PrefixIsClientFetch(env: Environment, me: Party, peer: Party, w: Mail,
                                               answer: seq<Item>, k: nat)
    requires k <= |answer|
    ensures IsFetchOf(env, me, peer, w, WorkedTo(env, me, peer, w, answer, k), EntriesTo(answer, k),
                      HarmlessTo(env, me, peer, w, answer, k))
  {
    hide EntriesTo, EntriesOf, Harmless, HarmlessTo, Worked, IsFetchOf;
    if k == 0 {
      EntriesToEnds(answer);
      NothingIsFetched(env, me, peer, w, HarmlessTo(env, me, peer, w, answer, 0));
    } else {
      PrefixIsClientFetch(env, me, peer, w, answer, k - 1);
      EntriesToNext(answer, k - 1);
      if HarmlessTo(env, me, peer, w, answer, k) {
        HarmlessToNext(env, me, peer, w, answer, k - 1);
      }
      ItemIsFetched(env, me, peer, w, WorkedTo(env, me, peer, w, answer, k - 1), EntriesTo(answer, k - 1),
                    HarmlessTo(env, me, peer, w, answer, k - 1), HarmlessTo(env, me, peer, w, answer, k),
                    answer[k - 1]);
    }
  }

  /** The fetch of a move is the fetch of the client: it leaves the same session table
      and, when nothing else is accepted into the peer's session, what it reads is all
      that the client reads from the peer. */
  lemma FetchIsClientFetch(env: Environment, me: Party, peer: Party, w: Mail, answer: seq<Item>)
    ensures IsFetchOf(env, me, peer, w, Moved(env, me, peer, w, Fetch(answer)), EntriesOf(answer),
                      HarmlessInTurn(env, me, peer, w, answer))
  {
    hide IsFetchOf, EntriesOf, HarmlessTo, EntriesTo;
    PrefixIsClientFetch(env, me, peer, w, answer, |answer|);
    EntriesToEnds(answer);
  }
}
