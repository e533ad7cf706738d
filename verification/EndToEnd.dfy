/** The clients over the relay: every message goes through the relay's memory and
    database, and every fetch reads what the relay's query returns. */
module EndToEnd {

  import opened Wrappers
  import opened Mailboxes
  import opened RelayState
  import RelayRuns
  import opened Client
  import opened Delivery
  import opened DeliveryRuns
  import opened Sequences
  import opened Sorting
  import Padding

  const CLIENT_SEQ: int := 1

  /** The JSON form of a blob. */
  datatype Json = Json(render: SignedBlob -> string, parse: string -> SignedBlob) {
    ghost predicate Inverse() {
      forall b: SignedBlob :: b.Envelope? ==> parse(render(b)) == b
    }
  }

  /** What the client stores for an entry, always with sequence number 1. */
  function Packed(json: Json, entry: RelayEntry, now: nat): MailboxEntry {
    MailboxEntry(json.render(entry.blob), entry.senderNid, entry.senderFp, CLIENT_SEQ, now)
  }

  /** What the client makes of an entry the relay hands out. */
  function Handed(json: Json, e: MailboxEntry): RelayEntry {
    RelayEntry(json.parse(e.signedBlob), e.senderNid, e.senderFp)
  }

  function HandedAll(json: Json, es: Entries): (r: seq<RelayEntry>)
    ensures |r| == |es|
  {
    seq(|es|, i requires 0 <= i < |es| => Handed(json, es[i]))
  }

  /** An undelivered entry, and what it is to its recipient. */
  datatype Tagged = Tagged(item: Item, row: MailboxEntry)

  function Items(ts: seq<Tagged>): (r: seq<Item>)
    ensures |r| == |ts|
  {
    seq(|ts|, i requires 0 <= i < |ts| => ts[i].item)
  }

  function RowsIn(ts: seq<Tagged>): (r: Entries)
    ensures |r| == |ts|
  {
    seq(|ts|, i requires 0 <= i < |ts| => ts[i].row)
  }

  function SeqOf(): MailboxEntry -> int {
    (e: MailboxEntry) => e.seqNo
  }

  function TagSeq(): Tagged -> int {
    (t: Tagged) => t.row.seqNo
  }

  /** The answer of SELECT ... ORDER BY seq, ties in storage order. */
  function Answer(undelivered: Entries): Entries {
    SortBy(undelivered, SeqOf())
  }

  predicate Consistent(json: Json, t: Tagged) {
    t.item.Entry() == Handed(json, t.row) && (t.item.Genuine? ==> t.row.seqNo == CLIENT_SEQ)
  }

  predicate AllConsistent(json: Json, ts: seq<Tagged>) {
    forall i :: 0 <= i < |ts| ==> Consistent(json, ts[i])
  }

  // ---------------------------------------------------------------- //
  //  The query                                                        //
  // ---------------------------------------------------------------- //

  lemma TagsHead(ts: seq<Tagged>)
    requires ts != []
    ensures Items(ts) == [ts[0].item] + Items(ts[1..]) && RowsIn(ts) == [ts[0].row] + RowsIn(ts[1..])
    ensures Genuines(Items(ts))
         == (if ts[0].item.Genuine? then [ts[0].item.out] else []) + Genuines(Items(ts[1..]))
    ensures Others(Items(ts)) == (if ts[0].item.Foreign? then [ts[0].item.entry] else []) + Others(Items(ts[1..]))
  {
    assert Items(ts)[1..] == Items(ts[1..]);
  }

  lemma TagsCons(t: Tagged, ts: seq<Tagged>)
    ensures Items([t] + ts) == [t.item] + Items(ts) && RowsIn([t] + ts) == [t.row] + RowsIn(ts)
    ensures Genuines(Items([t] + ts)) == (if t.item.Genuine? then [t.item.out] else []) + Genuines(Items(ts))
    ensures Others(Items([t] + ts)) == (if t.item.Foreign? then [t.item.entry] else []) + Others(Items(ts))
  {
    TagsHead([t] + ts);
    assert ([t] + ts)[1..] == ts;
  }

  /** Sorting the tags sorts the rows. */
  lemma {:induction false} InsertedRows(t: Tagged, ts: seq<Tagged>)
    ensures RowsIn(InsertBy(t, ts, TagSeq())) == InsertBy(t.row, RowsIn(ts), SeqOf())
  {
    TagsCons(t, ts);
    if ts != [] && TagSeq()(t) > TagSeq()(ts[0]) {
      InsertedRows(t, ts[1..]);
      TagsHead(ts);
      TagsCons(ts[0], InsertBy(t, ts[1..], TagSeq()));
      assert RowsIn(ts)[1..] == RowsIn(ts[1..]);
    }
  }

  lemma {:induction false} SortedRows(ts: seq<Tagged>)
    ensures RowsIn(SortBy(ts, TagSeq())) == Answer(RowsIn(ts))
  {
    if ts != [] {
      SortedRows(ts[1..]);
      InsertedRows(ts[0], SortBy(ts[1..], TagSeq()));
      TagsHead(ts);
      assert RowsIn(ts)[1..] == RowsIn(ts[1..]);
    }
  }

  lemma InsertedConsistent(json: Json, t: Tagged, ts: seq<Tagged>)
    requires Consistent(json, t) && AllConsistent(json, ts)
    ensures AllConsistent(json, InsertBy(t, ts, TagSeq()))
  {
    var longer := InsertBy(t, ts, TagSeq());
    forall i | 0 <= i < |longer| ensures Consistent(json, longer[i]) {
      assert longer[i] in multiset{t} + multiset(ts);
    }
  }

  function OthersIn(ts: seq<Tagged>): multiset<RelayEntry> {
    multiset(Others(Items(ts)))
  }

  lemma OthersCons(t: Tagged, ts: seq<Tagged>)
    ensures OthersIn([t] + ts) == (if t.item.Foreign? then multiset{t.item.entry} else multiset{}) + OthersIn(ts)
  {
    TagsCons(t, ts);
  }

  lemma {:induction false} InsertedOthers(t: Tagged, ts: seq<Tagged>)
    ensures OthersIn(InsertBy(t, ts, TagSeq())) == OthersIn([t] + ts)
  {
    hide OthersIn;
    OthersCons(t, ts);
    if ts != [] && TagSeq()(t) > TagSeq()(ts[0]) {
      InsertedOthers(t, ts[1..]);
      OthersCons(t, ts[1..]);
      OthersCons(ts[0], ts[1..]);
      OthersCons(ts[0], InsertBy(t, ts[1..], TagSeq()));
      assert ts == [ts[0]] + ts[1..];
    }
  }

  /** Client messages all have the same sequence number, so an insertion leaves
      those already there behind the inserted one. */
  lemma {:induction false} InsertedGenuines(json: Json, t: Tagged, ts: seq<Tagged>)
    requires Consistent(json, t) && AllConsistent(json, ts)
    ensures Genuines(Items(InsertBy(t, ts, TagSeq())))
         == (if t.item.Genuine? then [t.item.out] else []) + Genuines(Items(ts))
  {
    TagsCons(t, ts);
    if ts != [] && TagSeq()(t) > TagSeq()(ts[0]) {
      InsertedGenuines(json, t, ts[1..]);
      TagsHead(ts);
      TagsCons(ts[0], InsertBy(t, ts[1..], TagSeq()));
      assert t.item.Foreign? || ts[0].item.Foreign?;
    }
  }

  lemma {:induction false} SortedGenuines(json: Json, ts: seq<Tagged>)
    requires AllConsistent(json, ts)
    ensures Genuines(Items(SortBy(ts, TagSeq()))) == Genuines(Items(ts))
    ensures OthersIn(SortBy(ts, TagSeq())) == OthersIn(ts)
    ensures AllConsistent(json, SortBy(ts, TagSeq()))
  {
    if ts != [] {
      SortedGenuines(json, ts[1..]);
      var rest := SortBy(ts[1..], TagSeq());
      InsertedConsistent(json, ts[0], rest);
      InsertedGenuines(json, ts[0], rest);
      InsertedOthers(ts[0], rest);
      TagsHead(ts);
      hide OthersIn;
      OthersCons(ts[0], rest);
      OthersCons(ts[0], ts[1..]);
      assert ts == [ts[0]] + ts[1..];
    }
  }

  // ---------------------------------------------------------------- //
  //  The whole system                                                 //
  // ---------------------------------------------------------------- //

  /** The clients' mail, the relay, and a tag for every undelivered entry of each
      party. The tags and the letterboxes of the mail are what nobody sees. */
  datatype Net = Net(mail: Mail, relay: Relay, inBob: seq<Tagged>, inAlice: seq<Tagged>) {
    function Flip(): Net {
      Net(mail.Flip(), relay, inAlice, inBob)
    }
  }

  datatype NetAction =
    | Write(message: string, draw: Draw, now: nat, outcome: Outcome)
    | Deposit(entry: MailboxEntry)             // a store by anybody else into the mover's mailbox
    | Elsewhere(ev: RelayRuns.RelayEvent)      // other mailboxes, clean-ups and restarts
    | Read
    | Clear                                    // a purge of the mover's mailbox
    | Acknowledge(seqNo: int)                  // marks the mover's entries with that number delivered

  datatype NetMove = NetMove(byBob: bool, action: NetAction)

  const START: Net := Net(NO_MAIL, Relay(map[], Some([])), [], [])

  /** Everything handed out once is read from then on. */
  function Seen(ts: seq<Tagged>): (r: seq<Tagged>)
    ensures |r| == |ts|
  {
    seq(|ts|, i requires 0 <= i < |ts| => Tagged(Foreign(ts[i].item.Entry()), ts[i].row))
  }

  function HandedOut(ts: seq<Tagged>): seq<Item> {
    Items(SortBy(ts, TagSeq()))
  }

  ghost function Written(env: Environment, json: Json, me: Party, peer: Party, n: Net,
                         message: string, draw: Draw, now: nat, outcome: Outcome): Net
    requires |env.p.utf8Encode(message)| <= Padding.MAX_MESSAGE && !outcome.Refused?
  {
    match Outbound(env, me, peer, n.mail.alice, message, draw)
    case Err(_) => n
    case Ok((entry, st)) =>
      var row := Packed(json, entry, now);
      var item := if outcome.Saved? then Genuine(Outgoing(message, PaddedText(env, message, draw.noise), entry))
                  else Foreign(entry);
      Net(Moved(env, me, peer, n.mail, Post(message, draw, outcome)),
          RelayRuns.Apply(n.relay, RelayRuns.Store(peer.nid, row)),
          n.inBob + [Tagged(item, row)], n.inAlice)
  }

  function OtherTag(seqNo: int): Tagged -> bool {
    (t: Tagged) => t.row.seqNo != seqNo
  }

  function BoxOf(ts: seq<Tagged>): Letterbox {
    Letterbox(Genuines(Items(ts)), Others(Items(ts)))
  }

  /** What a move of the system is to the mail. */
  ghost function MailPart(json: Json, n: Net, a: NetAction): Option<MailAction> {
    match a
    case Write(message, draw, _, outcome) => Some(Post(message, draw, outcome))
    case Deposit(row) => Some(Inject(Handed(json, row)))
    case Elsewhere(_) => None
    case Read => Some(Fetch(HandedOut(n.inAlice)))
    case Clear => Some(PURGE)
    case Acknowledge(seqNo) => Some(Discard(BoxOf(Filter(n.inAlice, OtherTag(seqNo)))))
  }

  ghost function NetMoved(env: Environment, json: Json, me: Party, peer: Party, n: Net, a: NetAction): Net {
    match a
    case Write(message, draw, now, outcome) =>
      if |env.p.utf8Encode(message)| > Padding.MAX_MESSAGE || outcome.Refused? then n
      else Written(env, json, me, peer, n, message, draw, now, outcome)
    case Deposit(row) =>
      n.(mail := Moved(env, me, peer, n.mail, Inject(Handed(json, row))),
         relay := RelayRuns.Apply(n.relay, RelayRuns.Store(me.nid, row)),
         inAlice := n.inAlice + [Tagged(Foreign(Handed(json, row)), row)])
    case Elsewhere(ev) => n.(relay := RelayRuns.Apply(n.relay, ev))
    case Read => n.(mail := Moved(env, me, peer, n.mail, Fetch(HandedOut(n.inAlice))), inAlice := Seen(n.inAlice))
    case Clear =>
      n.(mail := Moved(env, me, peer, n.mail, PURGE),
         relay := RelayRuns.Apply(n.relay, RelayRuns.Purge(me.nid)), inAlice := [])
    case Acknowledge(seqNo) =>
      var kept := Filter(n.inAlice, OtherTag(seqNo));
      n.(mail := Moved(env, me, peer, n.mail, Discard(BoxOf(kept))),
         relay := RelayRuns.Apply(n.relay, RelayRuns.Ack(me.nid, seqNo)), inAlice := kept)
  }

  predicate Touches(ev: RelayRuns.RelayEvent, nid: string) {
    match ev
    case Store(to, _) => to == nid
    case Ack(to, _) => to == nid
    case Purge(to) => to == nid
    case CleanUp(_) => false
    case Reboot => false
  }

  /** Readable opening messages, and no damaging moves; other mailboxes are free. */
  ghost predicate NetAllowed(env: Environment, json: Json, me: Party, peer: Party, n: Net, a: NetAction) {
    && (a.Elsewhere? ==> !Touches(a.ev, me.nid) && !Touches(a.ev, peer.nid))
    && (a.Write? ==> Allowed(env, me, peer, n.mail, MailPart(json, n, a).value))
    && (MailPart(json, n, a).Some? ==> !Damages(env, me, peer, n.mail, MailPart(json, n, a).value))
  }

  ghost function NetStep(env: Environment, json: Json, alice: Party, bob: Party, n: Net, m: NetMove): Net {
    if m.byBob then NetMoved(env, json, bob, alice, n.Flip(), m.action).Flip()
    else NetMoved(env, json, alice, bob, n, m.action)
  }

  ghost function NetRun(env: Environment, json: Json, alice: Party, bob: Party, moves: seq<NetMove>): Net {
    if moves == [] then START
    else NetStep(env, json, alice, bob, NetRun(env, json, alice, bob, moves[..|moves| - 1]), moves[|moves| - 1])
  }

  ghost predicate NetAllowedRun(env: Environment, json: Json, alice: Party, bob: Party, moves: seq<NetMove>) {
    moves != [] ==>
      var before, m := moves[..|moves| - 1], moves[|moves| - 1];
      var n := NetRun(env, json, alice, bob, before);
      && NetAllowedRun(env, json, alice, bob, before)
      && if m.byBob then NetAllowed(env, json, bob, alice, n.Flip(), m.action)
         else NetAllowed(env, json, alice, bob, n, m.action)
  }

  /** A party's undelivered rows are its letterbox: the unread messages among them, in
      storage order, and the rest. Memory holds no more than the rows. */
  ghost predicate InMailbox(json: Json, r: Relay, nid: string, ts: seq<Tagged>, box: Letterbox) {
    RelayRuns.Refines(r, nid, RowsIn(ts)) && AllConsistent(json, ts) && HandsOut(box, Items(ts))
  }

  ghost predicate InBoxes(json: Json, alice: Party, bob: Party, n: Net) {
    && InMailbox(json, n.relay, alice.nid, n.inAlice, n.mail.toAlice)
    && InMailbox(json, n.relay, bob.nid, n.inBob, n.mail.toBob)
  }

  ghost predicate Coupled(env: Environment, json: Json, alice: Party, bob: Party, n: Net) {
    Committed(env, alice, bob, n.mail) && InBoxes(json, alice, bob, n)
  }

  lemma CoupledFlips(env: Environment, json: Json, alice: Party, bob: Party, n: Net)
    ensures Coupled(env, json, alice, bob, n) <==> Coupled(env, json, bob, alice, n.Flip())
  {
    CommittedFlips(env, alice, bob, n.mail);
  }

  // ---------------------------------------------------------------- //
  //  Single moves                                                     //
  // ---------------------------------------------------------------- //

  /** The letterbox with one more entry. */
  function WithItem(box: Letterbox, item: Item): Letterbox {
    if item.Genuine? then box.(unread := box.unread + [item.out]) else box.(other := box.other + [item.entry])
  }

  lemma WithItemHandsOut(ts: seq<Tagged>, box: Letterbox, t: Tagged)
    requires HandsOut(box, Items(ts))
    ensures HandsOut(WithItem(box, t.item), Items(ts + [t]))
  {
    hide HandsOut, WithItem;
    assert Items(ts + [t]) == Items(ts) + [t.item];
    HandsOutSnoc(box, Items(ts), t.item);
  }

  lemma HandsOutSnoc(box: Letterbox, items: seq<Item>, item: Item)
    requires HandsOut(box, items)
    ensures HandsOut(WithItem(box, item), items + [item])
  {
    hide Genuines, Others;
    GenuinesSnoc(items, item);
  }

  lemma TagsSnoc(json: Json, ts: seq<Tagged>, t: Tagged)
    requires AllConsistent(json, ts) && Consistent(json, t)
    ensures RowsIn(ts + [t]) == RowsIn(ts) + [t.row] && AllConsistent(json, ts + [t])
  {
  }

  lemma StoreInMailbox(json: Json, r: Relay, nid: string, ts: seq<Tagged>, box: Letterbox, t: Tagged)
    requires InMailbox(json, r, nid, ts, box) && Consistent(json, t)
    ensures InMailbox(json, RelayRuns.Apply(r, RelayRuns.Store(nid, t.row)), nid, ts + [t], WithItem(box, t.item))
  {
    RelayRuns.StepRefinesPending(r, RelayRuns.Store(nid, t.row), nid, RowsIn(ts));
    TagsSnoc(json, ts, t);
    WithItemHandsOut(ts, box, t);
  }

  lemma OthersKeepMailbox(json: Json, r: Relay, nid: string, ts: seq<Tagged>, box: Letterbox, ev: RelayRuns.RelayEvent)
    requires InMailbox(json, r, nid, ts, box) && !Touches(ev, nid)
    ensures InMailbox(json, RelayRuns.Apply(r, ev), nid, ts, box)
  {
    RelayRuns.StepRefinesPending(r, ev, nid, RowsIn(ts));
  }

  lemma PurgeInMailbox(json: Json, r: Relay, nid: string, ts: seq<Tagged>, box: Letterbox)
    requires InMailbox(json, r, nid, ts, box)
    ensures InMailbox(json, RelayRuns.Apply(r, RelayRuns.Purge(nid)), nid, [], EMPTY_BOX)
  {
    RelayRuns.StepRefinesPending(r, RelayRuns.Purge(nid), nid, RowsIn(ts));
  }

  lemma ConsBothSides<T>(e: T, all: seq<T>, gs: seq<T>, os: seq<T>)
    requires multiset(all) == multiset(gs) + multiset(os)
    ensures multiset([e] + all) == multiset([e] + gs) + multiset(os)
    ensures multiset([e] + all) == multiset(gs) + multiset([e] + os)
  {
  }

  lemma {:induction false} AllEntries(items: seq<Item>)
    ensures multiset(EntriesOf(items)) == multiset(Letters(Genuines(items))) + multiset(Others(items))
  {
    if items == [] {
      assert Letters([]) == [];
    } else {
      var e, rest := items[0].Entry(), items[1..];
      var gs, os := Letters(Genuines(rest)), Others(rest);
      AllEntries(rest);
      ConsBothSides(e, EntriesOf(rest), gs, os);
      assert EntriesOf(items) == [e] + EntriesOf(rest);
      if items[0].Genuine? {
        assert Letters(Genuines(items)) == [e] + gs && Others(items) == os;
      } else {
        assert Letters(Genuines(items)) == gs && Others(items) == [e] + os;
      }
    }
  }

  lemma SeenHead(ts: seq<Tagged>)
    requires ts != []
    ensures Seen(ts) == [Tagged(Foreign(ts[0].item.Entry()), ts[0].row)] + Seen(ts[1..])
    ensures EntriesOf(Items(ts)) == [ts[0].item.Entry()] + EntriesOf(Items(ts[1..]))
  {
  }

  lemma {:induction false} SeenIsForeign(ts: seq<Tagged>)
    ensures Genuines(Items(Seen(ts))) == [] && Others(Items(Seen(ts))) == EntriesOf(Items(ts))
  {
    if ts != [] {
      SeenIsForeign(ts[1..]);
      SeenHead(ts);
      TagsCons(Seen(ts)[0], Seen(ts[1..]));
    }
  }

  lemma SeenHandsOut(ts: seq<Tagged>, box: Letterbox, after: Letterbox)
    requires HandsOut(box, Items(ts)) && after.unread == [] && Contents(after) == Contents(box)
    ensures HandsOut(after, Items(Seen(ts)))
  {
    SeenIsForeign(ts);
    AllEntries(Items(ts));
    assert multiset(Letters(after.unread)) == multiset{};
  }

  lemma SeenRows(json: Json, ts: seq<Tagged>)
    requires AllConsistent(json, ts)
    ensures RowsIn(Seen(ts)) == RowsIn(ts) && AllConsistent(json, Seen(ts))
  {
  }

  lemma SeenInMailbox(json: Json, r: Relay, nid: string, ts: seq<Tagged>, box: Letterbox, after: Letterbox)
    requires InMailbox(json, r, nid, ts, box) && after.unread == [] && Contents(after) == Contents(box)
    ensures InMailbox(json, r, nid, Seen(ts), after)
  {
    SeenRows(json, ts);
    SeenHandsOut(ts, box, after);
  }

  /** What a read hands out is allowed as a fetch: all that is in the mailbox, the
      unread messages in storage order. */
  lemma ReadIsFetch(json: Json, ts: seq<Tagged>, box: Letterbox)
    requires AllConsistent(json, ts) && HandsOut(box, Items(ts))
    ensures HandsOut(box, HandedOut(ts))
  {
    SortedGenuines(json, ts);
  }

  lemma MailboxHandsOut(json: Json, r: Relay, nid: string, ts: seq<Tagged>, box: Letterbox)
    requires InMailbox(json, r, nid, ts, box)
    ensures HandsOut(box, HandedOut(ts))
  {
    ReadIsFetch(json, ts, box);
  }

  /** A read leaves everything in the mailbox, and all of it as read. */
  lemma ReadMailboxes(env: Environment, json: Json, me: Party, peer: Party, n: Net)
    requires peer.nid != "" && Coupled(env, json, me, peer, n) && NetAllowed(env, json, me, peer, n, Read)
    ensures InBoxes(json, me, peer, NetMoved(env, json, me, peer, n, Read))
  {
    hide Committed, InMailbox, Contents, HandsOut, HandedOut, Moved, HarmlessInTurn, RelayFetchAll, ReadFrom;
    assert HandsOut(n.mail.toAlice, HandedOut(n.inAlice)) by {
      MailboxHandsOut(json, n.relay, me.nid, n.inAlice, n.mail.toAlice);
    }
    EveryFetchReadsAll(env, me, peer, n.mail, HandedOut(n.inAlice));
    FetchIsClientFetch(env, me, peer, n.mail, HandedOut(n.inAlice));
    var after := Moved(env, me, peer, n.mail, Fetch(HandedOut(n.inAlice))).toAlice;
    SeenInMailbox(json, n.relay, me.nid, n.inAlice, n.mail.toAlice, after);
  }

  lemma OutboundReturns(env: Environment, json: Json, me: Party, peer: Party, sessions: Sessions, message: string,
                        draw: Draw, now: nat)
    requires json.Inverse() && |env.p.utf8Encode(message)| <= Padding.MAX_MESSAGE
    ensures match Outbound(env, me, peer, sessions, message, draw)
            case Err(_) => true
            case Ok((entry, _)) => Handed(json, Packed(json, entry, now)) == entry
  {
  }

  lemma WriteMailboxes(env: Environment, json: Json, me: Party, peer: Party, n: Net, message: string, draw: Draw,
                       now: nat, outcome: Outcome)
    requires json.Inverse() && me.nid != peer.nid && |env.p.utf8Encode(message)| <= Padding.MAX_MESSAGE
    requires InBoxes(json, me, peer, n) && !outcome.Refused?
    ensures var v := Written(env, json, me, peer, n, message, draw, now, outcome);
            v.mail == Moved(env, me, peer, n.mail, Post(message, draw, outcome)) && InBoxes(json, me, peer, v)
  {
    OutboundReturns(env, json, me, peer, n.mail.alice, message, draw, now);
    hide InMailbox, Outbound, Handed, PaddedText;
    match Outbound(env, me, peer, n.mail.alice, message, draw)
    case Err(_) =>
    case Ok((entry, st)) =>
      var row := Packed(json, entry, now);
      var item := if outcome.Saved? then Genuine(Outgoing(message, PaddedText(env, message, draw.noise), entry))
                  else Foreign(entry);
      StoreInMailbox(json, n.relay, peer.nid, n.inBob, n.mail.toBob, Tagged(item, row));
      OthersKeepMailbox(json, n.relay, me.nid, n.inAlice, n.mail.toAlice, RelayRuns.Store(peer.nid, row));
  }

  lemma DepositMailboxes(env: Environment, json: Json, me: Party, peer: Party, n: Net, row: MailboxEntry)
    requires me.nid != peer.nid && InBoxes(json, me, peer, n)
    ensures InBoxes(json, me, peer, NetMoved(env, json, me, peer, n, Deposit(row)))
  {
    hide InMailbox;
    StoreInMailbox(json, n.relay, me.nid, n.inAlice, n.mail.toAlice, Tagged(Foreign(Handed(json, row)), row));
    OthersKeepMailbox(json, n.relay, peer.nid, n.inBob, n.mail.toBob, RelayRuns.Store(me.nid, row));
  }

  lemma ElsewhereMailboxes(env: Environment, json: Json, me: Party, peer: Party, n: Net, ev: RelayRuns.RelayEvent)
    requires InBoxes(json, me, peer, n) && !Touches(ev, me.nid) && !Touches(ev, peer.nid)
    ensures InBoxes(json, me, peer, NetMoved(env, json, me, peer, n, Elsewhere(ev)))
  {
    hide InMailbox;
    OthersKeepMailbox(json, n.relay, me.nid, n.inAlice, n.mail.toAlice, ev);
    OthersKeepMailbox(json, n.relay, peer.nid, n.inBob, n.mail.toBob, ev);
  }

  lemma ClearMailboxes(env: Environment, json: Json, me: Party, peer: Party, n: Net)
    requires me.nid != peer.nid && InBoxes(json, me, peer, n)
    ensures InBoxes(json, me, peer, NetMoved(env, json, me, peer, n, Clear))
  {
    hide InMailbox;
    PurgeInMailbox(json, n.relay, me.nid, n.inAlice, n.mail.toAlice);
    OthersKeepMailbox(json, n.relay, peer.nid, n.inBob, n.mail.toBob, RelayRuns.Purge(me.nid));
  }

  lemma {:induction false} KeptRows(ts: seq<Tagged>, seqNo: int)
    ensures RowsIn(Filter(ts, OtherTag(seqNo))) == Filter(RowsIn(ts), OtherSeq(seqNo))
  {
    if ts != [] {
      KeptRows(ts[1..], seqNo);
      TagsHead(ts);
      assert RowsIn(ts)[1..] == RowsIn(ts[1..]);
      TagsCons(ts[0], Filter(ts[1..], OtherTag(seqNo)));
    }
  }

  lemma KeptConsistent(json: Json, ts: seq<Tagged>, seqNo: int)
    requires AllConsistent(json, ts)
    ensures AllConsistent(json, Filter(ts, OtherTag(seqNo)))
  {
    var kept := Filter(ts, OtherTag(seqNo));
    FilterMembers(ts, OtherTag(seqNo));
    forall i | 0 <= i < |kept| ensures Consistent(json, kept[i]) {
      assert kept[i] in ts;
    }
  }

  lemma AckInMailbox(json: Json, r: Relay, nid: string, ts: seq<Tagged>, box: Letterbox, seqNo: int)
    requires InMailbox(json, r, nid, ts, box)
    ensures var kept := Filter(ts, OtherTag(seqNo));
            InMailbox(json, RelayRuns.Apply(r, RelayRuns.Ack(nid, seqNo)), nid, kept, BoxOf(kept))
  {
    RelayRuns.StepRefinesPending(r, RelayRuns.Ack(nid, seqNo), nid, RowsIn(ts));
    KeptRows(ts, seqNo);
    KeptConsistent(json, ts, seqNo);
  }

  lemma AcknowledgeMailboxes(env: Environment, json: Json, me: Party, peer: Party, n: Net, seqNo: int)
    requires me.nid != peer.nid && InBoxes(json, me, peer, n)
    ensures InBoxes(json, me, peer, NetMoved(env, json, me, peer, n, Acknowledge(seqNo)))
  {
    hide InMailbox;
    AckInMailbox(json, n.relay, me.nid, n.inAlice, n.mail.toAlice, seqNo);
    OthersKeepMailbox(json, n.relay, peer.nid, n.inBob, n.mail.toBob, RelayRuns.Ack(me.nid, seqNo));
  }

  /** An acknowledgement drops no unread message if and only if there is none or it is
      for another number than the client uses. */
  lemma {:induction false} AcknowledgeExact(json: Json, ts: seq<Tagged>, seqNo: int)
    requires AllConsistent(json, ts)
    ensures Genuines(Items(Filter(ts, OtherTag(seqNo))))
         == if seqNo == CLIENT_SEQ then [] else Genuines(Items(ts))
  {
    if ts != [] {
      AcknowledgeExact(json, ts[1..], seqNo);
      TagsHead(ts);
      TagsCons(ts[0], Filter(ts[1..], OtherTag(seqNo)));
      assert Consistent(json, ts[0]);
    }
  }

  /** Every move keeps the mailboxes what the database says, and is an allowed move
      of the mail. */
  lemma NetMoveMailboxes(env: Environment, json: Json, me: Party, peer: Party, n: Net, a: NetAction)
    requires json.Inverse() && me.nid != peer.nid && !a.Read?
    requires InBoxes(json, me, peer, n) && NetAllowed(env, json, me, peer, n, a)
    ensures InBoxes(json, me, peer, NetMoved(env, json, me, peer, n, a))
  {
    match a
    case Write(message, draw, now, outcome) =>
      if !outcome.Refused? {
        WriteMailboxes(env, json, me, peer, n, message, draw, now, outcome);
      }
    case Deposit(row) => DepositMailboxes(env, json, me, peer, n, row);
    case Elsewhere(ev) => ElsewhereMailboxes(env, json, me, peer, n, ev);
    case Clear => ClearMailboxes(env, json, me, peer, n);
    case Acknowledge(seqNo) => AcknowledgeMailboxes(env, json, me, peer, n, seqNo);
  }

  lemma NetMoveIsMailMove(env: Environment, json: Json, me: Party, peer: Party, n: Net, a: NetAction)
    requires InBoxes(json, me, peer, n) && NetAllowed(env, json, me, peer, n, a)
    ensures match MailPart(json, n, a)
            case None => NetMoved(env, json, me, peer, n, a).mail == n.mail
            case Some(move) =>
              && NetMoved(env, json, me, peer, n, a).mail == Moved(env, me, peer, n.mail, move)
              && Allowed(env, me, peer, n.mail, move)
              && !Damages(env, me, peer, n.mail, move)
  {
    hide InMailbox, HandedOut, HandsOut, HarmlessTo;
    if a.Read? {
      MailboxHandsOut(json, n.relay, me.nid, n.inAlice, n.mail.toAlice);
    }
  }

  lemma NetMoveCoupled(env: Environment, json: Json, me: Party, peer: Party, n: Net, a: NetAction)
    requires env.Sound() && json.Inverse() && env.p.HonestPair(peer.pk, peer.sk)
    requires peer.nid != "" && me.nid != peer.nid
    requires Coupled(env, json, me, peer, n) && NetAllowed(env, json, me, peer, n, a)
    ensures Coupled(env, json, me, peer, NetMoved(env, json, me, peer, n, a))
  {
    hide Committed, InBoxes, NetAllowed, NetMoved, Moved;
    NetMoveIsMailMove(env, json, me, peer, n, a);
    if MailPart(json, n, a).Some? {
      MoveCommits(env, me, peer, n.mail, MailPart(json, n, a).value);
    }
    if a.Read? {
      ReadMailboxes(env, json, me, peer, n);
    } else {
      NetMoveMailboxes(env, json, me, peer, n, a);
    }
  }

  // ---------------------------------------------------------------- //
  //  Reads are the relay's and the client's                           //
  // ---------------------------------------------------------------- //

  lemma AnswerIsPossible(r: Relay, recipient: string)
    requires r.db.Some?
    ensures PossibleAnswer(r, recipient, Some(Answer(Undelivered(r.db.value, recipient))))
  {
    SortAscends(Undelivered(r.db.value, recipient), SeqOf());
  }

  /** The relay's fetch, with its fallback to memory, returns exactly the sorted rows. */
  lemma FetchedIsSorted(r: Relay, nid: string, ts: seq<Tagged>, now: nat)
    requires RelayRuns.Refines(r, nid, RowsIn(ts))
    ensures Fetched(r, nid, now, Some(Answer(Undelivered(r.db.value, nid)))) == RowsIn(SortBy(ts, TagSeq()))
  {
    SortedRows(ts);
    if RowsIn(ts) == [] {
      assert |multiset(InMemory(r.memory, nid))| == 0;
    }
  }

  lemma ItemsAreHanded(json: Json, ts: seq<Tagged>)
    requires AllConsistent(json, ts)
    ensures EntriesOf(Items(ts)) == HandedAll(json, RowsIn(ts))
  {
    assert forall i :: 0 <= i < |ts| ==> Consistent(json, ts[i]);
  }

  lemma ReadIsClientFetch(env: Environment, json: Json, me: Party, peer: Party, n: Net)
    requires AllConsistent(json, n.inAlice)
    ensures NetMoved(env, json, me, peer, n, Read).mail.alice
         == RelayFetchAll(env, me, n.mail.alice, HandedAll(json, RowsIn(SortBy(n.inAlice, TagSeq())))).1
  {
    var ts := SortBy(n.inAlice, TagSeq());
    SortedGenuines(json, n.inAlice);
    ItemsAreHanded(json, ts);
    hide SortBy, Consistent, EntriesOf;
    FetchIsClientFetch(env, me, peer, n.mail, Items(ts));
  }

  /** What a read of the system hands to its client is what the relay's fetch returns
      when its query sorts by sequence number with ties in storage order, and what
      the client makes of it is its fetch. */
  lemma ReadIsRelayFetch(env: Environment, json: Json, me: Party, peer: Party, n: Net, now: nat)
    requires InMailbox(json, n.relay, me.nid, n.inAlice, n.mail.toAlice)
    ensures var answer := Some(Answer(Undelivered(n.relay.db.value, me.nid)));
            && PossibleAnswer(n.relay, me.nid, answer)
            && NetMoved(env, json, me, peer, n, Read).mail.alice
            == RelayFetchAll(env, me, n.mail.alice, HandedAll(json, Fetched(n.relay, me.nid, now, answer))).1
  {
    AnswerIsPossible(n.relay, me.nid);
    FetchedIsSorted(n.relay, me.nid, n.inAlice, now);
    ReadIsClientFetch(env, json, me, peer, n);
  }

  /** The messages are among the undelivered rows, oldest first. */
  predicate InDatabase(json: Json, messages: seq<Outgoing>, undelivered: Entries) {
    IsSubsequence(Letters(messages), HandedAll(json, undelivered))
  }

  lemma {:induction false} GenuinesAreAmong(items: seq<Item>)
    ensures IsSubsequence(Letters(Genuines(items)), EntriesOf(items))
  {
    if items == [] {
      assert Letters(Genuines(items)) == [];
    } else {
      var rest := items[1..];
      GenuinesAreAmong(rest);
      GenuinesHead(items);
      assert EntriesOf(items)[1..] == EntriesOf(rest);
      if items[0].Genuine? {
        assert Letters(Genuines(items))[1..] == Letters(Genuines(rest));
      } else {
        assert Genuines(items) == Genuines(rest);
      }
    }
  }

  lemma UnreadInDatabase(json: Json, r: Relay, nid: string, ts: seq<Tagged>, box: Letterbox)
    requires InMailbox(json, r, nid, ts, box)
    ensures InDatabase(json, box.unread, Undelivered(r.db.value, nid))
  {
    GenuinesAreAmong(Items(ts));
    ItemsAreHanded(json, ts);
  }

  // ---------------------------------------------------------------- //
  //  Every run                                                        //
  // ---------------------------------------------------------------- //

  lemma {:induction false} EveryRunCoupled(env: Environment, json: Json, alice: Party, bob: Party,
                                           moves: seq<NetMove>)
    requires env.Sound() && json.Inverse()
    requires env.p.HonestPair(alice.pk, alice.sk) && env.p.HonestPair(bob.pk, bob.sk)
    requires alice.nid != "" && bob.nid != "" && alice.nid != bob.nid
    requires NetAllowedRun(env, json, alice, bob, moves)
    ensures Coupled(env, json, alice, bob, NetRun(env, json, alice, bob, moves))
  {
    if moves != [] {
      var before, m := moves[..|moves| - 1], moves[|moves| - 1];
      EveryRunCoupled(env, json, alice, bob, before);
      var n := NetRun(env, json, alice, bob, before);
      if m.byBob {
        CoupledFlips(env, json, alice, bob, n);
        NetMoveCoupled(env, json, bob, alice, n.Flip(), m.action);
        CoupledFlips(env, json, bob, alice, NetMoved(env, json, bob, alice, n.Flip(), m.action));
      } else {
        NetMoveCoupled(env, json, alice, bob, n, m.action);
      }
    }
  }

  /** Two clients over a relay with a database, in any run without a damaging move of
      writes that are answered, refused or left without an answer, entries stored by
      others into any mailbox, reads, purges, acknowledgements, clean-ups and restarts:
      both read every message of the other's in order, word for word up to 511 bytes, and
      whatever they have not read is undelivered in the database. */
  lemma EveryRunDelivers(env: Environment, json: Json, alice: Party, bob: Party, moves: seq<NetMove>)
    requires env.Sound() && json.Inverse()
    requires env.p.HonestPair(alice.pk, alice.sk) && env.p.HonestPair(bob.pk, bob.sk)
    requires alice.nid != "" && bob.nid != "" && alice.nid != bob.nid
    requires NetAllowedRun(env, json, alice, bob, moves)
    ensures var n := NetRun(env, json, alice, bob, moves);
            && ReadsInOrder(env, n.mail.readByBob, n.mail.sentByAlice)
            && ReadsInOrder(env, n.mail.readByAlice, n.mail.sentByBob)
            && n.relay.db.Some?
            && InDatabase(json, n.mail.sentByAlice[|n.mail.readByBob|..], Undelivered(n.relay.db.value, bob.nid))
            && InDatabase(json, n.mail.sentByBob[|n.mail.readByAlice|..], Undelivered(n.relay.db.value, alice.nid))
  {
    EveryRunCoupled(env, json, alice, bob, moves);
    var n := NetRun(env, json, alice, bob, moves);
    CommittedReadsInOrder(env, alice, bob, n.mail);
    UnreadInDatabase(json, n.relay, bob.nid, n.inBob, n.mail.toBob);
    UnreadInDatabase(json, n.relay, alice.nid, n.inAlice, n.mail.toAlice);
  }
}
