/** A relay without a database: when the messages of one sender that wait for their
    recipient's first fetch are read, among those of any others. */
module MemoryOnly {

  import opened Wrappers
  import opened Sequences
  import opened Mailboxes
  import opened MailboxRuns
  import RelayRuns
  import RelayState
  import RelayMemory
  import opened Client
  import opened Delivery
  import opened EndToEnd
  import Padding

  /** Messages one after the other, all accepted. */
  datatype Text = Text(message: string, draw: Draw)

  /** Bob may hold sessions with others. */
  ghost function Sending(env: Environment, alice: Party, bob: Party, sessions: Sessions, texts: seq<Text>): Mail {
    if texts == [] then NO_MAIL.(bob := sessions)
    else
      var last := texts[|texts| - 1];
      Moved(env, alice, bob, Sending(env, alice, bob, sessions, texts[..|texts| - 1]),
            Post(last.message, last.draw, Saved))
  }

  ghost predicate AllowedTexts(env: Environment, alice: Party, bob: Party, sessions: Sessions, texts: seq<Text>) {
    texts != [] ==>
      var before, last := texts[..|texts| - 1], texts[|texts| - 1];
      && AllowedTexts(env, alice, bob, sessions, before)
      && Allowed(env, alice, bob, Sending(env, alice, bob, sessions, before), Post(last.message, last.draw, Saved))
  }

  /** What the relay stores for them, each at its own time. */
  function PackedAt(json: Json, sent: seq<Outgoing>, times: seq<nat>): (r: Entries)
    requires |times| == |sent|
    ensures |r| == |sent|
  {
    seq(|sent|, i requires 0 <= i < |sent| => Packed(json, sent[i].entry, times[i]))
  }

  // ---------------------------------------------------------------- //
  //  What is sent                                                     //
  // ---------------------------------------------------------------- //

  /** Only the first message carries the ciphertext a session is created from. */
  ghost predicate OneOpening(alice: Party, bob: Party, sessions: Sessions, w: Mail) {
    && w.toBob == Letterbox(w.sentByAlice, []) && w.bob == sessions && w.readByBob == []
    && (bob.nid in w.alice <==> w.sentByAlice != [])
    && (forall i :: 0 <= i < |w.sentByAlice| ==>
          && w.sentByAlice[i].entry.blob.Envelope?
          && w.sentByAlice[i].entry.senderNid == alice.nid && w.sentByAlice[i].entry.senderFp == alice.fp
          && (i == 0 <==> w.sentByAlice[i].entry.blob.kyberCiphertext.Some?))
  }

  lemma PostKeepsOneOpening(env: Environment, alice: Party, bob: Party, sessions: Sessions, w: Mail,
                            message: string, draw: Draw)
    requires env.Sound() && OneOpening(alice, bob, sessions, w)
    requires |env.p.utf8Encode(message)| <= Padding.MAX_MESSAGE
    ensures var v := Posted(env, alice, bob, w, message, draw);
            OneOpening(alice, bob, sessions, v) && |v.sentByAlice| == |w.sentByAlice| + 1
  {
  }

  lemma {:induction false} SendingOpensOnce(env: Environment, alice: Party, bob: Party, sessions: Sessions,
                                            texts: seq<Text>)
    requires env.Sound() && env.p.HonestPair(bob.pk, bob.sk) && bob.nid != "" && alice.nid !in sessions
    requires AllowedTexts(env, alice, bob, sessions, texts)
    ensures var w := Sending(env, alice, bob, sessions, texts);
            Committed(env, alice, bob, w) && OneOpening(alice, bob, sessions, w) && |w.sentByAlice| == |texts|
  {
    if texts != [] {
      var before, last := texts[..|texts| - 1], texts[|texts| - 1];
      SendingOpensOnce(env, alice, bob, sessions, before);
      var w := Sending(env, alice, bob, sessions, before);
      MoveCommits(env, alice, bob, w, Post(last.message, last.draw, Saved));
      hide Committed;
      PostKeepsOneOpening(env, alice, bob, sessions, w, last.message, last.draw);
    }
  }

  // ---------------------------------------------------------------- //
  //  What waits                                                       //
  // ---------------------------------------------------------------- //

  /** What the relay hands out from memory: a clean-up and a fetch keep the same. */
  function Waiting(events: seq<Event>, now: nat): Entries {
    Filter(BoxAfter(events, RelayState.MAX_MAILBOX_SIZE).entries, Live(now))
  }

  lemma WaitingIsExpired(events: seq<Event>, now: nat)
    ensures Waiting(events, now) == BoxAfter(events + [Event(now, Op.Expire)], RelayState.MAX_MAILBOX_SIZE).entries
    ensures BoxAfter(events + [Event(now, Op.Expire)], RelayState.MAX_MAILBOX_SIZE).log
         == BoxAfter(events, RelayState.MAX_MAILBOX_SIZE).log
  {
    assert (events + [Event(now, Op.Expire)])[..|events|] == events;
  }

  /** The messages of a run and their times. */
  ghost predicate StoredBy(json: Json, alice: Party, events: seq<Event>, sent: seq<Outgoing>, times: seq<nat>) {
    && |times| == |sent|
    && Filter(BoxAfter(events, RelayState.MAX_MAILBOX_SIZE).log, FromSender(alice.fp)) == PackedAt(json, sent, times)
  }

  lemma ClockSnoc(events: seq<Event>, now: nat)
    requires ClockRuns(events) && NoAcks(events) && Clock(events) <= now
    ensures ClockRuns(events + [Event(now, Op.Expire)]) && NoAcks(events + [Event(now, Op.Expire)])
    ensures Clock(events + [Event(now, Op.Expire)]) == now
  {
  }

  /** Of a sender's messages the most recent ones wait, at most ten. */
  lemma RecentOnesWait(json: Json, alice: Party, events: seq<Event>, sent: seq<Outgoing>, times: seq<nat>, now: nat)
    requires ClockRuns(events) && NoAcks(events) && Clock(events) <= now && StoredBy(json, alice, events, sent, times)
    ensures var mine := Filter(Waiting(events, now), FromSender(alice.fp));
            |mine| <= MAX_ENTRIES_PER_SENDER && IsSuffix(mine, PackedAt(json, sent, times))
  {
    ClockSnoc(events, now);
    WaitingIsExpired(events, now);
    EveryRunRetainsRecent(events + [Event(now, Op.Expire)], RelayState.MAX_MAILBOX_SIZE);
  }

  lemma OpeningIsUnique(json: Json, sent: seq<Outgoing>, times: seq<nat>, i: nat)
    requires json.Inverse() && |times| == |sent| && 0 < i < |sent|
    requires forall k :: 0 <= k < |sent| ==>
               sent[k].entry.blob.Envelope? && (k == 0 <==> sent[k].entry.blob.kyberCiphertext.Some?)
    ensures PackedAt(json, sent, times)[i] != PackedAt(json, sent, times)[0]
  {
    var first, later := sent[0].entry.blob, sent[i].entry.blob;
    assert json.parse(json.render(first)) == first && json.parse(json.render(later)) == later;
  }

  /** If the opening message waits, so do all. */
  lemma OpeningBringsAll(json: Json, sent: seq<Outgoing>, times: seq<nat>, mine: Entries)
    requires json.Inverse() && |times| == |sent| && sent != []
    requires forall k :: 0 <= k < |sent| ==>
               sent[k].entry.blob.Envelope? && (k == 0 <==> sent[k].entry.blob.kyberCiphertext.Some?)
    requires IsSuffix(mine, PackedAt(json, sent, times)) && PackedAt(json, sent, times)[0] in mine
    ensures mine == PackedAt(json, sent, times)
  {
    var stored := PackedAt(json, sent, times);
    forall i: nat | 0 < i < |sent| ensures stored[i] != stored[0] {
      OpeningIsUnique(json, sent, times, i);
    }
    hide PackedAt;
    SuffixWithFirst(mine, stored);
  }

  /** The opening message is in the mailbox and within its time. */
  ghost predicate OpeningWaits(json: Json, events: seq<Event>, sent: seq<Outgoing>, times: seq<nat>, now: nat)
    requires |times| == |sent|
  {
    sent != [] && PackedAt(json, sent, times)[0] in Waiting(events, now)
  }

  lemma OldestLiveMeansAll(events: seq<Event>, maxSize: nat, fp: string, now: nat)
    requires ClockRuns(events) && NoAcks(events) && Clock(events) <= now
    requires Filter(BoxAfter(events, maxSize).log, FromSender(fp)) != []
    requires Live(now)(Filter(BoxAfter(events, maxSize).log, FromSender(fp))[0])
    ensures AllLive(Filter(BoxAfter(events, maxSize).log, FromSender(fp)), now)
  {
    LogInOrder(events, maxSize);
    FilterKeepsOrder(BoxAfter(events, maxSize).log, FromSender(fp), Clock(events));
  }

  lemma RoomSnoc(events: seq<Event>, maxSize: nat, now: nat)
    requires AlwaysRoom(events, maxSize)
    ensures AlwaysRoom(events + [Event(now, Op.Expire)], maxSize)
  {
    var all := events + [Event(now, Op.Expire)];
    forall n | 0 <= n < |all| && all[n].op.Store? ensures |BoxAfter(all[..n], maxSize).entries| < maxSize {
      assert all[..n] == events[..n];
    }
  }

  /** When the opening message waits: in a mailbox that never fills up, if and only if
      its sender has stored at most ten messages and it is not older than a week. */
  lemma OpeningWaitsExact(json: Json, alice: Party, events: seq<Event>, sent: seq<Outgoing>, times: seq<nat>, now: nat)
    requires json.Inverse() && sent != []
    requires ClockRuns(events) && NoAcks(events) && Clock(events) <= now && StoredBy(json, alice, events, sent, times)
    requires AlwaysRoom(events, RelayState.MAX_MAILBOX_SIZE)
    requires forall k :: 0 <= k < |sent| ==>
               sent[k].entry.blob.Envelope? && (k == 0 <==> sent[k].entry.blob.kyberCiphertext.Some?)
    ensures OpeningWaits(json, events, sent, times, now)
       <==> |sent| <= 10 && now < times[0] + 604800
  {
    OpeningIsPast(json, alice, events, sent, times);
    var stored, mine := PackedAt(json, sent, times), Filter(Waiting(events, now), FromSender(alice.fp));
    OpeningIsFrom(json, alice, events, sent, times);
    FilterMembers(Waiting(events, now), FromSender(alice.fp));
    FilterMembers(BoxAfter(events, RelayState.MAX_MAILBOX_SIZE).entries, Live(now));
    if OpeningWaits(json, events, sent, times, now) {
      RecentOnesWait(json, alice, events, sent, times, now);
      OpeningBringsAll(json, sent, times, mine);
    }
    if |sent| <= MAX_ENTRIES_PER_SENDER && Age(now, times[0]) < MAILBOX_TTL_SECONDS {
      AllWait(json, alice, events, sent, times, now);
      assert stored[0] in mine;
    }
  }

  lemma OpeningIsFrom(json: Json, alice: Party, events: seq<Event>, sent: seq<Outgoing>, times: seq<nat>)
    requires StoredBy(json, alice, events, sent, times) && sent != []
    ensures FromSender(alice.fp)(PackedAt(json, sent, times)[0])
  {
    FilterMembers(BoxAfter(events, RelayState.MAX_MAILBOX_SIZE).log, FromSender(alice.fp));
    assert PackedAt(json, sent, times)[0] in PackedAt(json, sent, times);
  }

  lemma OpeningIsPast(json: Json, alice: Party, events: seq<Event>, sent: seq<Outgoing>, times: seq<nat>)
    requires StoredBy(json, alice, events, sent, times) && sent != []
    requires ClockRuns(events) && NoAcks(events)
    ensures times[0] <= Clock(events)
  {
    var log := BoxAfter(events, RelayState.MAX_MAILBOX_SIZE).log;
    LogInOrder(events, RelayState.MAX_MAILBOX_SIZE);
    FilterMembers(log, FromSender(alice.fp));
    assert PackedAt(json, sent, times)[0] in PackedAt(json, sent, times);
    assert PackedAt(json, sent, times)[0] in log;
  }

  lemma AllWait(json: Json, alice: Party, events: seq<Event>, sent: seq<Outgoing>, times: seq<nat>, now: nat)
    requires ClockRuns(events) && NoAcks(events) && Clock(events) <= now && StoredBy(json, alice, events, sent, times)
    requires AlwaysRoom(events, RelayState.MAX_MAILBOX_SIZE)
    requires sent != [] && |sent| <= MAX_ENTRIES_PER_SENDER && Age(now, times[0]) < MAILBOX_TTL_SECONDS
    ensures Filter(Waiting(events, now), FromSender(alice.fp)) == PackedAt(json, sent, times)
  {
    ClockSnoc(events, now);
    WaitingIsExpired(events, now);
    OldestLiveMeansAll(events, RelayState.MAX_MAILBOX_SIZE, alice.fp, now);
    RoomSnoc(events, RelayState.MAX_MAILBOX_SIZE, now);
    KeepsAllWithRoom(events + [Event(now, Op.Expire)], RelayState.MAX_MAILBOX_SIZE, alice.fp);
  }

  // ---------------------------------------------------------------- //
  //  A sender alone                                                   //
  // ---------------------------------------------------------------- //

  predicate AllFrom(entries: Entries, fp: string) {
    forall x :: x in entries ==> FromSender(fp)(x)
  }

  predicate OnlyFrom(events: seq<Event>, fp: string) {
    forall i :: 0 <= i < |events| && events[i].op.Store? ==> events[i].op.entry.senderFp == fp
  }

  lemma {:induction false} KeptFromSender(events: seq<Event>, maxSize: nat, fp: string)
    requires OnlyFrom(events, fp)
    ensures AllFrom(BoxAfter(events, maxSize).entries, fp)
  {
    if events != [] {
      var before, ev := events[..|events| - 1], events[|events| - 1];
      KeptFromSender(before, maxSize, fp);
      var mid := BoxAfter(before, maxSize).entries;
      match ev.op
      case Store(entry) =>
        RelayRuns.EvictedIsSubMultiset(mid, maxSize, entry.senderFp);
        forall x | x in Evicted(mid, maxSize, entry.senderFp) ensures x in mid {
          assert x in multiset(Evicted(mid, maxSize, entry.senderFp));
        }
      case Ack(seqNo) => FilterMembers(mid, OtherSeq(seqNo));
      case Expire => FilterMembers(mid, Live(ev.at));
    }
  }

  /** A mailbox that only one sender writes to never fills up. */
  lemma AloneHasRoom(events: seq<Event>, maxSize: nat, fp: string)
    requires maxSize > MAX_ENTRIES_PER_SENDER && ClockRuns(events) && OnlyFrom(events, fp)
    ensures AlwaysRoom(events, maxSize)
  {
    forall n | 0 <= n < |events| && events[n].op.Store? ensures |BoxAfter(events[..n], maxSize).entries| < maxSize {
      EveryRunRetainsRecent(events[..n], maxSize);
      KeptFromSender(events[..n], maxSize, fp);
      FilterAll(BoxAfter(events[..n], maxSize).entries, FromSender(fp));
    }
  }

  // ---------------------------------------------------------------- //
  //  The first fetch                                                  //
  // ---------------------------------------------------------------- //

  /** What others stored is refused or belongs to other sessions when its turn comes. */
  ghost predicate OthersHarmless(env: Environment, json: Json, bob: Party, alice: Party, sessions: Sessions,
                                 handed: Entries) {
    forall k :: 0 <= k < |handed| && handed[k].senderFp != alice.fp ==>
      Harmless(env, bob, alice, RelayFetchAll(env, bob, sessions, HandedTo(json, handed, k)).1, Handed(json, handed[k]))
  }

  /** Alice's entries among those handed out, none of them the opening one. */
  predicate NoOpening(json: Json, alice: Party, handed: Entries) {
    forall k :: 0 <= k < |handed| && handed[k].senderFp == alice.fp ==>
      var entry := Handed(json, handed[k]);
      entry.blob.Envelope? && entry.blob.kyberCiphertext == None && entry.senderNid == alice.nid
  }

  function HandedTo(json: Json, handed: Entries, k: nat): seq<RelayEntry>
    requires k <= |handed|
  {
    HandedAll(json, handed)[..k]
  }

  lemma HandedToNext(json: Json, handed: Entries, k: nat)
    requires k < |handed|
    ensures HandedTo(json, handed, k + 1) == HandedTo(json, handed, k) + [Handed(json, handed[k])]
  {
  }

  lemma HandedToEnds(json: Json, handed: Entries)
    ensures HandedTo(json, handed, 0) == [] && HandedTo(json, handed, |handed|) == HandedAll(json, handed)
  {
  }

  /** Without the opening message no session is created, and nothing of Alice's is read. */
  lemma {:induction false} NothingWithoutOpening(env: Environment, json: Json, bob: Party, alice: Party,
                                                 sessions: Sessions, handed: Entries, k: nat)
    requires alice.nid != "" && alice.nid !in sessions && k <= |handed|
    requires NoOpening(json, alice, handed) && OthersHarmless(env, json, bob, alice, sessions, handed)
    ensures alice.nid !in RelayFetchAll(env, bob, sessions, HandedTo(json, handed, k)).1
    ensures ReadFrom(env, bob, sessions, HandedTo(json, handed, k), alice.nid) == []
  {
    if k == 0 {
      HandedToEnds(json, handed);
    } else {
      hide RelayFetchAll, ReadFrom, HandedTo, Handed, RelayDecrypt;
      NothingWithoutOpening(env, json, bob, alice, sessions, handed, k - 1);
      HandedToNext(json, handed, k - 1);
      var before, entry := HandedTo(json, handed, k - 1), Handed(json, handed[k - 1]);
      NoSessionFrom(env, bob, alice, RelayFetchAll(env, bob, sessions, before).1, entry,
                    handed[k - 1].senderFp == alice.fp);
      FetchAllSnoc(env, bob, sessions, before, entry);
      ReadFromSnoc(env, bob, sessions, before, entry, alice.nid);
    }
  }

  lemma NoSessionFrom(env: Environment, bob: Party, alice: Party, sessions: Sessions, entry: RelayEntry, hers: bool)
    requires alice.nid != "" && alice.nid !in sessions
    requires if hers then entry.blob.Envelope? && entry.blob.kyberCiphertext == None && entry.senderNid == alice.nid
             else Harmless(env, bob, alice, sessions, entry)
    ensures var (r, after) := RelayDecrypt(env, bob, sessions, entry);
            alice.nid !in after && (r.Err? || SenderOf(env, entry) != alice.nid)
  {
  }

  /** The entries handed out, those of Alice as the messages they are. */
  function TagAll(json: Json, fp: string, handed: Entries, sent: seq<Outgoing>): (r: seq<Item>)
    ensures |r| == |handed|
  {
    if handed == [] then []
    else if handed[0].senderFp == fp && sent != [] then
      [Genuine(sent[0])] + TagAll(json, fp, handed[1..], sent[1..])
    else [Foreign(Handed(json, handed[0]))] + TagAll(json, fp, handed[1..], sent)
  }

  /** What a relay makes of messages and hands out again. */
  predicate HandedAs(json: Json, mine: Entries, sent: seq<Outgoing>) {
    |mine| == |sent| && forall i :: 0 <= i < |mine| ==> Handed(json, mine[i]) == sent[i].entry
  }

  lemma HandedHead(json: Json, handed: Entries)
    requires handed != []
    ensures HandedAll(json, handed) == [Handed(json, handed[0])] + HandedAll(json, handed[1..])
  {
  }

  lemma TagHead(json: Json, fp: string, handed: Entries, sent: seq<Outgoing>)
    requires handed != []
    ensures var all := TagAll(json, fp, handed, sent);
            var mine := handed[0].senderFp == fp && sent != [];
            && all[0] == (if mine then Genuine(sent[0]) else Foreign(Handed(json, handed[0])))
            && all[1..] == TagAll(json, fp, handed[1..], if mine then sent[1..] else sent)
  {
  }

  lemma MineHead(json: Json, fp: string, handed: Entries, sent: seq<Outgoing>)
    requires handed != [] && HandedAs(json, Filter(handed, FromSender(fp)), sent)
    ensures if handed[0].senderFp == fp
            then && sent != [] && Handed(json, handed[0]) == sent[0].entry
                 && HandedAs(json, Filter(handed[1..], FromSender(fp)), sent[1..])
            else HandedAs(json, Filter(handed[1..], FromSender(fp)), sent)
  {
    var mine := Filter(handed, FromSender(fp));
    if handed[0].senderFp == fp {
      assert mine[1..] == Filter(handed[1..], FromSender(fp));
      assert mine[0] == handed[0];
    }
  }

  /** The items are the entries handed out, and Alice's are her messages in order. */
  predicate TagsMatch(json: Json, fp: string, handed: Entries, sent: seq<Outgoing>, items: seq<Item>) {
    && |items| == |handed| && Genuines(items) == sent && EntriesOf(items) == HandedAll(json, handed)
    && forall k :: 0 <= k < |handed| ==> (items[k].Foreign? <==> handed[k].senderFp != fp)
  }

  lemma NothingTagged(json: Json, fp: string, handed: Entries, sent: seq<Outgoing>)
    requires handed == [] && HandedAs(json, Filter(handed, FromSender(fp)), sent)
    ensures TagsMatch(json, fp, handed, sent, TagAll(json, fp, handed, sent))
  {
  }

  lemma TaggedCons(json: Json, fp: string, handed: Entries, sent: seq<Outgoing>, items: seq<Item>)
    requires handed != [] && items != []
    requires items[0].Entry() == Handed(json, handed[0])
    requires items[0].Foreign? <==> handed[0].senderFp != fp
    requires items[0].Genuine? ==> sent != [] && items[0].out == sent[0]
    requires TagsMatch(json, fp, handed[1..], if items[0].Genuine? then sent[1..] else sent, items[1..])
    ensures TagsMatch(json, fp, handed, sent, items)
  {
    HandedHead(json, handed);
    GenuinesHead(items);
    assert EntriesOf(items) == [items[0].Entry()] + EntriesOf(items[1..]);
    forall k | 0 <= k < |handed| ensures items[k].Foreign? <==> handed[k].senderFp != fp {
      if k > 0 {
        assert items[k] == items[1..][k - 1] && handed[k] == handed[1..][k - 1];
      }
    }
  }

  lemma {:induction false} TagAllMeans(json: Json, fp: string, handed: Entries, sent: seq<Outgoing>)
    requires HandedAs(json, Filter(handed, FromSender(fp)), sent)
    ensures TagsMatch(json, fp, handed, sent, TagAll(json, fp, handed, sent))
  {
    if handed == [] {
      NothingTagged(json, fp, handed, sent);
    } else {
      MineHead(json, fp, handed, sent);
      TagHead(json, fp, handed, sent);
      hide TagAll, HandedAs, Filter, Handed, TagsMatch;
      TagAllMeans(json, fp, handed[1..], if handed[0].senderFp == fp then sent[1..] else sent);
      TaggedCons(json, fp, handed, sent, TagAll(json, fp, handed, sent));
    }
  }

  lemma ReadIsSent(env: Environment, alice: Party, bob: Party, v: Mail)
    requires Committed(env, alice, bob, v) && v.toBob.unread == []
    ensures |v.readByBob| == |v.sentByAlice|
    ensures forall i :: 0 <= i < |v.readByBob| ==> v.readByBob[i] == Recovered(env, v.sentByAlice[i])
  {
    if bob.nid in v.alice || alice.nid in v.bob {
      assert Accounted(env, alice, v.toBob.unread, v.sentByAlice, v.readByBob);
    }
  }

  /** Bob's fetch, as a move of the mail. */
  lemma FetchOnce(env: Environment, alice: Party, bob: Party, w: Mail, answer: seq<Item>) returns (v: Mail)
    requires alice.nid != "" && Committed(env, alice, bob, w) && w.readByBob == []
    requires HandsOut(w.toBob, answer) && HarmlessInTurn(env, bob, alice, w.Flip(), answer)
    ensures Committed(env, alice, bob, v) && v.toBob.unread == [] && v.sentByAlice == w.sentByAlice
    ensures v.readByBob == ReadFrom(env, bob, w.bob, EntriesOf(answer), alice.nid)
  {
    hide Committed, RelayFetchAll, ReadFrom, EntriesOf, HandsOut, HarmlessInTurn, Contents, Moved;
    v := Moved(env, bob, alice, w.Flip(), Fetch(answer)).Flip();
    CommittedFlips(env, alice, bob, w);
    EveryFetchReadsAll(env, bob, alice, w.Flip(), answer);
    FetchIsClientFetch(env, bob, alice, w.Flip(), answer);
    CommittedFlips(env, bob, alice, v.Flip());
  }

  /** All of Alice's messages are handed out, among harmless others. */
  lemma AllAreRead(env: Environment, json: Json, alice: Party, bob: Party, sessions: Sessions, w: Mail, handed: Entries)
    requires alice.nid != "" && Committed(env, alice, bob, w) && OneOpening(alice, bob, sessions, w)
    requires HandedAs(json, Filter(handed, FromSender(alice.fp)), w.sentByAlice)
    requires OthersHarmless(env, json, bob, alice, sessions, handed)
    ensures var read := ReadFrom(env, bob, sessions, HandedAll(json, handed), alice.nid);
            |read| == |w.sentByAlice| && forall i :: 0 <= i < |read| ==> read[i] == Recovered(env, w.sentByAlice[i])
  {
    var answer := TagAll(json, alice.fp, handed, w.sentByAlice);
    TagAllMeans(json, alice.fp, handed, w.sentByAlice);
    hide Committed, RelayFetchAll, ReadFrom, TagAll, HandedAll, EntriesOf, HarmlessInTurn, OthersHarmless, Recovered;
    var full := w.(toBob := Letterbox(w.sentByAlice, Others(answer)));
    OthersDoNotMatter(env, alice, bob, w, w.toAlice, full.toBob);
    HandedInTurn(env, json, alice, bob, sessions, full.Flip(), handed, answer);
    var v := FetchOnce(env, alice, bob, full, answer);
    ReadIsSent(env, alice, bob, v);
  }

  lemma HandedInTurn(env: Environment, json: Json, alice: Party, bob: Party, sessions: Sessions, w: Mail,
                     handed: Entries, answer: seq<Item>)
    requires |answer| == |handed| && EntriesOf(answer) == HandedAll(json, handed) && w.alice == sessions
    requires forall k :: 0 <= k < |handed| ==> (answer[k].Foreign? <==> handed[k].senderFp != alice.fp)
    requires OthersHarmless(env, json, bob, alice, sessions, handed)
    ensures HarmlessInTurn(env, bob, alice, w, answer)
  {
    forall k | 0 <= k < |answer| && answer[k].Foreign?
      ensures Harmless(env, bob, alice, WorkedTo(env, bob, alice, w, answer, k).alice, answer[k].entry)
    {
      PrefixIsClientFetch(env, bob, alice, w, answer, k);
      assert EntriesOf(answer)[k] == HandedAll(json, handed)[k];
    }
  }

  lemma HandedBack(json: Json, sent: seq<Outgoing>, times: seq<nat>)
    requires json.Inverse() && |times| == |sent|
    requires forall i :: 0 <= i < |sent| ==> sent[i].entry.blob.Envelope?
    ensures HandedAs(json, PackedAt(json, sent, times), sent)
  {
  }

  /** Without the opening one, what waits of Alice's are later messages. */
  lemma LaterOnly(json: Json, alice: Party, sent: seq<Outgoing>, times: seq<nat>, handed: Entries)
    requires json.Inverse() && |times| == |sent|
    requires forall k :: 0 <= k < |sent| ==>
               && sent[k].entry.blob.Envelope? && sent[k].entry.senderNid == alice.nid
               && (k == 0 <==> sent[k].entry.blob.kyberCiphertext.Some?)
    requires IsSuffix(Filter(handed, FromSender(alice.fp)), PackedAt(json, sent, times))
    requires sent != [] ==> PackedAt(json, sent, times)[0] !in handed
    ensures NoOpening(json, alice, handed)
  {
    var mine, stored := Filter(handed, FromSender(alice.fp)), PackedAt(json, sent, times);
    FilterMembers(handed, FromSender(alice.fp));
    forall k | 0 <= k < |handed| && handed[k].senderFp == alice.fp
      ensures var entry := Handed(json, handed[k]);
              entry.blob.Envelope? && entry.blob.kyberCiphertext == None && entry.senderNid == alice.nid
    {
      assert FromSender(alice.fp)(handed[k]) && handed[k] in handed;
      var j :| 0 <= j < |mine| && mine[j] == handed[k];
      assert handed[k] == stored[|stored| - |mine| + j];
    }
  }

  /** Reading what waits: all of the sender's messages, in order, if the opening one is
      among it, and none of them otherwise. */
  lemma FirstReadExact(env: Environment, json: Json, alice: Party, bob: Party, sessions: Sessions,
                        texts: seq<Text>, events: seq<Event>, times: seq<nat>, now: nat)
    requires env.Sound() && json.Inverse() && env.p.HonestPair(bob.pk, bob.sk)
    requires alice.nid != "" && bob.nid != "" && alice.nid !in sessions
    requires AllowedTexts(env, alice, bob, sessions, texts)
    requires ClockRuns(events) && NoAcks(events) && Clock(events) <= now
    requires StoredBy(json, alice, events, Sending(env, alice, bob, sessions, texts).sentByAlice, times)
    requires OthersHarmless(env, json, bob, alice, sessions, Waiting(events, now))
    ensures var sent := Sending(env, alice, bob, sessions, texts).sentByAlice;
            var handed := HandedAll(json, Waiting(events, now));
            var read := ReadFrom(env, bob, sessions, handed, alice.nid);
            && |sent| == |texts|
            && (if OpeningWaits(json, events, sent, times, now) then
                  |read| == |sent| && forall i :: 0 <= i < |read| ==> read[i] == Recovered(env, sent[i])
                else read == [] && alice.nid !in RelayFetchAll(env, bob, sessions, handed).1)
  {
    SendingOpensOnce(env, alice, bob, sessions, texts);
    var w, handed := Sending(env, alice, bob, sessions, texts), Waiting(events, now);
    var sent, mine := w.sentByAlice, Filter(handed, FromSender(alice.fp));
    RecentOnesWait(json, alice, events, sent, times, now);
    if OpeningWaits(json, events, sent, times, now) {
      OpeningIsFrom(json, alice, events, sent, times);
      FilterMembers(handed, FromSender(alice.fp));
      OpeningBringsAll(json, sent, times, mine);
      HandedBack(json, sent, times);
      hide Committed, Sending, RelayFetchAll, ReadFrom, Waiting, PackedAt, Filter;
      AllAreRead(env, json, alice, bob, sessions, w, handed);
    } else {
      LaterOnly(json, alice, sent, times, handed);
      hide Committed, Sending, RelayFetchAll, ReadFrom, Waiting, PackedAt, Filter, HandedAll, HandedTo;
      NothingWithoutOpening(env, json, bob, alice, sessions, handed, |handed|);
      HandedToEnds(json, handed);
    }
  }

  /** The opening message is handed out by a fetch of the relay. */
  ghost predicate OpeningHandedOut(json: Json, run: seq<RelayRuns.RelayEvent>, recipient: string,
                                   sent: seq<Outgoing>, times: seq<nat>, now: nat)
    requires |times| == |sent|
  {
    sent != [] && Packed(json, sent[0].entry, times[0])
                  in RelayState.Fetched(RelayRuns.RelayAfter(None, run), recipient, now, None)
  }

  /** A relay without a database, over any run of stores, acknowledgements, purges,
      clean-ups and restarts. Messages of one sender, each stored at its own time, with
      those of any others between them, and none of the recipient's acknowledged since:
      the recipient's first fetch from the relay reads all of them, in order, if and only
      if the opening message is still handed out; otherwise it reads none. */
  lemma FirstFetchExact(env: Environment, json: Json, alice: Party, bob: Party, sessions: Sessions,
                        texts: seq<Text>, run: seq<RelayRuns.RelayEvent>, times: seq<nat>, now: nat)
    requires env.Sound() && json.Inverse() && env.p.HonestPair(bob.pk, bob.sk)
    requires alice.nid != "" && bob.nid != "" && alice.nid !in sessions
    requires AllowedTexts(env, alice, bob, sessions, texts)
    requires var events := RelayMemory.OwnEvents(run, bob.nid);
             && ClockRuns(events) && NoAcks(events) && Clock(events) <= now
             && StoredBy(json, alice, events, Sending(env, alice, bob, sessions, texts).sentByAlice, times)
    requires OthersHarmless(env, json, bob, alice, sessions,
                            RelayState.Fetched(RelayRuns.RelayAfter(None, run), bob.nid, now, None))
    ensures var sent := Sending(env, alice, bob, sessions, texts).sentByAlice;
            var handed := HandedAll(json, RelayState.Fetched(RelayRuns.RelayAfter(None, run), bob.nid, now, None));
            var read := ReadFrom(env, bob, sessions, handed, alice.nid);
            && |sent| == |texts| == |times|
            && (if OpeningHandedOut(json, run, bob.nid, sent, times, now) then
                  |read| == |sent| && forall i :: 0 <= i < |read| ==> read[i] == Recovered(env, sent[i])
                else read == [] && alice.nid !in RelayFetchAll(env, bob, sessions, handed).1)
  {
    var events := RelayMemory.OwnEvents(run, bob.nid);
    RelayMemory.EveryFallbackIsMailbox(None, run, bob.nid, now, None);
    assert RelayState.Fetched(RelayRuns.RelayAfter(None, run), bob.nid, now, None) == Waiting(events, now);
    hide Sending, ReadFrom, RelayFetchAll, HandedAll, RelayRuns.RelayAfter, RelayState.Fetched, OthersHarmless,
         Waiting, Recovered, AllowedTexts, BoxAfter;
    FirstReadExact(env, json, alice, bob, sessions, texts, events, times, now);
  }
}
