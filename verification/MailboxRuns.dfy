/** What a mailbox keeps over whole runs, and what one group of senders can make
    it lose of the others' entries. */
module MailboxRuns {

  import opened Sequences
  import opened Mailboxes

  // ---------------------------------------------------------------- //
  //  Evictions                                                        //
  // ---------------------------------------------------------------- //

  lemma RemoveFirstShape(entries: Entries, fp: string) returns (at: nat)
    requires Filter(entries, FromSender(fp)) != []
    ensures at < |entries| && entries[at].senderFp == fp
    ensures forall k :: 0 <= k < at ==> entries[k].senderFp != fp
    ensures RemoveFirstFrom(entries, fp) == entries[..at] + entries[at + 1..]
  {
    var e := Filter(entries, FromSender(fp))[0];
    FilterMembers(entries, FromSender(fp));
    assert e in entries && FromSender(fp)(e);
    at := 0;
    while entries[at].senderFp != fp
      invariant at < |entries|
      invariant forall k :: 0 <= k < at ==> entries[k].senderFp != fp
      invariant e in entries[at..]
      decreases |entries| - at
    {
      assert entries[at..] == [entries[at]] + entries[at + 1..];
      at := at + 1;
    }
    RemoveFirstAt(entries, fp, at);
  }

  /** Dropping one element out of the middle changes only the filters it is in. */
  lemma FilterWithout(entries: Entries, at: nat, p: MailboxEntry -> bool)
    requires at < |entries|
    ensures var rest := entries[..at] + entries[at + 1..];
            && (!p(entries[at]) ==> Filter(rest, p) == Filter(entries, p))
            && |Filter(rest, p)| == |Filter(entries, p)| - (if p(entries[at]) then 1 else 0)
            && ((forall k :: 0 <= k < at ==> !p(entries[k])) && p(entries[at]) ==>
                 Filter(rest, p) == Filter(entries, p)[1..])
  {
    var left, x, right := entries[..at], entries[at], entries[at + 1..];
    assert entries == left + [x] + right;
    FilterConcat(left, right, p);
    FilterConcat(left + [x], right, p);
    FilterAppend(left, x, p);
    if forall k :: 0 <= k < at ==> !p(entries[k]) {
      FilterNone(left, p);
    }
  }

  lemma CapKeepsRecent(entries: Entries, sender: string, fp: string)
    requires |Filter(entries, FromSender(sender))| == MAX_ENTRIES_PER_SENDER
    ensures var kept := RemoveFirstFrom(entries, sender);
            && IsSuffix(Filter(kept, FromSender(fp)), Filter(entries, FromSender(fp)))
            && |Filter(kept, FromSender(sender))| < MAX_ENTRIES_PER_SENDER
            && |kept| == |entries| - 1
  {
    var at := RemoveFirstShape(entries, sender);
    FilterWithout(entries, at, FromSender(fp));
    FilterWithout(entries, at, FromSender(sender));
  }

  lemma TailKeepsRecent(entries: Entries, fp: string)
    requires entries != []
    ensures IsSuffix(Filter(entries[1..], FromSender(fp)), Filter(entries, FromSender(fp)))
  {
    FilterHead(entries, FromSender(fp));
  }

  /** Making room drops at most the oldest entry of any one sender, and leaves
      the storing sender at most nine. */
  lemma EvictionKeepsRecent(entries: Entries, maxSize: nat, sender: string, fp: string)
    requires maxSize >= 1 && |entries| <= maxSize
    requires |Filter(entries, FromSender(sender))| <= MAX_ENTRIES_PER_SENDER
    ensures var kept := Evicted(entries, maxSize, sender);
            && IsSuffix(Filter(kept, FromSender(fp)), Filter(entries, FromSender(fp)))
            && |Filter(kept, FromSender(sender))| < MAX_ENTRIES_PER_SENDER
            && |kept| < maxSize
  {
    if |Filter(entries, FromSender(sender))| >= MAX_ENTRIES_PER_SENDER {
      CapKeepsRecent(entries, sender, fp);
    } else if |entries| >= maxSize {
      TailKeepsRecent(entries, fp);
      TailKeepsRecent(entries, sender);
    }
  }

  // ---------------------------------------------------------------- //
  //  Retention                                                        //
  // ---------------------------------------------------------------- //

  datatype Op = Store(entry: MailboxEntry) | Ack(seqNo: int) | Expire

  /** An operation and the clock reading it happens at. */
  datatype Event = Event(at: nat, op: Op)

  /** A mailbox beside the list of everything stored and not acknowledged. */
  datatype Box = Box(entries: Entries, log: Entries)

  function Apply(box: Box, maxSize: nat, ev: Event): Box {
    match ev.op
    case Store(entry) =>
      var e := entry.(storedAt := ev.at);
      Box(Stored(box.entries, maxSize, e), box.log + [e])
    case Ack(seqNo) =>
      Box(Filter(box.entries, OtherSeq(seqNo)), Filter(box.log, OtherSeq(seqNo)))
    case Expire =>
      Box(Filter(box.entries, Live(ev.at)), box.log)
  }

  function BoxAfter(events: seq<Event>, maxSize: nat): Box {
    if events == [] then Box([], [])
    else Apply(BoxAfter(events[..|events| - 1], maxSize), maxSize, events[|events| - 1])
  }

  predicate ClockRuns(events: seq<Event>) {
    forall i, j :: 0 <= i < j < |events| ==> events[i].at <= events[j].at
  }

  function Clock(events: seq<Event>): nat {
    if events == [] then 0 else events[|events| - 1].at
  }

  predicate StoredInOrder(entries: Entries, now: nat) {
    && (forall i, j :: 0 <= i < j < |entries| ==> entries[i].storedAt <= entries[j].storedAt)
    && (forall i :: 0 <= i < |entries| ==> entries[i].storedAt <= now)
  }

  ghost predicate MostRecentOfEach(box: Box) {
    forall fp ::
      && |Filter(box.entries, FromSender(fp))| <= MAX_ENTRIES_PER_SENDER
      && IsSuffix(Filter(box.entries, FromSender(fp)), Filter(box.log, FromSender(fp)))
  }

  /** With entries in storage order, expiry cuts off a prefix. */
  lemma {:induction false} ExpiryCutsPrefix(entries: Entries, now: nat)
    requires StoredInOrder(entries, now)
    ensures IsSuffix(Filter(entries, Live(now)), entries)
  {
    if entries != [] {
      if Live(now)(entries[0]) {
        FilterAll(entries, Live(now));
      } else {
        ExpiryCutsPrefix(entries[1..], now);
      }
    }
  }

  lemma {:induction false} FilterKeepsOrder(entries: Entries, p: MailboxEntry -> bool, now: nat)
    requires StoredInOrder(entries, now)
    ensures StoredInOrder(Filter(entries, p), now)
  {
    if entries != [] {
      FilterKeepsOrder(entries[1..], p, now);
      FilterMembers(entries[1..], p);
      forall e | e in Filter(entries[1..], p) ensures entries[0].storedAt <= e.storedAt {
        assert e in entries[1..];
      }
    }
  }

  lemma StoreKeepsRecentOf(box: Box, maxSize: nat, e: MailboxEntry, fp: string)
    requires maxSize >= 1 && |box.entries| <= maxSize && MostRecentOfEach(box)
    ensures var mine := Filter(Stored(box.entries, maxSize, e), FromSender(fp));
            |mine| <= MAX_ENTRIES_PER_SENDER && IsSuffix(mine, Filter(box.log + [e], FromSender(fp)))
  {
    var kept := Evicted(box.entries, maxSize, e.senderFp);
    var mine, log := Filter(kept, FromSender(fp)), Filter(box.log, FromSender(fp));
    EvictionKeepsRecent(box.entries, maxSize, e.senderFp, fp);
    FilterAppend(kept, e, FromSender(fp));
    FilterAppend(box.log, e, FromSender(fp));
    SuffixTrans(mine, Filter(box.entries, FromSender(fp)), log);
    SuffixAppend(mine, log, e);
  }

  lemma StoreKeepsRecent(box: Box, maxSize: nat, ev: Event)
    requires maxSize >= 1 && ev.op.Store?
    requires |box.entries| <= maxSize && MostRecentOfEach(box)
    ensures |Apply(box, maxSize, ev).entries| <= maxSize && MostRecentOfEach(Apply(box, maxSize, ev))
  {
    var e := ev.op.entry.(storedAt := ev.at);
    var kept := Evicted(box.entries, maxSize, e.senderFp);
    forall fp
      ensures |Filter(kept + [e], FromSender(fp))| <= MAX_ENTRIES_PER_SENDER
      ensures IsSuffix(Filter(kept + [e], FromSender(fp)), Filter(box.log + [e], FromSender(fp)))
    {
      StoreKeepsRecentOf(box, maxSize, e, fp);
    }
    EvictionKeepsRecent(box.entries, maxSize, e.senderFp, e.senderFp);
  }

  lemma DropKeepsOrder(entries: Entries, at: nat, now: nat)
    requires StoredInOrder(entries, now) && at < |entries|
    ensures StoredInOrder(entries[..at] + entries[at + 1..], now)
  {
    var kept := entries[..at] + entries[at + 1..];
    assert forall i :: 0 <= i < |kept| ==> kept[i] == entries[if i < at then i else i + 1];
  }

  lemma EvictionKeepsOrder(entries: Entries, maxSize: nat, fp: string, now: nat)
    requires StoredInOrder(entries, now)
    ensures StoredInOrder(Evicted(entries, maxSize, fp), now)
  {
    if |Filter(entries, FromSender(fp))| >= MAX_ENTRIES_PER_SENDER {
      var at := RemoveFirstShape(entries, fp);
      DropKeepsOrder(entries, at, now);
    }
  }

  lemma AckKeepsRecent(box: Box, seqNo: int)
    requires MostRecentOfEach(box)
    ensures MostRecentOfEach(Box(Filter(box.entries, OtherSeq(seqNo)), Filter(box.log, OtherSeq(seqNo))))
  {
    forall fp
      ensures var entries := Filter(Filter(box.entries, OtherSeq(seqNo)), FromSender(fp));
              && |entries| <= MAX_ENTRIES_PER_SENDER
              && IsSuffix(entries, Filter(Filter(box.log, OtherSeq(seqNo)), FromSender(fp)))
    {
      FilterSwap(box.entries, OtherSeq(seqNo), FromSender(fp));
      FilterSwap(box.log, OtherSeq(seqNo), FromSender(fp));
      FilterSuffix(Filter(box.entries, FromSender(fp)), Filter(box.log, FromSender(fp)), OtherSeq(seqNo));
    }
  }

  lemma ExpireKeepsRecent(box: Box, now: nat)
    requires MostRecentOfEach(box) && StoredInOrder(box.entries, now)
    ensures MostRecentOfEach(Box(Filter(box.entries, Live(now)), box.log))
  {
    ExpiryCutsPrefix(box.entries, now);
    forall fp
      ensures var entries := Filter(Filter(box.entries, Live(now)), FromSender(fp));
              && |entries| <= MAX_ENTRIES_PER_SENDER
              && IsSuffix(entries, Filter(box.log, FromSender(fp)))
    {
      FilterSuffix(Filter(box.entries, Live(now)), box.entries, FromSender(fp));
      SuffixTrans(Filter(Filter(box.entries, Live(now)), FromSender(fp)),
                  Filter(box.entries, FromSender(fp)), Filter(box.log, FromSender(fp)));
    }
  }

  /** Over any run of stores, acknowledgements and clean-ups, the mailbox stays
      within its size and holds, of every sender, exactly the most recent k of
      what it stored and was not acknowledged, in order, with k at most ten. */
  lemma {:induction false} EveryRunRetainsRecent(events: seq<Event>, maxSize: nat)
    requires maxSize >= 1 && ClockRuns(events)
    ensures |BoxAfter(events, maxSize).entries| <= maxSize
    ensures MostRecentOfEach(BoxAfter(events, maxSize))
    ensures StoredInOrder(BoxAfter(events, maxSize).entries, Clock(events))
  {
    if events != [] {
      var before, ev := events[..|events| - 1], events[|events| - 1];
      EveryRunRetainsRecent(before, maxSize);
      var box := BoxAfter(before, maxSize);
      assert StoredInOrder(box.entries, ev.at);
      match ev.op
      case Store(entry) =>
        StoreKeepsRecent(box, maxSize, ev);
        EvictionKeepsOrder(box.entries, maxSize, entry.senderFp, ev.at);
      case Ack(seqNo) =>
        AckKeepsRecent(box, seqNo);
        FilterKeepsOrder(box.entries, OtherSeq(seqNo), ev.at);
      case Expire =>
        ExpireKeepsRecent(box, ev.at);
        FilterKeepsOrder(box.entries, Live(ev.at), ev.at);
    }
  }

  // ---------------------------------------------------------------- //
  //  Fairness                                                         //
  // ---------------------------------------------------------------- //

  function StoreAll(entries: Entries, maxSize: nat, stores: Entries): Entries {
    if stores == [] then entries
    else Stored(StoreAll(entries, maxSize, stores[..|stores| - 1]), maxSize, stores[|stores| - 1])
  }

  predicate WithinCap(entries: Entries, fps: set<string>) {
    forall fp :: fp in fps ==> |Filter(entries, FromSender(fp))| <= MAX_ENTRIES_PER_SENDER
  }

  /** One store by a sender in K: the others lose at most their oldest entry, and
      only when K's share of the mailbox grows. */
  lemma OneStoreIsFair(entries: Entries, maxSize: nat, fps: set<string>, e: MailboxEntry)
    requires maxSize >= 1 && |entries| <= maxSize && WithinCap(entries, fps) && e.senderFp in fps
    ensures var after := Stored(entries, maxSize, e);
            var lost := |Filter(entries, OutsideSenders(fps))| - |Filter(after, OutsideSenders(fps))|;
            && |after| <= maxSize && WithinCap(after, fps)
            && 0 <= lost && Filter(after, OutsideSenders(fps)) == Filter(entries, OutsideSenders(fps))[lost..]
            && |Filter(after, FromSenders(fps))| >= |Filter(entries, FromSenders(fps))| + lost
  {
    var kept := Evicted(entries, maxSize, e.senderFp);
    forall fp | fp in fps ensures |Filter(kept + [e], FromSender(fp))| <= MAX_ENTRIES_PER_SENDER {
      EvictionKeepsRecent(entries, maxSize, e.senderFp, fp);
      FilterAppend(kept, e, FromSender(fp));
    }
    EvictionKeepsRecent(entries, maxSize, e.senderFp, e.senderFp);
    FilterAppend(kept, e, OutsideSenders(fps));
    FilterAppend(kept, e, FromSenders(fps));
    if |Filter(entries, FromSender(e.senderFp))| >= MAX_ENTRIES_PER_SENDER {
      var at := RemoveFirstShape(entries, e.senderFp);
      FilterWithout(entries, at, OutsideSenders(fps));
      FilterWithout(entries, at, FromSenders(fps));
    } else if |entries| >= maxSize {
      FilterHead(entries, OutsideSenders(fps));
      FilterHead(entries, FromSenders(fps));
    }
  }

  lemma {:induction false} SplitSender(entries: Entries, fps: set<string>, fp: string)
    requires fp in fps
    ensures |Filter(entries, FromSenders(fps))|
         == |Filter(entries, FromSender(fp))| + |Filter(entries, FromSenders(fps - {fp}))|
  {
    if entries != [] {
      SplitSender(entries[1..], fps, fp);
    }
  }

  lemma {:induction false} ShareIsBounded(entries: Entries, fps: set<string>)
    requires WithinCap(entries, fps)
    ensures |Filter(entries, FromSenders(fps))| <= MAX_ENTRIES_PER_SENDER * |fps|
  {
    if fps == {} {
      FilterNone(entries, FromSenders(fps));
    } else {
      var fp :| fp in fps;
      SplitSender(entries, fps, fp);
      ShareIsBounded(entries, fps - {fp});
    }
  }

  /** The senders outside K lost their oldest entries, no more of them than K's
      share grew by. */
  predicate LostFairly(entries: Entries, after: Entries, fps: set<string>, lost: nat) {
    && lost <= |Filter(entries, OutsideSenders(fps))|
    && Filter(after, OutsideSenders(fps)) == Filter(entries, OutsideSenders(fps))[lost..]
    && |Filter(after, FromSenders(fps))| >= |Filter(entries, FromSenders(fps))| + lost
  }

  lemma LostFairlyTrans(a: Entries, b: Entries, c: Entries, fps: set<string>, m: nat, n: nat)
    requires LostFairly(a, b, fps, m) && LostFairly(b, c, fps, n)
    ensures LostFairly(a, c, fps, m + n)
  {
  }

  lemma {:induction false} RunLosesFairly(entries: Entries, maxSize: nat, fps: set<string>, stores: Entries)
    returns (lost: nat)
    requires maxSize >= 1 && |entries| <= maxSize && WithinCap(entries, fps)
    requires forall i :: 0 <= i < |stores| ==> stores[i].senderFp in fps
    ensures |StoreAll(entries, maxSize, stores)| <= maxSize && WithinCap(StoreAll(entries, maxSize, stores), fps)
    ensures LostFairly(entries, StoreAll(entries, maxSize, stores), fps, lost)
  {
    if stores == [] {
      lost := 0;
    } else {
      var before, e := stores[..|stores| - 1], stores[|stores| - 1];
      var lostBefore := RunLosesFairly(entries, maxSize, fps, before);
      var mid := StoreAll(entries, maxSize, before);
      OneStoreIsFair(mid, maxSize, fps, e);
      var lostNow := |Filter(mid, OutsideSenders(fps))| - |Filter(Stored(mid, maxSize, e), OutsideSenders(fps))|;
      LostFairlyTrans(entries, mid, Stored(mid, maxSize, e), fps, lostBefore, lostNow);
      lost := lostBefore + lostNow;
    }
  }

  /** In any run of stores made only by the senders in K, the others lose only
      their oldest entries, at most ten a sender in K less what K already held. */
  lemma EveryRunIsFair(entries: Entries, maxSize: nat, fps: set<string>, stores: Entries) returns (lost: nat)
    requires maxSize >= 1 && |entries| <= maxSize && WithinCap(entries, fps)
    requires forall i :: 0 <= i < |stores| ==> stores[i].senderFp in fps
    ensures |StoreAll(entries, maxSize, stores)| <= maxSize && WithinCap(StoreAll(entries, maxSize, stores), fps)
    ensures LostFairly(entries, StoreAll(entries, maxSize, stores), fps, lost)
    ensures lost <= MAX_ENTRIES_PER_SENDER * |fps| - |Filter(entries, FromSenders(fps))|
  {
    lost := RunLosesFairly(entries, maxSize, fps, stores);
    ShareIsBounded(StoreAll(entries, maxSize, stores), fps);
  }

  /** Within the limits nothing is evicted. */
  lemma {:induction false} LosslessWithinLimits(entries: Entries, maxSize: nat, stores: Entries)
    requires maxSize >= 1 && |entries + stores| <= maxSize
    requires forall fp :: |Filter(entries + stores, FromSender(fp))| <= MAX_ENTRIES_PER_SENDER
    ensures StoreAll(entries, maxSize, stores) == entries + stores
  {
    if stores == [] {
      assert entries + stores == entries;
    } else {
      var before, e := stores[..|stores| - 1], stores[|stores| - 1];
      assert entries + stores == entries + before + [e];
      forall fp
        ensures |Filter(entries + before, FromSender(fp))| + (if e.senderFp == fp then 1 else 0)
             <= MAX_ENTRIES_PER_SENDER
      {
        FilterAppend(entries + before, e, FromSender(fp));
        assert |Filter(entries + stores, FromSender(fp))| <= MAX_ENTRIES_PER_SENDER;
      }
      LosslessWithinLimits(entries, maxSize, before);
    }
  }

  /** A mailbox that starts within its limits loses nothing in a run of stores if
      and only if everything together is within its limits. */
  lemma LosslessExactly(entries: Entries, maxSize: nat, stores: Entries)
    requires maxSize >= 1 && |entries| <= maxSize
    requires forall fp :: |Filter(entries, FromSender(fp))| <= MAX_ENTRIES_PER_SENDER
    ensures StoreAll(entries, maxSize, stores) == entries + stores
       <==> && |entries + stores| <= maxSize
            && forall fp :: |Filter(entries + stores, FromSender(fp))| <= MAX_ENTRIES_PER_SENDER
  {
    if StoreAll(entries, maxSize, stores) == entries + stores {
      var senders := set e | e in stores :: e.senderFp;
      var _ := EveryRunIsFair(entries, maxSize, senders, stores);
      forall fp ensures |Filter(entries + stores, FromSender(fp))| <= MAX_ENTRIES_PER_SENDER {
        if fp !in senders {
          FilterConcat(entries, stores, FromSender(fp));
          FilterNone(stores, FromSender(fp));
        }
      }
    } else if
      && |entries + stores| <= maxSize
      && forall fp :: |Filter(entries + stores, FromSender(fp))| <= MAX_ENTRIES_PER_SENDER
    {
      LosslessWithinLimits(entries, maxSize, stores);
    }
  }

  // ---------------------------------------------------------------- //
  //  How many are kept                                                //
  // ---------------------------------------------------------------- //

  function LastTen(entries: Entries): Entries {
    if |entries| <= MAX_ENTRIES_PER_SENDER then entries else entries[|entries| - MAX_ENTRIES_PER_SENDER..]
  }

  /** Every store of the run finds a free place. */
  ghost predicate NeverFull(entries: Entries, maxSize: nat, stores: Entries) {
    forall n :: 0 <= n < |stores| ==> |StoreAll(entries, maxSize, stores[..n])| < maxSize
  }

  predicate WithinCaps(entries: Entries, fp: string) {
    |Filter(entries, FromSender(fp))| <= MAX_ENTRIES_PER_SENDER
  }

  /** With a free place, only a sender at its cap loses an entry, its oldest. */
  lemma EvictedWithRoom(entries: Entries, maxSize: nat, sender: string, fp: string)
    requires |entries| < maxSize && WithinCaps(entries, sender)
    ensures var mine := Filter(entries, FromSender(fp));
            Filter(Evicted(entries, maxSize, sender), FromSender(fp))
            == if sender == fp && |mine| == MAX_ENTRIES_PER_SENDER then mine[1..] else mine
  {
    if |Filter(entries, FromSender(sender))| >= MAX_ENTRIES_PER_SENDER {
      var at := RemoveFirstShape(entries, sender);
      FilterWithout(entries, at, FromSender(fp));
    }
  }

  lemma LastTenShifts(mine: Entries, e: MailboxEntry)
    requires |mine| <= MAX_ENTRIES_PER_SENDER
    ensures (if |mine| == MAX_ENTRIES_PER_SENDER then mine[1..] else mine) + [e] == LastTen(mine + [e])
  {
  }

  /** One store into a mailbox with a free place: the sender's eleventh entry pushes
      out its first, and nobody else's changes. */
  lemma StoreKeepsLastTen(entries: Entries, maxSize: nat, e: MailboxEntry, fp: string)
    requires |entries| < maxSize && WithinCaps(entries, e.senderFp)
    ensures var mine, after := Filter(entries, FromSender(fp)), Filter(Stored(entries, maxSize, e), FromSender(fp));
            if e.senderFp == fp then after == LastTen(mine + [e]) else after == mine
  {
    EvictedWithRoom(entries, maxSize, e.senderFp, fp);
    FilterAppend(Evicted(entries, maxSize, e.senderFp), e, FromSender(fp));
    hide Filter, Evicted, LastTen;
    if e.senderFp == fp {
      LastTenShifts(Filter(entries, FromSender(fp)), e);
    }
  }

  lemma LastTenBound(entries: Entries)
    ensures |LastTen(entries)| <= MAX_ENTRIES_PER_SENDER
  {
  }

  lemma LastTenAppend(entries: Entries, e: MailboxEntry)
    ensures LastTen(LastTen(entries) + [e]) == LastTen(entries + [e])
  {
  }

  lemma NeverFullBefore(entries: Entries, maxSize: nat, stores: Entries)
    requires NeverFull(entries, maxSize, stores) && stores != []
    ensures var before := stores[..|stores| - 1];
            NeverFull(entries, maxSize, before) && |StoreAll(entries, maxSize, before)| < maxSize
  {
    var before := stores[..|stores| - 1];
    forall n | 0 <= n < |before| ensures |StoreAll(entries, maxSize, before[..n])| < maxSize {
      assert stores[..n] == before[..n];
    }
  }

  /** As long as the mailbox does not fill up and nothing expires, exactly the last
      min(10, n) of the n entries of every sender are kept. */
  lemma {:induction false} KeepsLastTen(entries: Entries, maxSize: nat, stores: Entries, fp: string)
    requires (forall sender :: WithinCaps(entries, sender)) && NeverFull(entries, maxSize, stores)
    ensures Filter(StoreAll(entries, maxSize, stores), FromSender(fp))
         == LastTen(Filter(entries + stores, FromSender(fp)))
  {
    hide LastTen, Filter, Stored;
    if stores == [] {
      assert entries + stores == entries;
      FewAreLastTen(entries, fp);
    } else {
      var before, e := stores[..|stores| - 1], stores[|stores| - 1];
      NeverFullBefore(entries, maxSize, stores);
      KeepsLastTen(entries, maxSize, before, fp);
      KeepsLastTen(entries, maxSize, before, e.senderFp);
      LastTenBound(Filter(entries + before, FromSender(fp)));
      LastTenBound(Filter(entries + before, FromSender(e.senderFp)));
      StoreKeepsLastTen(StoreAll(entries, maxSize, before), maxSize, e, fp);
      assert entries + stores == entries + before + [e];
      FilterAppend(entries + before, e, FromSender(fp));
      LastTenAppend(Filter(entries + before, FromSender(fp)), e);
    }
  }

  lemma FewAreLastTen(entries: Entries, fp: string)
    requires WithinCaps(entries, fp)
    ensures LastTen(Filter(entries, FromSender(fp))) == Filter(entries, FromSender(fp))
  {
  }

  // ---------------------------------------------------------------- //
  //  A mailbox with room                                              //
  // ---------------------------------------------------------------- //

  /** Every store of the run finds a free place. */
  ghost predicate AlwaysRoom(events: seq<Event>, maxSize: nat) {
    forall n :: 0 <= n < |events| && events[n].op.Store? ==> |BoxAfter(events[..n], maxSize).entries| < maxSize
  }

  predicate NoAcks(events: seq<Event>) {
    forall i :: 0 <= i < |events| ==> !events[i].op.Ack?
  }

  lemma RunInit(events: seq<Event>, maxSize: nat)
    requires events != [] && ClockRuns(events) && NoAcks(events) && AlwaysRoom(events, maxSize)
    ensures var before, ev := events[..|events| - 1], events[|events| - 1];
            && ClockRuns(before) && NoAcks(before) && AlwaysRoom(before, maxSize)
            && Clock(before) <= ev.at
            && (ev.op.Store? ==> |BoxAfter(before, maxSize).entries| < maxSize)
  {
    var before := events[..|events| - 1];
    forall n | 0 <= n < |before| && before[n].op.Store?
      ensures |BoxAfter(before[..n], maxSize).entries| < maxSize
    {
      assert before[..n] == events[..n];
    }
  }

  /** The log is in order of storage. */
  lemma {:induction false} LogInOrder(events: seq<Event>, maxSize: nat)
    requires ClockRuns(events) && NoAcks(events)
    ensures StoredInOrder(BoxAfter(events, maxSize).log, Clock(events))
  {
    if events != [] {
      LogInOrder(events[..|events| - 1], maxSize);
    }
  }

  predicate AllLive(entries: Entries, now: nat) {
    forall e :: e in entries ==> Live(now)(e)
  }

  lemma LiveEarlier(entries: Entries, was: nat, now: nat)
    requires was <= now && AllLive(entries, now)
    requires forall e :: e in entries ==> e.storedAt <= was
    ensures AllLive(entries, was)
  {
  }

  lemma StoreKeepsAll(box: Box, maxSize: nat, e: MailboxEntry, fp: string)
    requires |box.entries| < maxSize && MostRecentOfEach(box)
    requires Filter(box.entries, FromSender(fp)) == Filter(box.log, FromSender(fp))
    requires |Filter(box.log + [e], FromSender(fp))| <= MAX_ENTRIES_PER_SENDER
    ensures Filter(Stored(box.entries, maxSize, e), FromSender(fp)) == Filter(box.log + [e], FromSender(fp))
  {
    EvictedWithRoom(box.entries, maxSize, e.senderFp, fp);
    FilterAppend(Evicted(box.entries, maxSize, e.senderFp), e, FromSender(fp));
    FilterAppend(box.log, e, FromSender(fp));
  }

  lemma ExpireKeepsAll(entries: Entries, now: nat, fp: string)
    requires AllLive(Filter(entries, FromSender(fp)), now)
    ensures Filter(Filter(entries, Live(now)), FromSender(fp)) == Filter(entries, FromSender(fp))
  {
    FilterSwap(entries, Live(now), FromSender(fp));
    FilterAll(Filter(entries, FromSender(fp)), Live(now));
  }

  lemma LogGrows(events: seq<Event>, maxSize: nat, fp: string)
    requires events != [] && NoAcks(events)
    ensures var before, all := BoxAfter(events[..|events| - 1], maxSize).log, BoxAfter(events, maxSize).log;
            && |Filter(before, FromSender(fp))| <= |Filter(all, FromSender(fp))|
            && forall e :: e in Filter(before, FromSender(fp)) ==> e in Filter(all, FromSender(fp))
  {
    var ev := events[|events| - 1];
    if ev.op.Store? {
      FilterAppend(BoxAfter(events[..|events| - 1], maxSize).log, ev.op.entry.(storedAt := ev.at), FromSender(fp));
    }
  }

  /** With room for everybody, a sender of at most ten entries that are all within their
      time loses none, whoever else stores what and whenever expired entries go. */
  lemma {:induction false} KeepsAllWithRoom(events: seq<Event>, maxSize: nat, fp: string)
    requires maxSize >= 1 && ClockRuns(events) && NoAcks(events) && AlwaysRoom(events, maxSize)
    requires |Filter(BoxAfter(events, maxSize).log, FromSender(fp))| <= MAX_ENTRIES_PER_SENDER
    requires AllLive(Filter(BoxAfter(events, maxSize).log, FromSender(fp)), Clock(events))
    ensures Filter(BoxAfter(events, maxSize).entries, FromSender(fp))
         == Filter(BoxAfter(events, maxSize).log, FromSender(fp))
  {
    if events != [] {
      var before, ev := events[..|events| - 1], events[|events| - 1];
      var box := BoxAfter(before, maxSize);
      RunInit(events, maxSize);
      LogGrows(events, maxSize, fp);
      LogInOrder(before, maxSize);
      FilterMembers(box.log, FromSender(fp));
      LiveEarlier(Filter(box.log, FromSender(fp)), Clock(before), ev.at);
      KeepsAllWithRoom(before, maxSize, fp);
      EveryRunRetainsRecent(before, maxSize);
      match ev.op
      case Store(entry) => StoreKeepsAll(box, maxSize, entry.(storedAt := ev.at), fp);
      case Ack(_) =>
      case Expire => ExpireKeepsAll(box.entries, ev.at, fp);
    }
  }
}
