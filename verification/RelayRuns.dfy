/** With a database attached, the relay is a pending set: over any run it hands
    out exactly what was stored and neither acknowledged nor purged. */
module RelayRuns {

  import opened Wrappers
  import opened Sequences
  import opened Mailboxes
  import opened RelayState

  datatype RelayEvent =
    | Store(recipient: string, entry: MailboxEntry)
    | Ack(recipient: string, seqNo: int)
    | Purge(recipient: string)
    | CleanUp(now: nat)
    | Reboot

  function Apply(r: Relay, ev: RelayEvent): Relay {
    match ev
    case Store(recipient, entry) => StoreEntry(r, recipient, entry)
    case Ack(recipient, seqNo) => AckEntry(r, recipient, seqNo)
    case Purge(recipient) => PurgeAll(r, recipient)
    case CleanUp(now) => Cleanup(r, now)
    case Reboot => Restart(r)
  }

  /** A run that starts with an empty memory, and with these rows if there is a database. */
  function RelayAfter(db: Option<Rows>, events: seq<RelayEvent>): Relay {
    if events == [] then Relay(map[], db)
    else Apply(RelayAfter(db, events[..|events| - 1]), events[|events| - 1])
  }

  const NO_ROWS: Option<Rows> := Some([])

  /** The specification: what is pending for one recipient, in storage order. */
  function Pending(events: seq<RelayEvent>, recipient: string): Entries {
    if events == [] then []
    else PendingAfter(Pending(events[..|events| - 1], recipient), events[|events| - 1], recipient)
  }

  function PendingAfter(pending: Entries, ev: RelayEvent, recipient: string): Entries {
    match ev
    case Store(to, entry) => if to == recipient then pending + [entry] else pending
    case Ack(to, seqNo) => if to == recipient then Filter(pending, OtherSeq(seqNo)) else pending
    case Purge(to) => if to == recipient then [] else pending
    case CleanUp(_) => pending
    case Reboot => pending
  }

  // ---------------------------------------------------------------- //
  //  The database                                                     //
  // ---------------------------------------------------------------- //

  lemma {:induction false} UndeliveredAppend(rows: Rows, row: Row, recipient: string)
    ensures Undelivered(rows + [row], recipient)
         == Undelivered(rows, recipient) + IfUndelivered(row, recipient)
  {
    if rows == [] {
      assert [row][1..] == [];
    } else {
      assert (rows + [row])[1..] == rows[1..] + [row];
      UndeliveredAppend(rows[1..], row, recipient);
    }
  }

  lemma MarkOne(row: Row, to: string, seqNo: int, recipient: string)
    ensures IfUndelivered(MarkRow(row, to, seqNo), recipient)
         == if to == recipient then Filter(IfUndelivered(row, recipient), OtherSeq(seqNo))
            else IfUndelivered(row, recipient)
  {
    if row.recipient == recipient && !row.delivered {
      assert [row.entry][1..] == [];
    }
  }

  lemma {:induction false} UndeliveredAfterMark(rows: Rows, to: string, seqNo: int, recipient: string)
    ensures Undelivered(MarkDelivered(rows, to, seqNo), recipient)
         == if to == recipient then Filter(Undelivered(rows, recipient), OtherSeq(seqNo))
            else Undelivered(rows, recipient)
  {
    if rows != [] {
      UndeliveredAfterMark(rows[1..], to, seqNo, recipient);
      MarkOne(rows[0], to, seqNo, recipient);
      FilterConcat(IfUndelivered(rows[0], recipient), Undelivered(rows[1..], recipient), OtherSeq(seqNo));
      assert MarkDelivered(rows, to, seqNo)[1..] == MarkDelivered(rows[1..], to, seqNo);
    }
  }

  lemma {:induction false} UndeliveredAfterPurge(rows: Rows, to: string, recipient: string)
    ensures Undelivered(Filter(rows, OtherRecipient(to)), recipient)
         == if to == recipient then [] else Undelivered(rows, recipient)
  {
    if rows != [] {
      UndeliveredAfterPurge(rows[1..], to, recipient);
      assert ([rows[0]] + Filter(rows[1..], OtherRecipient(to)))[1..] == Filter(rows[1..], OtherRecipient(to));
    }
  }

  /** Clean-up deletes delivered rows only. */
  lemma {:induction false} UndeliveredAfterCleanup(rows: Rows, cutoff: int, recipient: string)
    ensures Undelivered(Filter(rows, KeepRow(cutoff)), recipient) == Undelivered(rows, recipient)
  {
    if rows != [] {
      UndeliveredAfterCleanup(rows[1..], cutoff, recipient);
      assert ([rows[0]] + Filter(rows[1..], KeepRow(cutoff)))[1..] == Filter(rows[1..], KeepRow(cutoff));
    }
  }

  /** A clean-up deletes exactly the rows that were delivered and stored over a week ago. */
  lemma CleanupDropsOldDelivered(rows: Rows, now: nat, row: Row)
    ensures var after := Cleanup(Relay(map[], Some(rows)), now).db.value;
            multiset(after)[row]
            == if row.delivered && row.entry.storedAt < now - 604800 then 0 else multiset(rows)[row]
  {
    FilterMultiset(rows, KeepRow(now - MAILBOX_TTL_SECONDS), row);
  }

  /** A purge deletes every row of the recipient, delivered or not, and no other. */
  lemma PurgeDropsRecipient(rows: Rows, recipient: string, row: Row)
    ensures var after := PurgeAll(Relay(map[], Some(rows)), recipient).db.value;
            multiset(after)[row] == if row.recipient == recipient then 0 else multiset(rows)[row]
  {
    FilterMultiset(rows, OtherRecipient(recipient), row);
  }

  /** An acknowledgement only marks rows: those of the recipient with the number are
      delivered afterwards, and nothing else changes. */
  lemma {:induction false} AckMarks(rows: Rows, recipient: string, seqNo: int, i: nat)
    requires i < |rows|
    ensures |MarkDelivered(rows, recipient, seqNo)| == |rows|
    ensures var row, after := rows[i], MarkDelivered(rows, recipient, seqNo)[i];
            && after.recipient == row.recipient && after.entry == row.entry
            && (after.delivered <==> row.delivered || (row.recipient == recipient && row.entry.seqNo == seqNo))
  {
    if i > 0 {
      AckMarks(rows[1..], recipient, seqNo, i - 1);
    } else if |rows| > 1 {
      AckMarks(rows[1..], recipient, seqNo, 0);
    }
  }

  // ---------------------------------------------------------------- //
  //  The cache                                                        //
  // ---------------------------------------------------------------- //

  lemma SubMultisetTrans(a: Entries, b: Entries, c: Entries)
    requires multiset(a) <= multiset(b) && multiset(b) <= multiset(c)
    ensures multiset(a) <= multiset(c)
  {
  }

  lemma {:induction false} RemoveFirstIsSubMultiset(a: Entries, fp: string)
    ensures multiset(RemoveFirstFrom(a, fp)) <= multiset(a)
  {
    if a != [] {
      assert a == [a[0]] + a[1..];
      RemoveFirstIsSubMultiset(a[1..], fp);
    }
  }

  lemma TailIsSubMultiset(a: Entries)
    ensures a != [] ==> multiset(a[1..]) <= multiset(a)
  {
    if a != [] {
      assert a == [a[0]] + a[1..];
    }
  }

  lemma EvictedIsSubMultiset(a: Entries, maxSize: nat, fp: string)
    ensures multiset(Evicted(a, maxSize, fp)) <= multiset(a)
  {
    RemoveFirstIsSubMultiset(a, fp);
    TailIsSubMultiset(a);
  }

  /** Every entry in memory is a pending one, counting repetitions. */
  predicate CacheIncluded(r: Relay, recipient: string, pending: Entries) {
    multiset(InMemory(r.memory, recipient)) <= multiset(pending)
  }

  lemma StoreKeepsCache(r: Relay, to: string, e: MailboxEntry, recipient: string, pending: Entries)
    requires CacheIncluded(r, recipient, pending)
    ensures CacheIncluded(StoreEntry(r, to, e), recipient, if to == recipient then pending + [e] else pending)
  {
    if to == recipient {
      var mine := InMemory(r.memory, recipient);
      EvictedIsSubMultiset(mine, MAX_MAILBOX_SIZE, e.senderFp);
    }
  }

  lemma AckKeepsCache(r: Relay, to: string, seqNo: int, recipient: string, pending: Entries)
    requires CacheIncluded(r, recipient, pending)
    ensures CacheIncluded(AckEntry(r, to, seqNo), recipient,
                          if to == recipient then Filter(pending, OtherSeq(seqNo)) else pending)
  {
    FilterSubMultiset(InMemory(r.memory, recipient), pending, OtherSeq(seqNo));
  }

  lemma CleanupKeepsCache(r: Relay, now: nat, recipient: string, pending: Entries)
    requires CacheIncluded(r, recipient, pending)
    ensures CacheIncluded(Cleanup(r, now), recipient, pending)
  {
    FilterIsSubMultiset(InMemory(r.memory, recipient), Live(now));
  }

  // ---------------------------------------------------------------- //
  //  Every run                                                        //
  // ---------------------------------------------------------------- //

  predicate Refines(r: Relay, recipient: string, pending: Entries) {
    && r.db.Some?
    && Undelivered(r.db.value, recipient) == pending
    && CacheIncluded(r, recipient, pending)
  }

  lemma StoreRefines(r: Relay, to: string, entry: MailboxEntry, recipient: string, pending: Entries)
    requires Refines(r, recipient, pending)
    ensures Refines(StoreEntry(r, to, entry), recipient, if to == recipient then pending + [entry] else pending)
  {
    UndeliveredAppend(r.db.value, Row(to, entry, false), recipient);
    StoreKeepsCache(r, to, entry, recipient, pending);
  }

  lemma AckRefines(r: Relay, to: string, seqNo: int, recipient: string, pending: Entries)
    requires Refines(r, recipient, pending)
    ensures Refines(AckEntry(r, to, seqNo), recipient,
                    if to == recipient then Filter(pending, OtherSeq(seqNo)) else pending)
  {
    UndeliveredAfterMark(r.db.value, to, seqNo, recipient);
    AckKeepsCache(r, to, seqNo, recipient, pending);
  }

  lemma PurgeRefines(r: Relay, to: string, recipient: string, pending: Entries)
    requires Refines(r, recipient, pending)
    ensures Refines(PurgeAll(r, to), recipient, if to == recipient then [] else pending)
  {
    UndeliveredAfterPurge(r.db.value, to, recipient);
  }

  lemma CleanupRefines(r: Relay, now: nat, recipient: string, pending: Entries)
    requires Refines(r, recipient, pending)
    ensures Refines(Cleanup(r, now), recipient, pending)
  {
    UndeliveredAfterCleanup(r.db.value, now - MAILBOX_TTL_SECONDS, recipient);
    CleanupKeepsCache(r, now, recipient, pending);
  }

  lemma StepRefinesPending(r: Relay, ev: RelayEvent, recipient: string, pending: Entries)
    requires Refines(r, recipient, pending)
    ensures Refines(Apply(r, ev), recipient, PendingAfter(pending, ev, recipient))
  {
    match ev
    case Store(to, entry) => StoreRefines(r, to, entry, recipient, pending);
    case Ack(to, seqNo) => AckRefines(r, to, seqNo, recipient, pending);
    case Purge(to) => PurgeRefines(r, to, recipient, pending);
    case CleanUp(now) => CleanupRefines(r, now, recipient, pending);
    case Reboot =>
  }

  /** Over any run, the undelivered rows are exactly the pending messages, in
      storage order, and memory holds no more than them. */
  lemma {:induction false} EveryRunRefinesPending(events: seq<RelayEvent>, recipient: string)
    ensures Refines(RelayAfter(NO_ROWS, events), recipient, Pending(events, recipient))
  {
    if events != [] {
      var before := events[..|events| - 1];
      EveryRunRefinesPending(before, recipient);
      StepRefinesPending(RelayAfter(NO_ROWS, before), events[|events| - 1], recipient, Pending(before, recipient));
    }
  }

  /** A fetch hands out exactly the pending messages, each as often as it was
      stored, in non-decreasing order of sequence number: the fallback to memory
      neither revives nor loses anything. */
  lemma EveryFetchIsPending(events: seq<RelayEvent>, recipient: string, now: nat, answer: Entries)
    requires PossibleAnswer(RelayAfter(NO_ROWS, events), recipient, Some(answer))
    ensures IsSelection(Fetched(RelayAfter(NO_ROWS, events), recipient, now, Some(answer)), Pending(events, recipient))
  {
    EveryRunRefinesPending(events, recipient);
    var r := RelayAfter(NO_ROWS, events);
    if answer == [] {
      assert |multiset(Pending(events, recipient))| == 0;
      assert |multiset(InMemory(r.memory, recipient))| == 0;
    }
  }

  /** When the query fails, the fetch still hands out pending messages only. */
  lemma FailedQueryIsSafe(events: seq<RelayEvent>, recipient: string, now: nat)
    ensures multiset(Fetched(RelayAfter(NO_ROWS, events), recipient, now, None)) <= multiset(Pending(events, recipient))
  {
    EveryRunRefinesPending(events, recipient);
    var mine := InMemory(RelayAfter(NO_ROWS, events).memory, recipient);
    FilterIsSubMultiset(mine, Live(now));
    SubMultisetTrans(Filter(mine, Live(now)), mine, Pending(events, recipient));
  }
}
