/** Runs of the relay's request handlers: what is stored is exactly what the signature,
    the timestamp and the replay log let through. */
module RelayRequests {

  import opened Wrappers
  import opened Sequences
  import opened Mailboxes
  import opened ReplayLog
  import opened RelayState
  import RelayRuns

  type Time = t: real | t >= 0.0

  /** A store request and the answer of its GPG verification; another handler that
      consults the replay log; and whatever else happens to the entries. */
  datatype RelayRequest =
    | Arrives(req: StoreRequest, gpgOk: bool, now: Time)
    | Consults(fp: string, nonce: string, now: Time)
    | Acknowledges(recipient: string, seqNo: int)
    | Purges(recipient: string)
    | CleansUp(at: nat)
    | Restarts

  function Served(s: Server, r: RelayRequest): Server {
    match r
    case Arrives(req, gpgOk, now) => Handled(s, req, gpgOk, now)
    case Consults(fp, nonce, now) => s.(logs := After(s.logs, Consult(fp, nonce, now)))
    case Acknowledges(recipient, seqNo) => s.(relay := AckEntry(s.relay, recipient, seqNo))
    case Purges(recipient) => s.(relay := PurgeAll(s.relay, recipient))
    case CleansUp(at) => s.(relay := Cleanup(s.relay, at))
    case Restarts => Server(Restart(s.relay), map[])
  }

  function ServerAfter(db: Option<Rows>, run: seq<RelayRequest>): Server {
    if run == [] then Server(Relay(map[], db), map[])
    else Served(ServerAfter(db, run[..|run| - 1]), run[|run| - 1])
  }

  // ---------------------------------------------------------------- //
  //  What is let through                                              //
  // ---------------------------------------------------------------- //

  /** The request carries a signature, which the sender named in it has made unless the
      request hides its sender, and is at most five minutes old or ahead. */
  predicate IsGenuine(r: RelayRequest) {
    && r.Arrives?
    && r.req.senderSig != ""
    && (if r.req.sealedSender == "" then r.gpgOk else r.req.senderNid == "anonymous")
    && -300.0 <= r.now - r.req.timestamp <= 300.0
  }

  predicate IsNew(logs: Logs, fp: string, nonce: string) {
    fp in logs ==> forall i :: 0 <= i < |logs[fp]| ==> logs[fp][i].nonce != nonce
  }

  /** A store request is accepted if and only if it is genuine and its sender's log does
      not hold its nonce. */
  lemma AcceptanceExact(logs: Logs, r: RelayRequest)
    requires r.Arrives?
    ensures Accepts(logs, Submission(r.req, r.gpgOk, r.now)) <==>
              IsGenuine(r) && IsNew(logs, r.req.senderFp, r.req.nonce)
  {
  }

  function LogsOf(run: seq<RelayRequest>): Logs {
    ServerAfter(None, run).logs
  }

  /** The entry a request asks to store. */
  function Requested(r: RelayRequest): MailboxEntry
    requires r.Arrives?
  {
    MailboxEntry(r.req.signedBlob, r.req.senderNid, r.req.senderFp, r.req.seqNo, r.now.Floor)
  }

  /** What a request is to the entries: a store if it is genuine and new. */
  function StepEvents(logs: Logs, r: RelayRequest): seq<RelayRuns.RelayEvent> {
    match r
    case Arrives(req, _, _) =>
      if IsGenuine(r) && IsNew(logs, req.senderFp, req.nonce)
      then [RelayRuns.Store(req.recipientNid, Requested(r))] else []
    case Consults(_, _, _) => []
    case Acknowledges(recipient, seqNo) => [RelayRuns.Ack(recipient, seqNo)]
    case Purges(recipient) => [RelayRuns.Purge(recipient)]
    case CleansUp(at) => [RelayRuns.CleanUp(at)]
    case Restarts => [RelayRuns.Reboot]
  }

  function EventsOf(run: seq<RelayRequest>): seq<RelayRuns.RelayEvent> {
    if run == [] then []
    else EventsOf(run[..|run| - 1]) + StepEvents(LogsOf(run[..|run| - 1]), run[|run| - 1])
  }

  lemma StepStores(r: Relay, logs: Logs, request: RelayRequest)
    ensures var events := StepEvents(logs, request);
            Served(Server(r, logs), request).relay == if events == [] then r else RelayRuns.Apply(r, events[0])
  {
    hide StoreEntry, AckEntry, PurgeAll, Cleanup, Restart, Accepts, IsGenuine, IsNew, After, Submission;
    if request.Arrives? {
      AcceptanceExact(logs, request);
    }
  }

  lemma StepSnoc(db: Option<Rows>, events: seq<RelayRuns.RelayEvent>, logs: Logs, request: RelayRequest)
    ensures RelayRuns.RelayAfter(db, events + StepEvents(logs, request))
         == Served(Server(RelayRuns.RelayAfter(db, events), logs), request).relay
  {
    StepStores(RelayRuns.RelayAfter(db, events), logs, request);
    var added := StepEvents(logs, request);
    hide Served, RelayRuns.Apply, StepEvents;
    if added == [] {
      assert events + added == events;
    } else {
      StepIsSingle(logs, request);
      assert (events + added)[..|events|] == events;
    }
  }

  lemma StepIsSingle(logs: Logs, request: RelayRequest)
    ensures |StepEvents(logs, request)| <= 1
  {
  }

  lemma {:induction false} LogsIgnoreEntries(db: Option<Rows>, run: seq<RelayRequest>)
    ensures ServerAfter(db, run).logs == LogsOf(run)
  {
    if run != [] {
      LogsIgnoreEntries(db, run[..|run| - 1]);
      SameLogs(ServerAfter(db, run[..|run| - 1]), ServerAfter(None, run[..|run| - 1]), run[|run| - 1]);
    }
  }

  lemma SameLogs(s: Server, t: Server, r: RelayRequest)
    requires s.logs == t.logs
    ensures Served(s, r).logs == Served(t, r).logs
  {
  }

  /** Over every run of requests, with a database or without, the relay is what storing
      exactly the genuine new requests makes of it. */
  lemma {:induction false} EveryRunStoresGenuine(db: Option<Rows>, run: seq<RelayRequest>)
    ensures ServerAfter(db, run) == Server(RelayRuns.RelayAfter(db, EventsOf(run)), LogsOf(run))
  {
    LogsIgnoreEntries(db, run);
    if run != [] {
      var before, r := run[..|run| - 1], run[|run| - 1];
      EveryRunStoresGenuine(db, before);
      StepSnoc(db, EventsOf(before), LogsOf(before), r);
      hide Served, RelayRuns.RelayAfter, StepEvents, LogsOf;
    }
  }

  /** With a database, a fetch hands out exactly what genuine new requests stored and
      nobody acknowledged or purged. */
  lemma EveryFetchIsGenuine(run: seq<RelayRequest>, recipient: string, now: nat, answer: Entries)
    requires PossibleAnswer(ServerAfter(RelayRuns.NO_ROWS, run).relay, recipient, Some(answer))
    ensures IsSelection(Fetched(ServerAfter(RelayRuns.NO_ROWS, run).relay, recipient, now, Some(answer)),
                        RelayRuns.Pending(EventsOf(run), recipient))
  {
    EveryRunStoresGenuine(RelayRuns.NO_ROWS, run);
    RelayRuns.EveryFetchIsPending(EventsOf(run), recipient, now, answer);
  }

  // ---------------------------------------------------------------- //
  //  Where entries come from                                          //
  // ---------------------------------------------------------------- //

  /** Some genuine request of the run asked to store the entry for the recipient. */
  predicate WasRequested(run: seq<RelayRequest>, recipient: string, e: MailboxEntry) {
    exists i :: 0 <= i < |run| && IsGenuine(run[i]) && run[i].req.recipientNid == recipient && Requested(run[i]) == e
  }

  predicate InRows(db: Option<Rows>, recipient: string, e: MailboxEntry) {
    db.Some? && exists row :: row in db.value && row.recipient == recipient && row.entry == e
  }

  lemma {:induction false} StoreWasRequested(run: seq<RelayRequest>, recipient: string, e: MailboxEntry)
    requires RelayRuns.Store(recipient, e) in EventsOf(run)
    ensures WasRequested(run, recipient, e)
  {
    var before, r := run[..|run| - 1], run[|run| - 1];
    if RelayRuns.Store(recipient, e) in EventsOf(before) {
      StoreWasRequested(before, recipient, e);
      var i :| 0 <= i < |before| && IsGenuine(before[i]) && before[i].req.recipientNid == recipient
                                 && Requested(before[i]) == e;
      assert run[i] == before[i];
    }
  }

  lemma {:induction false} MarkedRows(rows: Rows, to: string, seqNo: int, row: Row)
    requires row in MarkDelivered(rows, to, seqNo)
    ensures exists was :: was in rows && was.recipient == row.recipient && was.entry == row.entry
  {
    if row == MarkRow(rows[0], to, seqNo) {
      assert rows[0] in rows;
    } else {
      MarkedRows(rows[1..], to, seqNo, row);
      var was :| was in rows[1..] && was.recipient == row.recipient && was.entry == row.entry;
      assert was in rows;
    }
  }

  lemma RemovedIsSubset(entries: Entries, fp: string, e: MailboxEntry)
    requires e in RemoveFirstFrom(entries, fp)
    ensures e in entries
  {
    RelayRuns.RemoveFirstIsSubMultiset(entries, fp);
    assert e in multiset(RemoveFirstFrom(entries, fp));
    assert e in multiset(entries);
  }

  /** One step brings no entry but the one it stores. */
  lemma StepBringsNothing(r: Relay, ev: RelayRuns.RelayEvent, recipient: string, e: MailboxEntry)
    ensures e in InMemory(RelayRuns.Apply(r, ev).memory, recipient) ==>
              e in InMemory(r.memory, recipient) || ev == RelayRuns.Store(recipient, e)
    ensures InRows(RelayRuns.Apply(r, ev).db, recipient, e) ==>
              InRows(r.db, recipient, e) || ev == RelayRuns.Store(recipient, e)
  {
    match ev
    case Store(to, entry) => StoreBringsOne(r, to, entry, recipient, e);
    case Ack(to, seqNo) => AckBringsNothing(r, to, seqNo, recipient, e);
    case Purge(to) =>
      if r.db.Some? {
        FilterMembers(r.db.value, OtherRecipient(to));
      }
    case CleanUp(now) =>
      FilterMembers(InMemory(r.memory, recipient), Live(now));
      if r.db.Some? {
        FilterMembers(r.db.value, KeepRow(now - MAILBOX_TTL_SECONDS));
      }
    case Reboot =>
  }

  lemma StoreBringsOne(r: Relay, to: string, entry: MailboxEntry, recipient: string, e: MailboxEntry)
    ensures e in InMemory(StoreEntry(r, to, entry).memory, recipient) ==>
              e in InMemory(r.memory, recipient) || (to == recipient && entry == e)
    ensures InRows(StoreEntry(r, to, entry).db, recipient, e) ==>
              InRows(r.db, recipient, e) || (to == recipient && entry == e)
  {
    if to == recipient && e in InMemory(StoreEntry(r, to, entry).memory, recipient) && e != entry {
      var mine := InMemory(r.memory, recipient);
      assert e in Evicted(mine, MAX_MAILBOX_SIZE, entry.senderFp);
      if e in RemoveFirstFrom(mine, entry.senderFp) {
        RemovedIsSubset(mine, entry.senderFp, e);
      }
    }
  }

  lemma AckBringsNothing(r: Relay, to: string, seqNo: int, recipient: string, e: MailboxEntry)
    ensures e in InMemory(AckEntry(r, to, seqNo).memory, recipient) ==> e in InMemory(r.memory, recipient)
    ensures InRows(AckEntry(r, to, seqNo).db, recipient, e) ==> InRows(r.db, recipient, e)
  {
    FilterMembers(InMemory(r.memory, recipient), OtherSeq(seqNo));
    if InRows(AckEntry(r, to, seqNo).db, recipient, e) {
      var row :| row in AckEntry(r, to, seqNo).db.value && row.recipient == recipient && row.entry == e;
      MarkedRows(r.db.value, to, seqNo, row);
    }
  }

  lemma {:induction false} EntryWasStored(db: Option<Rows>, events: seq<RelayRuns.RelayEvent>, recipient: string,
                                          e: MailboxEntry)
    requires db == None || db == RelayRuns.NO_ROWS
    requires var r := RelayRuns.RelayAfter(db, events);
             e in InMemory(r.memory, recipient) || InRows(r.db, recipient, e)
    ensures RelayRuns.Store(recipient, e) in events
  {
    if events != [] {
      var before, ev := events[..|events| - 1], events[|events| - 1];
      StepBringsNothing(RelayRuns.RelayAfter(db, before), ev, recipient, e);
      if ev != RelayRuns.Store(recipient, e) {
        EntryWasStored(db, before, recipient, e);
      }
    }
  }

  /** In every run, whatever the relay holds for a recipient, in memory or in its
      database, was asked for by a genuine request. */
  lemma EveryEntryIsGenuine(db: Option<Rows>, run: seq<RelayRequest>, recipient: string, e: MailboxEntry)
    requires db == None || db == RelayRuns.NO_ROWS
    requires var r := ServerAfter(db, run).relay;
             e in InMemory(r.memory, recipient) || InRows(r.db, recipient, e)
    ensures WasRequested(run, recipient, e)
  {
    EveryRunStoresGenuine(db, run);
    EntryWasStored(db, EventsOf(run), recipient, e);
    StoreWasRequested(run, recipient, e);
  }
}
