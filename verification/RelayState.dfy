/** The relay's state: mailboxes in memory, a database copy of every entry, and
    the replay log in front of them. */
module RelayState {

  import opened Wrappers
  import opened Sequences
  import opened Mailboxes
  import opened ReplayLog

  const MAX_MAILBOX_SIZE: nat := 1000

  /** One row of mailbox_entries, in order of its autoincremented id. */
  datatype Row = Row(recipient: string, entry: MailboxEntry, delivered: bool)

  type Rows = seq<Row>

  /** The contents of the relay; db is None when no database is attached. */
  datatype Relay = Relay(memory: map<string, Entries>, db: Option<Rows>)

  // ---------------------------------------------------------------- //
  //  Specification                                                    //
  // ---------------------------------------------------------------- //

  function InMemory(memory: map<string, Entries>, recipient: string): Entries {
    if recipient in memory then memory[recipient] else []
  }

  function KeepRow(cutoff: int): Row -> bool {
    (row: Row) => !(row.entry.storedAt < cutoff && row.delivered)
  }

  function OtherRecipient(recipient: string): Row -> bool {
    (row: Row) => row.recipient != recipient
  }

  function MarkRow(row: Row, recipient: string, seqNo: int): Row {
    if row.recipient == recipient && row.entry.seqNo == seqNo && !row.delivered then row.(delivered := true)
    else row
  }

  function MarkDelivered(rows: Rows, recipient: string, seqNo: int): Rows {
    if rows == [] then [] else [MarkRow(rows[0], recipient, seqNo)] + MarkDelivered(rows[1..], recipient, seqNo)
  }

  /** The entry of a row, if it is undelivered and the recipient's. */
  function IfUndelivered(row: Row, recipient: string): Entries {
    if row.recipient == recipient && !row.delivered then [row.entry] else []
  }

  /** The undelivered entries of a recipient, in storage order. */
  function Undelivered(rows: Rows, recipient: string): Entries {
    if rows == [] then [] else IfUndelivered(rows[0], recipient) + Undelivered(rows[1..], recipient)
  }

  function StoreEntry(r: Relay, recipient: string, e: MailboxEntry): Relay {
    Relay(r.memory[recipient := Stored(InMemory(r.memory, recipient), MAX_MAILBOX_SIZE, e)],
          match r.db case None => None case Some(rows) => Some(rows + [Row(recipient, e, false)]))
  }

  function AckEntry(r: Relay, recipient: string, seqNo: int): Relay {
    Relay(if recipient in r.memory
          then r.memory[recipient := Filter(r.memory[recipient], OtherSeq(seqNo))] else r.memory,
          match r.db case None => None case Some(rows) => Some(MarkDelivered(rows, recipient, seqNo)))
  }

  function PurgeAll(r: Relay, recipient: string): Relay {
    Relay(r.memory - {recipient},
          match r.db case None => None case Some(rows) => Some(Filter(rows, OtherRecipient(recipient))))
  }

  function Expired(memory: map<string, Entries>, now: nat): map<string, Entries> {
    map n | n in memory :: Filter(memory[n], Live(now))
  }

  function NonEmpty(memory: map<string, Entries>): map<string, Entries> {
    map n | n in memory && memory[n] != [] :: memory[n]
  }

  function Cleanup(r: Relay, now: nat): Relay {
    Relay(NonEmpty(Expired(r.memory, now)),
          match r.db case None => None
                     case Some(rows) => Some(Filter(rows, KeepRow(now - MAILBOX_TTL_SECONDS))))
  }

  function Restart(r: Relay): Relay {
    Relay(map[], r.db)
  }

  /** What SELECT ... ORDER BY seq may answer: the order among equal sequence
      numbers is the database's choice. */
  predicate IsSelection(answer: Entries, undelivered: Entries) {
    && multiset(answer) == multiset(undelivered)
    && forall i, j :: 0 <= i < j < |answer| ==> answer[i].seqNo <= answer[j].seqNo
  }

  /** answer is what the query returned, None if it failed. */
  predicate PossibleAnswer(r: Relay, recipient: string, answer: Option<Entries>) {
    r.db.Some? && answer.Some? ==> IsSelection(answer.value, Undelivered(r.db.value, recipient))
  }

  function Fetched(r: Relay, recipient: string, now: nat, answer: Option<Entries>): Entries {
    if r.db.Some? && answer.Some? && answer.value != [] then answer.value
    else Filter(InMemory(r.memory, recipient), Live(now))
  }

  // ---------------------------------------------------------------- //
  //  The acceptance of a store request                                //
  // ---------------------------------------------------------------- //

  datatype StoreRequest = StoreRequest(
    recipientNid: string, signedBlob: string, senderNid: string, senderFp: string, seqNo: int,
    timestamp: real, nonce: string, senderSig: string, sealedSender: string)

  datatype StoreError =
    | MissingSignature
    | SealedSenderNotAnonymous
    | BadSignature
    | TimestampOutOfRange
    | ReplayDetected

  /** gpgOk is the answer of the GPG verification. */
  function VerifyStoreSignature(req: StoreRequest, gpgOk: bool): Result<(), StoreError> {
    if req.senderSig == "" then Err(MissingSignature)
    else if req.sealedSender != "" then
      if req.senderNid != "anonymous" then Err(SealedSenderNotAnonymous) else Ok(())
    else if gpgOk then Ok(()) else Err(BadSignature)
  }

  function EntryOf(req: StoreRequest, now: nat): MailboxEntry {
    MailboxEntry(req.signedBlob, req.senderNid, req.senderFp, req.seqNo, now)
  }

  function Submission(req: StoreRequest, gpgOk: bool, now: real): Event {
    Submit(Request(req.senderFp, req.nonce, req.timestamp, VerifyStoreSignature(req, gpgOk).Ok?), now)
  }

  /** The relay with its replay log, which lives in memory alone. */
  datatype Server = Server(relay: Relay, logs: Logs)

  /** What the handler makes of a store request. */
  function Handled(s: Server, req: StoreRequest, gpgOk: bool, now: real): Server
    requires now >= 0.0
  {
    var ev := Submission(req, gpgOk, now);
    Server(if Accepts(s.logs, ev) then StoreEntry(s.relay, req.recipientNid, EntryOf(req, now.Floor)) else s.relay,
           After(s.logs, ev))
  }

  // ---------------------------------------------------------------- //
  //  The state object                                                 //
  // ---------------------------------------------------------------- //

  class RelayState {
    var mailboxes: map<string, Mailbox>
    var db: Option<Rows>
    var seenNonces: Logs
    ghost var Contents: Relay
    ghost var Repr: set<Mailbox>

    /** One mailbox object a recipient, all distinct, holding the given entries. */
    ghost predicate Holds(memory: map<string, Entries>)
      reads this`mailboxes, this`Repr, Repr
    {
      && (forall n :: n in mailboxes <==> n in memory)
      && (forall n :: n in mailboxes ==>
            && mailboxes[n] in Repr
            && mailboxes[n].maxSize == MAX_MAILBOX_SIZE
            && mailboxes[n].entries == memory[n])
      && (forall m, n :: m in mailboxes && n in mailboxes && m != n ==> mailboxes[m] != mailboxes[n])
    }

    ghost predicate Valid()
      reads this, Repr
    {
      db == Contents.db && Holds(Contents.memory)
    }

    constructor (db: Option<Rows>)
      ensures Valid() && Contents == Relay(map[], db) && seenNonces == map[]
    {
      mailboxes := map[];
      this.db := db;
      seenNonces := map[];
      Contents := Relay(map[], db);
      Repr := {};
    }

    /** The recipient's mailbox, created if there is none. */
    method MailboxFor(recipient: string) returns (mailbox: Mailbox)
      requires Valid()
      modifies this
      ensures Valid() && fresh(Repr - old(Repr))
      ensures recipient in mailboxes && mailboxes[recipient] == mailbox
      ensures Contents == old(Contents).(memory :=
                old(Contents).memory[recipient := InMemory(old(Contents).memory, recipient)])
      ensures seenNonces == old(seenNonces)
    {
      if recipient !in mailboxes {
        var empty := new Mailbox(MAX_MAILBOX_SIZE);
        mailboxes := mailboxes[recipient := empty];
        Repr := Repr + {empty};
      }
      mailbox := mailboxes[recipient];
      Contents := Contents.(memory := Contents.memory[recipient := InMemory(Contents.memory, recipient)]);
    }

    /** Database statements are assumed to succeed. */
    method StoreMessage(req: StoreRequest, now: nat)
      requires Valid()
      modifies this, Repr
      ensures Valid() && fresh(Repr - old(Repr))
      ensures Contents
           == StoreEntry(old(Contents), req.recipientNid,
                         MailboxEntry(req.signedBlob, req.senderNid, req.senderFp, req.seqNo, now))
      ensures seenNonces == old(seenNonces)
    {
      var mailbox := MailboxFor(req.recipientNid);
      mailbox.Store(MailboxEntry(req.signedBlob, req.senderNid, req.senderFp, req.seqNo, now));
      if db.Some? {
        var storedAt := mailbox.entries[|mailbox.entries| - 1].storedAt;
        var row := Row(req.recipientNid,
                       MailboxEntry(req.signedBlob, req.senderNid, req.senderFp, req.seqNo, storedAt), false);
        db := Some(db.value + [row]);
      }
      Contents := StoreEntry(old(Contents), req.recipientNid, EntryOf(req, now));
    }

    method FetchMessages(recipient: string, now: nat, answer: Option<Entries>) returns (r: Entries)
      requires Valid() && PossibleAnswer(Contents, recipient, answer)
      ensures r == Fetched(Contents, recipient, now, answer)
      ensures r == if db.Some? && answer.Some? && answer.value != [] then answer.value
                   else if recipient in Contents.memory then Filter(Contents.memory[recipient], Live(now))
                   else []
    {
      if db.Some? && answer.Some? {
        if answer.value != [] {
          return answer.value;
        }
      }
      if recipient in mailboxes {
        r := mailboxes[recipient].Fetch(now);
      } else {
        r := [];
      }
    }

    method AckMessage(recipient: string, seqNo: int)
      requires Valid()
      modifies this, Repr
      ensures Valid() && Repr == old(Repr)
      ensures Contents == AckEntry(old(Contents), recipient, seqNo)
      ensures seenNonces == old(seenNonces)
    {
      if recipient in mailboxes {
        mailboxes[recipient].Ack(seqNo);
      }
      if db.Some? {
        db := Some(MarkDelivered(db.value, recipient, seqNo));
      }
      Contents := AckEntry(Contents, recipient, seqNo);
    }

    method PurgeAllMessages(recipient: string)
      requires Valid()
      modifies this
      ensures Valid() && Repr == old(Repr)
      ensures Contents == PurgeAll(old(Contents), recipient)
      ensures seenNonces == old(seenNonces)
    {
      mailboxes := mailboxes - {recipient};
      if db.Some? {
        db := Some(Filter(db.value, OtherRecipient(recipient)));
      }
      Contents := PurgeAll(Contents, recipient);
    }

    method ExpireMailboxes(now: nat, ghost memory: map<string, Entries>)
      requires Holds(memory)
      modifies Repr
      ensures Holds(Expired(memory, now))
    {
      var todo := mailboxes.Keys;
      while todo != {}
        invariant todo <= mailboxes.Keys
        invariant forall n :: n in mailboxes ==>
          mailboxes[n].entries == if n in todo then memory[n] else Filter(memory[n], Live(now))
        decreases |todo|
      {
        var n :| n in todo;
        mailboxes[n].Expire(now);
        todo := todo - {n};
      }
    }

    method DropEmptyMailboxes(ghost memory: map<string, Entries>)
      requires Holds(memory)
      modifies this`mailboxes
      ensures Holds(NonEmpty(memory))
    {
      mailboxes := map n | n in mailboxes && mailboxes[n].entries != [] :: mailboxes[n];
    }

    method CleanupExpired(now: nat)
      requires Valid()
      modifies this, Repr
      ensures Valid() && Repr == old(Repr)
      ensures Contents == Cleanup(old(Contents), now)
      ensures db.Some? ==> db == Some(Filter(old(db).value, KeepRow(now - MAILBOX_TTL_SECONDS)))
      ensures seenNonces == old(seenNonces)
    {
      ghost var memory := Expired(Contents.memory, now);
      ExpireMailboxes(now, Contents.memory);
      DropEmptyMailboxes(memory);
      if db.Some? {
        db := Some(Filter(db.value, KeepRow(now - MAILBOX_TTL_SECONDS)));
      }
      Contents := Cleanup(Contents, now);
    }

    method CheckAndRecordNonceStr(fp: string, nonce: string, now: int) returns (isNew: bool)
      requires Valid()
      modifies this`seenNonces
      ensures (isNew, seenNonces) == Checked(old(seenNonces), fp, nonce, now)
    {
      var entry := if fp in seenNonces then seenNonces[fp] else [];
      for i := 0 to |entry|
        invariant forall k :: 0 <= k < i ==> entry[k].nonce != nonce
      {
        if entry[i].nonce == nonce {
          return false;
        }
      }
      var cutoff := now - TOLERANCE_SECS;
      entry := Filter(entry, Since(cutoff));
      if |entry| >= MAX_NONCES_PER_SENDER {
        entry := entry[|entry| / 2..];
      }
      entry := entry + [Stamp(nonce, now)];
      seenNonces := seenNonces[fp := entry];
      return true;
    }

    /** The relay-store handler: signature, then timestamp, then replay log, and
        only then the mailbox. One clock reading serves the whole request. */
    method HandleRelayStore(req: StoreRequest, gpgOk: bool, now: real) returns (r: Result<(), StoreError>)
      requires Valid() && now >= 0.0
      modifies this, Repr
      ensures Valid() && fresh(Repr - old(Repr))
      ensures Server(Contents, seenNonces) == Handled(old(Server(Contents, seenNonces)), req, gpgOk, now)
      ensures Contents
           == if r.Err? then old(Contents)
              else StoreEntry(old(Contents), req.recipientNid,
                              MailboxEntry(req.signedBlob, req.senderNid, req.senderFp, req.seqNo, now.Floor))
      ensures r.Ok? <==>
                && req.senderSig != ""
                && (if req.sealedSender == "" then gpgOk else req.senderNid == "anonymous")
                && -300.0 <= now - req.timestamp <= 300.0
                && !Mentions(LogOf(old(seenNonces), req.senderFp), req.nonce)
      ensures r.Err? ==>
                && seenNonces == old(seenNonces)
                && r.error == if req.senderSig == "" then MissingSignature
                              else if req.sealedSender != "" && req.senderNid != "anonymous"
                              then SealedSenderNotAnonymous
                              else if req.sealedSender == "" && !gpgOk then BadSignature
                              else if !(-300.0 <= now - req.timestamp <= 300.0) then TimestampOutOfRange
                              else ReplayDetected
    {
      var verified := VerifyStoreSignature(req, gpgOk);
      if verified.Err? {
        return verified;
      }
      if !TimestampFresh(req.timestamp, now) {
        return Err(TimestampOutOfRange);
      }
      var isNew := CheckAndRecordNonceStr(req.senderFp, req.nonce, now.Floor);
      if !isNew {
        return Err(ReplayDetected);
      }
      StoreMessage(req, now.Floor);
      return Ok(());
    }
  }
}
