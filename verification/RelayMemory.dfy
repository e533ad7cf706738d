/** The relay's memory over runs, with a database or without: it is a bounded mailbox
    for every recipient, and what a fetch falls back to is what of it has not expired. */
module RelayMemory {

  import opened Wrappers
  import opened Sequences
  import opened Mailboxes
  import opened RelayState
  import RelayRuns
  import MailboxRuns

  /** What a run of the relay is to the mailbox of one recipient: purges and restarts
      begin a new one. An acknowledgement happens at the last clock reading. */
  function OwnEvents(events: seq<RelayRuns.RelayEvent>, recipient: string): seq<MailboxRuns.Event> {
    if events == [] then []
    else OwnAfter(OwnEvents(events[..|events| - 1], recipient), events[|events| - 1], recipient)
  }

  function OwnAfter(own: seq<MailboxRuns.Event>, ev: RelayRuns.RelayEvent, recipient: string)
    : seq<MailboxRuns.Event>
  {
    match ev
    case Store(to, entry) =>
      if to == recipient then own + [MailboxRuns.Event(entry.storedAt, MailboxRuns.Store(entry))] else own
    case Ack(to, seqNo) =>
      if to == recipient then own + [MailboxRuns.Event(MailboxRuns.Clock(own), MailboxRuns.Ack(seqNo))] else own
    case Purge(to) => if to == recipient then [] else own
    case CleanUp(now) => own + [MailboxRuns.Event(now, MailboxRuns.Expire)]
    case Reboot => []
  }

  /** The mailbox a run has left a recipient. */
  function MailboxAfter(events: seq<RelayRuns.RelayEvent>, recipient: string): Entries {
    MailboxRuns.BoxAfter(OwnEvents(events, recipient), MAX_MAILBOX_SIZE).entries
  }

  lemma BoxSnoc(own: seq<MailboxRuns.Event>, ev: MailboxRuns.Event)
    ensures MailboxRuns.BoxAfter(own + [ev], MAX_MAILBOX_SIZE)
         == MailboxRuns.Apply(MailboxRuns.BoxAfter(own, MAX_MAILBOX_SIZE), MAX_MAILBOX_SIZE, ev)
  {
    assert (own + [ev])[..|own|] == own;
  }

  /** What one event of the relay does to what memory holds for a recipient. */
  function MemoryStep(mine: Entries, ev: RelayRuns.RelayEvent, recipient: string): Entries {
    match ev
    case Store(to, entry) => if to == recipient then Stored(mine, MAX_MAILBOX_SIZE, entry) else mine
    case Ack(to, seqNo) => if to == recipient then Filter(mine, OtherSeq(seqNo)) else mine
    case Purge(to) => if to == recipient then [] else mine
    case CleanUp(now) => Filter(mine, Live(now))
    case Reboot => []
  }

  lemma RelayMemoryStep(r: Relay, ev: RelayRuns.RelayEvent, recipient: string)
    ensures InMemory(RelayRuns.Apply(r, ev).memory, recipient)
         == MemoryStep(InMemory(r.memory, recipient), ev, recipient)
  {
    hide Stored, OtherSeq, Live, MarkDelivered, OtherRecipient, KeepRow;
  }

  lemma BoxStep(own: seq<MailboxRuns.Event>, ev: RelayRuns.RelayEvent, recipient: string)
    ensures MailboxRuns.BoxAfter(OwnAfter(own, ev, recipient), MAX_MAILBOX_SIZE).entries
         == MemoryStep(MailboxRuns.BoxAfter(own, MAX_MAILBOX_SIZE).entries, ev, recipient)
  {
    match ev
    case Store(to, entry) =>
      BoxSnoc(own, MailboxRuns.Event(entry.storedAt, MailboxRuns.Store(entry)));
      assert entry.(storedAt := entry.storedAt) == entry;
    case Ack(to, seqNo) => BoxSnoc(own, MailboxRuns.Event(MailboxRuns.Clock(own), MailboxRuns.Ack(seqNo)));
    case Purge(_) =>
    case CleanUp(now) => BoxSnoc(own, MailboxRuns.Event(now, MailboxRuns.Expire));
    case Reboot =>
  }

  /** In every run, what memory holds for a recipient is a bounded mailbox of the stores
      and acknowledgements to it since its last purge and the last restart. */
  lemma {:induction false} EveryRunIsMailbox(db: Option<Rows>, events: seq<RelayRuns.RelayEvent>, recipient: string)
    ensures InMemory(RelayRuns.RelayAfter(db, events).memory, recipient) == MailboxAfter(events, recipient)
  {
    if events != [] {
      var before, ev := events[..|events| - 1], events[|events| - 1];
      EveryRunIsMailbox(db, before, recipient);
      hide RelayRuns.Apply, OwnAfter, InMemory, MailboxRuns.BoxAfter, MemoryStep;
      RelayMemoryStep(RelayRuns.RelayAfter(db, before), ev, recipient);
      BoxStep(OwnEvents(before, recipient), ev, recipient);
    }
  }

  /** An entry is handed out from memory for a week from the second it was stored in. The
      subtraction wraps round, so one dated almost 2^64 seconds ahead would be as well. */
  lemma LiveForAWeek(e: MailboxEntry, now: nat)
    ensures Live(now)(e) <==>
              e.storedAt <= now < e.storedAt + 604800 || e.storedAt > now + 0x1_0000_0000_0000_0000 - 604800
  {
  }

  /** Without a database a fetch hands out exactly what of the recipient's mailbox has
      not expired; so it does with one whose query failed, and with one whose answer is
      empty. */
  lemma EveryFallbackIsMailbox(db: Option<Rows>, events: seq<RelayRuns.RelayEvent>, recipient: string, now: nat,
                               answer: Option<Entries>)
    requires db == None || answer == None || answer == Some([])
    ensures Fetched(RelayRuns.RelayAfter(db, events), recipient, now, answer)
         == Filter(MailboxAfter(events, recipient), Live(now))
  {
    EveryRunIsMailbox(db, events, recipient);
    DatabaseStays(db, events);
  }

  lemma {:induction false} DatabaseStays(db: Option<Rows>, events: seq<RelayRuns.RelayEvent>)
    ensures RelayRuns.RelayAfter(db, events).db.Some? <==> db.Some?
  {
    if events != [] {
      DatabaseStays(db, events[..|events| - 1]);
    }
  }
}
