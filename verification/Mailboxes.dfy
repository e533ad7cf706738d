/** The bounded in-memory mailbox of one recipient: at most ten entries a sender,
    a global size limit, and a time to live. */
module Mailboxes {

  import opened Sequences

  const MAX_ENTRIES_PER_SENDER: nat := 10
  const MAILBOX_TTL_SECONDS: nat := 86400 * 7

  datatype MailboxEntry = MailboxEntry(
    signedBlob: string, senderNid: string, senderFp: string, seqNo: int, storedAt: nat)

  type Entries = seq<MailboxEntry>

  // ---------------------------------------------------------------- //
  //  Specification                                                    //
  // ---------------------------------------------------------------- //

  function FromSender(fp: string): MailboxEntry -> bool {
    (e: MailboxEntry) => e.senderFp == fp
  }

  function FromSenders(fps: set<string>): MailboxEntry -> bool {
    (e: MailboxEntry) => e.senderFp in fps
  }

  function OutsideSenders(fps: set<string>): MailboxEntry -> bool {
    (e: MailboxEntry) => e.senderFp !in fps
  }

  function OtherSeq(seqNo: int): MailboxEntry -> bool {
    (e: MailboxEntry) => e.seqNo != seqNo
  }

  /** u64 subtraction: an entry from the future wraps round to a huge age. */
  function Age(now: nat, storedAt: nat): int {
    if storedAt <= now then now - storedAt else now - storedAt + 0x1_0000_0000_0000_0000
  }

  function Live(now: nat): MailboxEntry -> bool {
    (e: MailboxEntry) => Age(now, e.storedAt) < MAILBOX_TTL_SECONDS
  }

  /** Vec::remove at the first entry of a sender. */
  function RemoveFirstFrom(entries: Entries, fp: string): Entries {
    if entries == [] then []
    else if entries[0].senderFp == fp then entries[1..]
    else [entries[0]] + RemoveFirstFrom(entries[1..], fp)
  }

  function Evicted(entries: Entries, maxSize: nat, fp: string): Entries {
    if |Filter(entries, FromSender(fp))| >= MAX_ENTRIES_PER_SENDER then RemoveFirstFrom(entries, fp)
    else if |entries| >= maxSize && entries != [] then entries[1..]
    else entries
  }

  function Stored(entries: Entries, maxSize: nat, e: MailboxEntry): Entries {
    Evicted(entries, maxSize, e.senderFp) + [e]
  }

  // ---------------------------------------------------------------- //
  //  The mailbox object                                               //
  // ---------------------------------------------------------------- //

  class Mailbox {
    var entries: Entries
    const maxSize: nat

    constructor (maxSize: nat)
      ensures entries == [] && this.maxSize == maxSize
    {
      entries := [];
      this.maxSize := maxSize;
    }

    /** A limit of zero would make the source remove from an empty vector. */
    method Store(entry: MailboxEntry)
      requires maxSize >= 1
      modifies this
      ensures entries == Stored(old(entries), maxSize, entry)
    {
      var senderCount := |Filter(entries, FromSender(entry.senderFp))|;
      if senderCount >= MAX_ENTRIES_PER_SENDER {
        var position := 0;
        while position < |entries| && entries[position].senderFp != entry.senderFp
          invariant entries == old(entries)
          invariant 0 <= position <= |entries|
          invariant forall k :: 0 <= k < position ==> entries[k].senderFp != entry.senderFp
        {
          position := position + 1;
        }
        if position < |entries| {
          RemoveFirstAt(entries, entry.senderFp, position);
          entries := entries[..position] + entries[position + 1..];
        } else {
          RemoveFirstAbsent(entries, entry.senderFp);
        }
      } else if |entries| >= maxSize {
        entries := entries[1..];
      }
      entries := entries + [entry];
    }

    method Fetch(now: nat) returns (r: Entries)
      ensures r == Filter(entries, Live(now))
    {
      r := Filter(entries, Live(now));
    }

    method Ack(seqNo: int)
      modifies this
      ensures entries == Filter(old(entries), OtherSeq(seqNo))
    {
      entries := Filter(entries, OtherSeq(seqNo));
    }

    /** The part of the periodic clean-up that concerns this mailbox. */
    method Expire(now: nat)
      modifies this
      ensures entries == Filter(old(entries), Live(now))
    {
      entries := Filter(entries, Live(now));
    }
  }

  lemma {:induction false} RemoveFirstAt(entries: Entries, fp: string, position: nat)
    requires position < |entries| && entries[position].senderFp == fp
    requires forall k :: 0 <= k < position ==> entries[k].senderFp != fp
    ensures RemoveFirstFrom(entries, fp) == entries[..position] + entries[position + 1..]
  {
    if position > 0 {
      RemoveFirstAt(entries[1..], fp, position - 1);
      assert entries[1..][..position - 1] == entries[1..position];
      assert entries[1..][position..] == entries[position + 1..];
      assert [entries[0]] + entries[1..position] == entries[..position];
    }
  }

  lemma {:induction false} RemoveFirstAbsent(entries: Entries, fp: string)
    requires forall k :: 0 <= k < |entries| ==> entries[k].senderFp != fp
    ensures RemoveFirstFrom(entries, fp) == entries
  {
    if entries != [] {
      RemoveFirstAbsent(entries[1..], fp);
    }
  }
}
