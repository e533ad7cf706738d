/** The DHT's two tables, records and the nonce log, against the history of
    accepted puts. Each put is taken as one atomic step. */
module DhtStore {

  import opened Wrappers

  const MAX_VALUE_SIZE: nat := 4096

  datatype KvRecord = KvRecord(
    value: string, salt: string, seqNo: int, publisherFp: string, storedAt: real, expiresAt: real, sig: string)

  datatype PutRequest = PutRequest(
    key: string, value: string, salt: string, seqNo: int, publisherFp: string, ttl: int, sig: string, nonce: int)

  datatype Tables = Tables(kv: map<string, KvRecord>, nonceLog: set<(string, int)>)

  const EMPTY: Tables := Tables(map[], {})

  // ---------------------------------------------------------------- //
  //  Specification                                                    //
  // ---------------------------------------------------------------- //

  function RecordOf(p: PutRequest, now: real): KvRecord {
    KvRecord(p.value, p.salt, p.seqNo, p.publisherFp, now, now + p.ttl as real, p.sig)
  }

  predicate Admits(t: Tables, p: PutRequest) {
    && |p.value| <= MAX_VALUE_SIZE
    && (p.key, p.nonce) !in t.nonceLog
    && (p.key in t.kv ==> p.seqNo > t.kv[p.key].seqNo)
  }

  function AfterPut(t: Tables, p: PutRequest, now: real): Tables {
    if Admits(t, p) then Tables(t.kv[p.key := RecordOf(p, now)], t.nonceLog + {(p.key, p.nonce)}) else t
  }

  function Lookup(t: Tables, key: string, now: real): Option<KvRecord> {
    if key in t.kv && t.kv[key].expiresAt > now then Some(t.kv[key]) else None
  }

  function Swept(t: Tables, now: real): Tables {
    t.(kv := map k | k in t.kv && !(t.kv[k].expiresAt <= now) :: t.kv[k])
  }

  function Noted(t: Tables, key: string, nonce: int): Tables {
    t.(nonceLog := t.nonceLog + {(key, nonce)})
  }

  /** Keys with an unexpired record. */
  function LiveKeys(t: Tables, now: real): set<string> {
    set k | k in t.kv && t.kv[k].expiresAt > now
  }

  // ---------------------------------------------------------------- //
  //  The store object                                                 //
  // ---------------------------------------------------------------- //

  class DhtStore {
    var kv: map<string, KvRecord>
    var nonceLog: set<(string, int)>

    function State(): Tables
      reads this
    {
      Tables(kv, nonceLog)
    }

    constructor ()
      ensures State() == EMPTY
    {
      kv, nonceLog := map[], {};
    }

    method Put(p: PutRequest, now: real) returns (stored: bool)
      modifies this
      ensures stored == Admits(old(State()), p)
      ensures State() == AfterPut(old(State()), p, now)
      ensures stored <==>
                && |p.value| <= 4096
                && (p.key, p.nonce) !in old(nonceLog)
                && (p.key in old(kv) ==> old(kv)[p.key].seqNo < p.seqNo)
      ensures if stored then
                && kv == old(kv)[p.key := KvRecord(p.value, p.salt, p.seqNo, p.publisherFp,
                                                   now, now + p.ttl as real, p.sig)]
                && nonceLog == old(nonceLog) + {(p.key, p.nonce)}
              else
                kv == old(kv) && nonceLog == old(nonceLog)
    {
      if |p.value| > MAX_VALUE_SIZE {
        return false;
      }
      var seen := IsNonceSeen(p.key, p.nonce);
      if seen {
        return false;
      }
      var expires := now + p.ttl as real;
      if p.key in kv {
        if kv[p.key].seqNo >= p.seqNo {
          return false;
        }
      }
      nonceLog := nonceLog + {(p.key, p.nonce)};
      kv := kv[p.key := KvRecord(p.value, p.salt, p.seqNo, p.publisherFp, now, expires, p.sig)];
      return true;
    }

    method Get(key: string, now: real) returns (r: Option<KvRecord>)
      ensures r == Lookup(State(), key, now)
      ensures r == if key in kv && now < kv[key].expiresAt then Some(kv[key]) else None
    {
      if key in kv && kv[key].expiresAt > now {
        return Some(kv[key]);
      }
      return None;
    }

    method DeleteExpired(now: real) returns (deleted: nat)
      modifies this
      ensures State() == Swept(old(State()), now)
      ensures kv == map k | k in old(kv) && now < old(kv)[k].expiresAt :: old(kv)[k]
      ensures nonceLog == old(nonceLog)
      ensures deleted == |old(kv).Keys - kv.Keys|
    {
      ghost var before := kv;
      var dead := set k | k in kv && kv[k].expiresAt <= now;
      kv := map k | k in kv && !(kv[k].expiresAt <= now) :: kv[k];
      deleted := |dead|;
      assert dead == before.Keys - kv.Keys;
    }

    method IsNonceSeen(key: string, nonce: int) returns (seen: bool)
      ensures seen <==> (key, nonce) in nonceLog
    {
      seen := (key, nonce) in nonceLog;
    }

    method RecordNonce(key: string, nonce: int)
      modifies this
      ensures State() == Noted(old(State()), key, nonce)
    {
      nonceLog := nonceLog + {(key, nonce)};
    }

    method HasKey(key: string) returns (r: bool)
      ensures r <==> key in kv
    {
      r := key in kv;
    }

    method CountKeys(now: real) returns (n: nat)
      ensures n == |LiveKeys(State(), now)|
    {
      n := |set k | k in kv && kv[k].expiresAt > now|;
    }
  }

  // ---------------------------------------------------------------- //
  //  Runs                                                             //
  // ---------------------------------------------------------------- //

  datatype StoreEvent =
    | Submit(p: PutRequest, now: real)
    | Sweep(now: real)
    | Note(key: string, nonce: int, now: real)

  function Apply(t: Tables, ev: StoreEvent): Tables {
    match ev
    case Submit(p, now) => AfterPut(t, p, now)
    case Sweep(now) => Swept(t, now)
    case Note(key, nonce, _) => Noted(t, key, nonce)
  }

  function TablesAfter(events: seq<StoreEvent>): Tables {
    if events == [] then EMPTY else Apply(TablesAfter(events[..|events| - 1]), events[|events| - 1])
  }

  /** An accepted put of a key: the request, when it was accepted, and how often
      the key's row had been deleted before. */
  datatype Accepted = Accepted(p: PutRequest, at: real, generation: nat)

  type History = seq<Accepted>

  /** The specification, which knows no tables: what one key has seen, namely its
      accepted puts, the nonces noted for it and the deletions of its row. */
  datatype Record = Record(accepted: History, noted: set<int>, generation: nat)

  const UNSEEN: Record := Record([], {}, 0)

  /** The row is there unless it has been deleted since the last accepted put. */
  predicate HasRow(r: Record) {
    r.accepted != [] && Last(r.accepted).generation == r.generation
  }

  /** A put is acceptable if its value fits, its nonce was neither accepted nor noted,
      and its sequence number exceeds that of the row. */
  predicate Acceptable(r: Record, p: PutRequest) {
    && |p.value| <= 4096
    && p.nonce !in r.noted
    && (forall i :: 0 <= i < |r.accepted| ==> r.accepted[i].p.nonce != p.nonce)
    && (HasRow(r) ==> Last(r.accepted).p.seqNo < p.seqNo)
  }

  /** A sweep deletes the row once its time to live is over. */
  predicate Overdue(r: Record, now: real) {
    HasRow(r) && Last(r.accepted).at + Last(r.accepted).p.ttl as real <= now
  }

  function Observed(r: Record, ev: StoreEvent, key: string): Record {
    match ev
    case Submit(p, now) =>
      if p.key == key && Acceptable(r, p)
      then r.(accepted := r.accepted + [Accepted(p, now, r.generation)]) else r
    case Sweep(now) => if Overdue(r, now) then r.(generation := r.generation + 1) else r
    case Note(noted, nonce, _) => if noted == key then r.(noted := r.noted + {nonce}) else r
  }

  function RecordAfter(events: seq<StoreEvent>, key: string): Record {
    if events == [] then UNSEEN
    else Observed(RecordAfter(events[..|events| - 1], key), events[|events| - 1], key)
  }

  predicate ClockRuns(events: seq<StoreEvent>) {
    forall i, j :: 0 <= i < j < |events| ==> events[i].now <= events[j].now
  }

  function Last(h: History): Accepted
    requires h != []
  {
    h[|h| - 1]
  }

  /** The log holds the accepted and the noted nonces, and no two accepted puts share
      one. */
  predicate NoncesUnique(t: Tables, key: string, r: Record) {
    var h := r.accepted;
    && (forall i :: 0 <= i < |h| ==> (key, h[i].p.nonce) in t.nonceLog)
    && (forall n :: n in r.noted ==> (key, n) in t.nonceLog)
    && (forall e :: e in t.nonceLog && e.0 == key ==> e.1 in r.noted || IsAccepted(h, e.1))
    && (forall i, j :: 0 <= i < j < |h| ==> h[i].p.nonce != h[j].p.nonce)
  }

  predicate IsAccepted(h: History, nonce: int) {
    exists i :: 0 <= i < |h| && h[i].p.nonce == nonce
  }

  /** Between two deletions of the row, accepted sequence numbers strictly increase. */
  predicate SeqsIncrease(h: History) {
    && (forall i, j :: 0 <= i < j < |h| && h[i].generation == h[j].generation ==> h[i].p.seqNo < h[j].p.seqNo)
    && (forall i, j :: 0 <= i < j < |h| ==> h[i].generation <= h[j].generation)
  }

  /** The row is the latest accepted put; without a row, that put has expired. */
  predicate RowIsLatest(t: Tables, key: string, r: Record, now: real) {
    var h := r.accepted;
    if key in t.kv then
      HasRow(r) && t.kv[key] == RecordOf(Last(h).p, Last(h).at)
    else
      h != [] ==> Last(h).generation < r.generation && RecordOf(Last(h).p, Last(h).at).expiresAt <= now
  }

  predicate Refines(t: Tables, key: string, r: Record, now: real) {
    NoncesUnique(t, key, r) && SeqsIncrease(r.accepted) && RowIsLatest(t, key, r, now)
  }

  /** The tables and the specification take the same puts. */
  lemma AdmitsIsAcceptable(t: Tables, r: Record, p: PutRequest, now: real)
    requires Refines(t, p.key, r, now)
    ensures Admits(t, p) <==> Acceptable(r, p)
  {
    if (p.key, p.nonce) in t.nonceLog && p.nonce !in r.noted {
      assert IsAccepted(r.accepted, p.nonce);
    }
  }

  lemma SnocKeepsNonces(t: Tables, key: string, r: Record, p: PutRequest, now: real)
    requires NoncesUnique(t, key, r) && p.key == key && Admits(t, p)
    ensures NoncesUnique(AfterPut(t, p, now), key, r.(accepted := r.accepted + [Accepted(p, now, r.generation)]))
  {
    var longer := r.accepted + [Accepted(p, now, r.generation)];
    assert longer[|r.accepted|].p.nonce == p.nonce;
    forall e | e in AfterPut(t, p, now).nonceLog && e.0 == key && e.1 !in r.noted ensures IsAccepted(longer, e.1) {
      if e.1 != p.nonce {
        var i :| 0 <= i < |r.accepted| && r.accepted[i].p.nonce == e.1;
        assert longer[i].p.nonce == e.1;
      }
    }
  }

  lemma SubmitRefines(t: Tables, key: string, r: Record, p: PutRequest, now: real)
    requires Refines(t, key, r, now)
    ensures Refines(AfterPut(t, p, now), key, Observed(r, Submit(p, now), key), now)
  {
    if p.key == key {
      AdmitsIsAcceptable(t, r, p, now);
    }
    if p.key == key && Admits(t, p) {
      var h := r.accepted;
      var longer := h + [Accepted(p, now, r.generation)];
      SnocKeepsNonces(t, key, r, p, now);
      forall i | 0 <= i < |h|
        ensures h[i].generation <= r.generation
        ensures h[i].generation == r.generation ==> h[i].p.seqNo < p.seqNo
      {
        if i < |h| - 1 {
          assert h[i].generation <= h[|h| - 1].generation;
        }
      }
      assert SeqsIncrease(longer);
    }
  }

  lemma SweepRefines(t: Tables, key: string, r: Record, now: real)
    requires Refines(t, key, r, now)
    ensures Refines(Swept(t, now), key, Observed(r, Sweep(now), key), now)
  {
  }

  lemma NoteRefines(t: Tables, key: string, r: Record, noted: string, nonce: int, now: real)
    requires Refines(t, key, r, now)
    ensures Refines(Noted(t, noted, nonce), key, Observed(r, Note(noted, nonce, now), key), now)
  {
  }

  lemma StepRefines(t: Tables, key: string, r: Record, ev: StoreEvent)
    requires Refines(t, key, r, ev.now)
    ensures Refines(Apply(t, ev), key, Observed(r, ev, key), ev.now)
  {
    hide Refines;
    match ev
    case Submit(p, now) => SubmitRefines(t, key, r, p, now);
    case Sweep(now) => SweepRefines(t, key, r, now);
    case Note(noted, nonce, now) => NoteRefines(t, key, r, noted, nonce, now);
  }

  lemma LaterRefines(t: Tables, key: string, r: Record, was: real, now: real)
    requires Refines(t, key, r, was) && was <= now
    ensures Refines(t, key, r, now)
  {
  }

  /** Over every run with a non-decreasing clock, the tables are what the specification
      says: for every key, the log has the accepted and the noted nonces, none of them
      accepted twice, accepted sequence numbers increase between deletions, and the row
      is the latest put. */
  lemma {:induction false} EveryRunRefinesHistory(events: seq<StoreEvent>, key: string, next: real)
    requires ClockRuns(events)
    requires events != [] ==> events[|events| - 1].now <= next
    ensures Refines(TablesAfter(events), key, RecordAfter(events, key), next)
  {
    if events != [] {
      var before, ev := events[..|events| - 1], events[|events| - 1];
      EveryRunRefinesHistory(before, key, ev.now);
      var t, r := TablesAfter(before), RecordAfter(before, key);
      StepRefines(t, key, r, ev);
      hide Refines, Apply, Observed;
      LaterRefines(Apply(t, ev), key, Observed(r, ev, key), ev.now, next);
    }
  }

  function LatestUnexpired(h: History, now: real): Option<KvRecord> {
    if h == [] then None
    else
      var p, at := Last(h).p, Last(h).at;
      if now < at + p.ttl as real
      then Some(KvRecord(p.value, p.salt, p.seqNo, p.publisherFp, at, at + p.ttl as real, p.sig)) else None
  }

  /** A put that is taken is what a get answers until its time to live is over. */
  lemma TakenIsAnswered(t: Tables, p: PutRequest, now: real, later: real)
    ensures if Admits(t, p) then
              Lookup(AfterPut(t, p, now), p.key, later)
              == if later < now + p.ttl as real
                 then Some(KvRecord(p.value, p.salt, p.seqNo, p.publisherFp, now, now + p.ttl as real, p.sig))
                 else None
            else
              AfterPut(t, p, now) == t
  {
  }

  /** In every run, a put is accepted if and only if its value has at most 4096
      characters, its nonce was neither accepted nor noted for the key, and the key has
      no row or the sequence number exceeds that of its latest accepted put. A get then
      answers with the record until its time to live is over. */
  lemma EveryPutIsExact(events: seq<StoreEvent>, p: PutRequest, now: real, later: real)
    requires ClockRuns(events)
    requires events != [] ==> events[|events| - 1].now <= now
    ensures var t := TablesAfter(events);
            if Acceptable(RecordAfter(events, p.key), p) then
              && Admits(t, p)
              && Lookup(AfterPut(t, p, now), p.key, later)
              == if later < now + p.ttl as real
                 then Some(KvRecord(p.value, p.salt, p.seqNo, p.publisherFp, now, now + p.ttl as real, p.sig))
                 else None
            else
              !Admits(t, p) && AfterPut(t, p, now) == t
  {
    EveryRunRefinesHistory(events, p.key, now);
    AdmitsIsAcceptable(TablesAfter(events), RecordAfter(events, p.key), p, now);
    hide Admits, Acceptable, AfterPut, Lookup, TablesAfter, RecordAfter, Refines;
    TakenIsAnswered(TablesAfter(events), p, now, later);
  }

  /** A get answers with the latest accepted put of the key exactly while that has
      not expired, whatever was swept in between. */
  lemma {:induction false} EveryGetIsLatest(events: seq<StoreEvent>, key: string, now: real)
    requires ClockRuns(events)
    requires events != [] ==> events[|events| - 1].now <= now
    ensures Lookup(TablesAfter(events), key, now) == LatestUnexpired(RecordAfter(events, key).accepted, now)
  {
    EveryRunRefinesHistory(events, key, now);
  }

  /** A sweep is invisible to every present or later get. */
  lemma SweepIsInvisible(t: Tables, now: real, key: string, later: real)
    requires now <= later
    ensures Lookup(Swept(t, now), key, later) == Lookup(t, key, later)
  {
  }

  /** A put that was accepted once is refused in every continuation of the run. */
  lemma {:induction false} AcceptedNonceIsSpent(events: seq<StoreEvent>, more: seq<StoreEvent>, key: string, i: nat)
    requires ClockRuns(events) && i < |RecordAfter(events, key).accepted|
    ensures (key, RecordAfter(events, key).accepted[i].p.nonce) in TablesAfter(events + more).nonceLog
    decreases |more|
  {
    if more == [] {
      assert events + more == events;
      EveryRunRefinesHistory(events, key, if events == [] then 0.0 else events[|events| - 1].now);
    } else {
      var all := events + more;
      assert all[..|all| - 1] == events + more[..|more| - 1];
      AcceptedNonceIsSpent(events, more[..|more| - 1], key, i);
    }
  }

  /** No put of the key is accepted in a run that continues from the tables. */
  predicate NonePut(t: Tables, key: string, more: seq<StoreEvent>) {
    more != [] ==>
      && NonePut(t, key, more[..|more| - 1])
      && var ev := more[|more| - 1];
         ev.Submit? && ev.p.key == key ==> !Admits(Continued(t, more[..|more| - 1]), ev.p)
  }

  function Continued(t: Tables, more: seq<StoreEvent>): Tables {
    if more == [] then t else Apply(Continued(t, more[..|more| - 1]), more[|more| - 1])
  }

  /** A sweep of the run comes after the record has expired. */
  predicate SweptOut(record: KvRecord, more: seq<StoreEvent>) {
    exists i :: 0 <= i < |more| && more[i].Sweep? && record.expiresAt <= more[i].now
  }

  lemma SweptOutSnoc(record: KvRecord, more: seq<StoreEvent>, ev: StoreEvent)
    ensures SweptOut(record, more + [ev])
       <==> SweptOut(record, more) || (ev.Sweep? && record.expiresAt <= ev.now)
  {
    var all := more + [ev];
    assert all[|more|] == ev;
    assert forall i :: 0 <= i < |more| ==> all[i] == more[i];
  }

  lemma {:induction false} RowUntilSweptOut(t: Tables, key: string, more: seq<StoreEvent>)
    requires key in t.kv && NonePut(t, key, more)
    ensures var after := Continued(t, more).kv;
            if SweptOut(t.kv[key], more) then key !in after else key in after && after[key] == t.kv[key]
  {
    if more != [] {
      var before, ev := more[..|more| - 1], more[|more| - 1];
      RowUntilSweptOut(t, key, before);
      SweptOutSnoc(t.kv[key], before, ev);
      assert before + [ev] == more;
    }
  }

  /** Sequence numbers do not protect across a deletion. After an accepted put, in any
      run with no further accepted put of the key, a put with a sequence number no
      higher and a new nonce is accepted if and only if a sweep has come after the row
      expired. */
  lemma SweepForgetsSequence(events: seq<StoreEvent>, p: PutRequest, now: real, more: seq<StoreEvent>, q: PutRequest)
    requires Admits(TablesAfter(events), p)
    requires NonePut(AfterPut(TablesAfter(events), p, now), p.key, more)
    requires q.key == p.key && q.seqNo <= p.seqNo && |q.value| <= MAX_VALUE_SIZE
    requires (q.key, q.nonce) !in Continued(AfterPut(TablesAfter(events), p, now), more).nonceLog
    ensures Admits(Continued(AfterPut(TablesAfter(events), p, now), more), q)
       <==> SweptOut(RecordOf(p, now), more)
  {
    RowUntilSweptOut(AfterPut(TablesAfter(events), p, now), p.key, more);
  }
}
