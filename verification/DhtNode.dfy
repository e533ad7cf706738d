/** The put handler of a DHT node, with its in-memory nonce cache in front of the
    persistent log. */
module DhtNode {

  import opened Wrappers
  import S = DhtStore

  const MAX_KEY_SIZE: nat := 256
  const STORE_TTL: int := 86400
  const MAX_TOTAL_KEYS: nat := 1_000_000
  const NONCES_KEPT: nat := 64

  type NonceCache = map<string, set<int>>

  /** What the node decides before it looks at nonces, and after: key format, then
      proof of work, signature and identity checks. */
  datatype Checks = Checks(
    keyFormatOk: bool, powOk: bool, signaturePresent: bool, fingerprintOk: bool, keyMatches: bool, signatureOk: bool)

  datatype PutError =
    | InvalidKey | KeyTooLong | TtlOutOfRange | StoreFull | ValueTooLarge | NonceReplay
    | InsufficientWork | MissingSignature | InvalidFingerprint | KeyMismatch | BadSignature | StaleSequence

  // ---------------------------------------------------------------- //
  //  Specification                                                    //
  // ---------------------------------------------------------------- //

  /** The request as it reaches the store: the time to live is capped. */
  function Capped(p: S.PutRequest): S.PutRequest {
    p.(ttl := if p.ttl < STORE_TTL then p.ttl else STORE_TTL)
  }

  predicate InCache(cache: NonceCache, key: string, nonce: int) {
    key in cache && nonce in cache[key]
  }

  function Remembered(cache: NonceCache, key: string, nonce: int): NonceCache {
    cache[key := (if key in cache then cache[key] else {}) + {nonce}]
  }

  /** The checks before the nonce is looked at. */
  function EarlyError(t: S.Tables, p: S.PutRequest, c: Checks, now: real): Option<PutError> {
    if !c.keyFormatOk then Some(InvalidKey)
    else if |p.key| > MAX_KEY_SIZE then Some(KeyTooLong)
    else if Capped(p).ttl <= 0 then Some(TtlOutOfRange)
    else if p.key !in t.kv && |S.LiveKeys(t, now)| >= MAX_TOTAL_KEYS then Some(StoreFull)
    else if |p.value| > S.MAX_VALUE_SIZE then Some(ValueTooLarge)
    else None
  }

  /** The checks after it. */
  function LateError(c: Checks): Option<PutError> {
    if !c.powOk then Some(InsufficientWork)
    else if !c.signaturePresent then Some(MissingSignature)
    else if !c.fingerprintOk then Some(InvalidFingerprint)
    else if !c.keyMatches then Some(KeyMismatch)
    else if !c.signatureOk then Some(BadSignature)
    else None
  }

  /** The handler without a nonce cache. */
  predicate PlainAccepts(t: S.Tables, p: S.PutRequest, c: Checks, now: real) {
    EarlyError(t, p, c, now) == None && LateError(c) == None && S.Admits(t, Capped(p))
  }

  function PlainPut(t: S.Tables, p: S.PutRequest, c: Checks, now: real): S.Tables {
    if PlainAccepts(t, p, c, now) then S.AfterPut(t, Capped(p), now) else t
  }

  /** The tables of a node and its cache. */
  datatype Node = Node(tables: S.Tables, cache: NonceCache)

  function HandledPut(n: Node, p: S.PutRequest, c: Checks, now: real): Node {
    if !InCache(n.cache, p.key, p.nonce) && PlainAccepts(n.tables, p, c, now)
    then Node(S.AfterPut(n.tables, Capped(p), now), Remembered(n.cache, p.key, p.nonce)) else n
  }

  /** All six checks hold. */
  predicate PassesChecks(c: Checks) {
    c.keyFormatOk && c.powOk && c.signaturePresent && c.fingerprintOk && c.keyMatches && c.signatureOk
  }

  /** Key, value and time to live are in range, and a new key finds room. */
  predicate WithinLimits(t: S.Tables, p: S.PutRequest, now: real) {
    && |p.key| <= 256 && |p.value| <= 4096 && p.ttl > 0
    && (p.key in t.kv || |set k | k in t.kv && now < t.kv[k].expiresAt| < 1_000_000)
  }

  /** The nonce is not cached and not logged, and the sequence number exceeds the row's. */
  predicate IsFresh(n: Node, p: S.PutRequest) {
    && (p.key in n.cache ==> p.nonce !in n.cache[p.key])
    && (p.key, p.nonce) !in n.tables.nonceLog
    && (p.key in n.tables.kv ==> n.tables.kv[p.key].seqNo < p.seqNo)
  }

  predicate TakesEffect(n: Node, p: S.PutRequest, c: Checks, now: real) {
    PassesChecks(c) && WithinLimits(n.tables, p, now) && IsFresh(n, p)
  }

  /** The record of a put, for a day at most. */
  function Published(p: S.PutRequest, now: real): S.KvRecord {
    var ttl: int := if p.ttl < 86400 then p.ttl else 86400;
    S.KvRecord(p.value, p.salt, p.seqNo, p.publisherFp, now, now + ttl as real, p.sig)
  }

  /** A remembered nonce is cached, with exactly what was cached before. */
  lemma RememberedExact(cache: NonceCache, key: string, nonce: int, k: string, n: int)
    ensures InCache(Remembered(cache, key, nonce), k, n) <==> InCache(cache, k, n) || (k == key && n == nonce)
    ensures InCache(cache, k, n) <==> k in cache && n in cache[k]
  {
  }

  /** What a put that takes effect changes, and that no other changes anything. */
  lemma TakesEffectExact(n: Node, p: S.PutRequest, c: Checks, now: real)
    ensures TakesEffect(n, p, c, now) <==> !InCache(n.cache, p.key, p.nonce) && PlainAccepts(n.tables, p, c, now)
    ensures HandledPut(n, p, c, now)
         == if TakesEffect(n, p, c, now)
            then Node(S.Tables(n.tables.kv[p.key := Published(p, now)], n.tables.nonceLog + {(p.key, p.nonce)}),
                      Remembered(n.cache, p.key, p.nonce))
            else n
  {
    assert S.LiveKeys(n.tables, now) == set k | k in n.tables.kv && now < n.tables.kv[k].expiresAt;
  }

  // ---------------------------------------------------------------- //
  //  The node object                                                  //
  // ---------------------------------------------------------------- //

  class DhtNodeRuntime {
    const store: S.DhtStore
    var seenNonces: NonceCache

    constructor (store: S.DhtStore)
      ensures this.store == store && seenNonces == map[]
    {
      this.store := store;
      seenNonces := map[];
    }

    method HandlePut(p: S.PutRequest, c: Checks, now: real) returns (r: Result<(), PutError>)
      modifies this, store
      ensures Node(store.State(), seenNonces) == HandledPut(old(Node(store.State(), seenNonces)), p, c, now)
      ensures r.Ok? <==> TakesEffect(old(Node(store.State(), seenNonces)), p, c, now)
      ensures r.Ok? ==>
                && store.kv == old(store.kv)[p.key := Published(p, now)]
                && store.nonceLog == old(store.nonceLog) + {(p.key, p.nonce)}
      ensures r.Err? ==>
                && store.State() == old(store.State()) && seenNonces == old(seenNonces)
                && r.error == if !c.keyFormatOk then InvalidKey
                              else if |p.key| > 256 then KeyTooLong
                              else if p.ttl <= 0 then TtlOutOfRange
                              else if p.key !in old(store.kv) && |S.LiveKeys(old(store.State()), now)| >= 1_000_000
                              then StoreFull
                              else if |p.value| > 4096 then ValueTooLarge
                              else if InCache(old(seenNonces), p.key, p.nonce) then NonceReplay
                              else if !c.powOk then InsufficientWork
                              else if !c.signaturePresent then MissingSignature
                              else if !c.fingerprintOk then InvalidFingerprint
                              else if !c.keyMatches then KeyMismatch
                              else if !c.signatureOk then BadSignature
                              else StaleSequence
    {
      TakesEffectExact(Node(store.State(), seenNonces), p, c, now);
      hide TakesEffect;
      var ttl := if p.ttl < STORE_TTL then p.ttl else STORE_TTL;
      if !c.keyFormatOk {
        return Err(InvalidKey);
      }
      if |p.key| > MAX_KEY_SIZE {
        return Err(KeyTooLong);
      }
      if ttl <= 0 {
        return Err(TtlOutOfRange);
      }
      var present := store.HasKey(p.key);
      if !present {
        var count := store.CountKeys(now);
        if count >= MAX_TOTAL_KEYS {
          return Err(StoreFull);
        }
      }
      if |p.value| > S.MAX_VALUE_SIZE {
        return Err(ValueTooLarge);
      }
      if p.key in seenNonces && p.nonce in seenNonces[p.key] {
        return Err(NonceReplay);
      }
      if !c.powOk {
        return Err(InsufficientWork);
      }
      if !c.signaturePresent {
        return Err(MissingSignature);
      }
      if !c.fingerprintOk {
        return Err(InvalidFingerprint);
      }
      if !c.keyMatches {
        return Err(KeyMismatch);
      }
      if !c.signatureOk {
        return Err(BadSignature);
      }
      var stored := store.Put(p.(ttl := ttl), now);
      if !stored {
        return Err(StaleSequence);
      }
      var known := if p.key in seenNonces then seenNonces[p.key] else {};
      seenNonces := seenNonces[p.key := known + {p.nonce}];
      return Ok(());
    }

    /** The periodic trim: sets that outgrew 64 nonces keep the largest 64. */
    method TrimNonces()
      modifies this
      ensures forall k :: k in seenNonces <==> k in old(seenNonces) && old(seenNonces)[k] != {}
      ensures forall k :: k in seenNonces ==> Trimmed(old(seenNonces)[k], seenNonces[k])
    {
      ghost var was := seenNonces;
      var todo := seenNonces.Keys;
      while todo != {}
        invariant todo <= was.Keys == seenNonces.Keys
        invariant forall k :: k in todo ==> seenNonces[k] == was[k]
        invariant forall k :: k in was && k !in todo ==> Trimmed(was[k], seenNonces[k])
        decreases |todo|
      {
        var k :| k in todo;
        if |seenNonces[k]| > NONCES_KEPT {
          var kept := KeepLargest(seenNonces[k], NONCES_KEPT);
          seenNonces := seenNonces[k := kept];
        }
        todo := todo - {k};
      }
      seenNonces := map k | k in seenNonces && seenNonces[k] != {} :: seenNonces[k];
    }
  }

  /** A set left alone if small, cut down to its largest elements if not. */
  ghost predicate Trimmed(before: set<int>, after: set<int>) {
    if |before| <= NONCES_KEPT then after == before
    else |after| == NONCES_KEPT && after <= before
         && forall m, n :: m in before - after && n in after ==> m < n
  }

  /** Sorting and keeping the tail, one maximum at a time. */
  method KeepLargest(s: set<int>, k: nat) returns (kept: set<int>)
    requires k <= |s|
    ensures kept <= s && |kept| == k
    ensures forall m, n :: m in s - kept && n in kept ==> m < n
  {
    kept := {};
    while |kept| < k
      invariant kept <= s && |kept| <= k
      invariant forall m, n :: m in s - kept && n in kept ==> m < n
      decreases k - |kept|
    {
      SmallerSubset(kept, s);
      var rest := s - kept;
      var max := Maximum(rest);
      forall m | m in s - (kept + {max}) ensures m < max {
        assert m in rest;
      }
      kept := kept + {max};
    }
  }

  method Maximum(s: set<int>) returns (max: int)
    requires s != {}
    ensures max in s && forall n :: n in s ==> n <= max
  {
    SomeElement(s);
    max :| max in s;
    var todo := s;
    while todo != {}
      invariant max in s && todo <= s
      invariant forall n :: n in s && n !in todo ==> n <= max
      decreases |todo|
    {
      SomeElement(todo);
      var n :| n in todo;
      if n > max {
        max := n;
      }
      todo := todo - {n};
    }
  }

  lemma SomeElement(s: set<int>)
    requires s != {}
    ensures exists n: int :: n in s
  {
    if forall n: int :: n !in s {
      assert false;
    }
  }

  lemma SmallerSubset(a: set<int>, b: set<int>)
    requires a <= b && |a| < |b|
    ensures b - a != {}
  {
    assert b == a + (b - a);
  }

  // ---------------------------------------------------------------- //
  //  Runs                                                             //
  // ---------------------------------------------------------------- //

  datatype NodeEvent =
    | PutArrives(p: S.PutRequest, c: Checks, now: real)
    | AddressArrives(p: S.PutRequest, now: real)  // a checked address record, stored past the cache
    | Trim(after: NonceCache)                     // the cache after the periodic trim
    | Sweep(now: real)
    | Restart

  function Apply(n: Node, ev: NodeEvent): Node {
    match ev
    case PutArrives(p, c, now) => HandledPut(n, p, c, now)
    case AddressArrives(p, now) => n.(tables := S.AfterPut(n.tables, p, now))
    case Trim(after) => n.(cache := after)
    case Sweep(now) => n.(tables := S.Swept(n.tables, now))
    case Restart => n.(cache := map[])
  }

  function NodeAfter(events: seq<NodeEvent>): Node {
    if events == [] then Node(S.EMPTY, map[]) else Apply(NodeAfter(events[..|events| - 1]), events[|events| - 1])
  }

  /** The same node without a cache. */
  function PlainAfter(events: seq<NodeEvent>): S.Tables {
    if events == [] then S.EMPTY
    else
      var t := PlainAfter(events[..|events| - 1]);
      match events[|events| - 1]
      case PutArrives(p, c, now) => PlainPut(t, p, c, now)
      case AddressArrives(p, now) => S.AfterPut(t, p, now)
      case Trim(_) => t
      case Sweep(now) => S.Swept(t, now)
      case Restart => t
  }

  /** Trims only ever forget; how many they keep does not matter here. */
  ghost predicate ProperRun(events: seq<NodeEvent>) {
    events != [] ==>
      var before, ev := events[..|events| - 1], events[|events| - 1];
      && ProperRun(before)
      && (ev.Trim? ==> IsTrim(NodeAfter(before).cache, ev.after))
  }

  ghost predicate IsTrim(before: NonceCache, after: NonceCache) {
    && (forall k :: k in after <==> k in before && before[k] != {})
    && (forall k :: k in after ==> Trimmed(before[k], after[k]))
  }

  /** Every cached nonce is in the persistent log. */
  ghost predicate CacheInLog(n: Node) {
    forall key, nonce :: InCache(n.cache, key, nonce) ==> (key, nonce) in n.tables.nonceLog
  }

  lemma TrimForgets(before: NonceCache, after: NonceCache, key: string, nonce: int)
    requires IsTrim(before, after) && InCache(after, key, nonce)
    ensures InCache(before, key, nonce)
  {
    assert Trimmed(before[key], after[key]);
  }

  lemma StepKeepsCacheInLog(n: Node, ev: NodeEvent)
    requires CacheInLog(n) && (ev.Trim? ==> IsTrim(n.cache, ev.after))
    ensures CacheInLog(Apply(n, ev))
  {
    forall key, nonce | InCache(Apply(n, ev).cache, key, nonce)
      ensures (key, nonce) in Apply(n, ev).tables.nonceLog
    {
      match ev
      case PutArrives(p, c, now) =>
        assert InCache(n.cache, key, nonce) || (key == p.key && nonce == p.nonce);
      case AddressArrives(p, now) => assert InCache(n.cache, key, nonce);
      case Trim(after) => TrimForgets(n.cache, after, key, nonce);
      case Sweep(now) => assert InCache(n.cache, key, nonce);
      case Restart =>
    }
  }

  /** In every run, across accepted puts, address records, trims, sweeps and
      restarts, the cache stays within the log, and the early refusal of a cached
      nonce never changes which puts take effect. */
  lemma {:induction false} EveryRunIgnoresCache(events: seq<NodeEvent>)
    requires ProperRun(events)
    ensures CacheInLog(NodeAfter(events))
    ensures NodeAfter(events).tables == PlainAfter(events)
  {
    if events != [] {
      var before, ev := events[..|events| - 1], events[|events| - 1];
      EveryRunIgnoresCache(before);
      StepKeepsCacheInLog(NodeAfter(before), ev);
      if ev.PutArrives? && InCache(NodeAfter(before).cache, ev.p.key, ev.p.nonce) {
        assert !S.Admits(NodeAfter(before).tables, Capped(ev.p));
      }
    }
  }

  // ---------------------------------------------------------------- //
  //  What takes effect                                                //
  // ---------------------------------------------------------------- //

  /** In every run, a put takes effect if and only if its six checks hold, it is within
      the limits, its nonce is not in the persistent log, and its sequence number exceeds
      that of the row; the cache makes no difference. */
  lemma EveryPutIsChecked(events: seq<NodeEvent>, p: S.PutRequest, c: Checks, now: real)
    requires ProperRun(events)
    ensures var t := NodeAfter(events).tables;
            NodeAfter(events + [PutArrives(p, c, now)]).tables
            == if && PassesChecks(c) && WithinLimits(t, p, now)
                  && (p.key, p.nonce) !in t.nonceLog
                  && (p.key in t.kv ==> t.kv[p.key].seqNo < p.seqNo)
               then S.Tables(t.kv[p.key := Published(p, now)], t.nonceLog + {(p.key, p.nonce)})
               else t
  {
    EveryRunIgnoresCache(events);
    assert (events + [PutArrives(p, c, now)])[..|events|] == events;
    TakesEffectExact(NodeAfter(events), p, c, now);
  }

  /** A row comes from an address record, or from a put of a run whose six checks held. */
  predicate ComesFrom(events: seq<NodeEvent>, key: string, record: S.KvRecord) {
    exists i :: 0 <= i < |events| &&
      match events[i]
      case PutArrives(p, c, now) => p.key == key && PassesChecks(c) && record == Published(p, now)
      case AddressArrives(p, now) => p.key == key && record == S.RecordOf(p, now)
      case _ => false
  }

  /** In every run, every row in the tables is what an address record or a put that
      passed all six checks has published. */
  lemma {:induction false} EveryRowIsChecked(events: seq<NodeEvent>, key: string)
    requires key in NodeAfter(events).tables.kv
    ensures ComesFrom(events, key, NodeAfter(events).tables.kv[key])
  {
    var before, ev := events[..|events| - 1], events[|events| - 1];
    var n := NodeAfter(before);
    var record := NodeAfter(events).tables.kv[key];
    if key in n.tables.kv && n.tables.kv[key] == record {
      EveryRowIsChecked(before, key);
      ComesFromEarlier(before, ev, key, record);
      assert before + [ev] == events;
    } else {
      assert events[|events| - 1] == ev;
    }
  }

  lemma ComesFromEarlier(before: seq<NodeEvent>, ev: NodeEvent, key: string, record: S.KvRecord)
    requires ComesFrom(before, key, record)
    ensures ComesFrom(before + [ev], key, record)
  {
    var i :| 0 <= i < |before| &&
      match before[i]
      case PutArrives(p, c, now) => p.key == key && PassesChecks(c) && record == Published(p, now)
      case AddressArrives(p, now) => p.key == key && record == S.RecordOf(p, now)
      case _ => false;
    assert (before + [ev])[i] == before[i];
  }
}
