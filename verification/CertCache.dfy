/** The bounded certificate cache with least-recently-used eviction, against a
    recency list. */
module CertCache {

  import opened Wrappers

  const MAX_ENTRIES: nat := 1000

  /** An armored certificate and the instant of its last access. */
  datatype Cached = Cached(armored: string, at: int)

  type Cache = map<string, Cached>

  // ---------------------------------------------------------------- //
  //  Specification                                                    //
  // ---------------------------------------------------------------- //

  /** A key with the least access time. */
  predicate IsOldest(cache: Cache, key: string) {
    key in cache && forall k :: k in cache ==> cache[key].at <= cache[k].at
  }

  /** The cache after an insertion; victim is the key given up if it is too big. */
  function Inserted(cache: Cache, key: string, armored: string, now: int, victim: string): Cache {
    var bigger := cache[key := Cached(armored, now)];
    if |bigger| > MAX_ENTRIES then bigger - {victim} else bigger
  }

  predicate IsVictim(cache: Cache, key: string, armored: string, now: int, victim: string) {
    |cache[key := Cached(armored, now)]| > MAX_ENTRIES ==> IsOldest(cache[key := Cached(armored, now)], victim)
  }

  function Touched(cache: Cache, key: string, now: int): (Option<string>, Cache) {
    if key in cache then (Some(cache[key].armored), cache[key := Cached(cache[key].armored, now)])
    else (None, cache)
  }

  // ---------------------------------------------------------------- //
  //  The cache object                                                 //
  // ---------------------------------------------------------------- //

  class CertStore {
    var cache: Cache
    const toUpper: string -> string

    constructor (toUpper: string -> string)
      ensures cache == map[] && this.toUpper == toUpper
    {
      cache := map[];
      this.toUpper := toUpper;
    }

    method LeastRecent() returns (oldest: string)
      requires cache != map[]
      ensures IsOldest(cache, oldest)
    {
      oldest :| oldest in cache;
      var todo := cache.Keys;
      while todo != {}
        invariant oldest in cache && todo <= cache.Keys
        invariant forall k :: k in cache && k !in todo ==> cache[oldest].at <= cache[k].at
        decreases |todo|
      {
        var k :| k in todo;
        if cache[k].at < cache[oldest].at {
          oldest := k;
        }
        todo := todo - {k};
      }
    }

    method CacheCert(fingerprint: string, armored: string, now: int)
      modifies this
      ensures exists victim ::
        && IsVictim(old(cache), toUpper(fingerprint), armored, now, victim)
        && cache == Inserted(old(cache), toUpper(fingerprint), armored, now, victim)
    {
      var key := toUpper(fingerprint);
      var victim := key;
      cache := cache[key := Cached(armored, now)];
      if |cache| > MAX_ENTRIES {
        victim := LeastRecent();
        cache := cache - {victim};
      }
      assert IsVictim(old(cache), key, armored, now, victim);
    }

    method GetCachedCert(fingerprint: string, now: int) returns (r: Option<string>)
      modifies this
      ensures (r, cache) == Touched(old(cache), toUpper(fingerprint), now)
    {
      var key := toUpper(fingerprint);
      if key in cache {
        var armored := cache[key].armored;
        cache := cache[key := cache[key].(at := now)];
        return Some(armored);
      }
      return None;
    }
  }

  // ---------------------------------------------------------------- //
  //  The recency list                                                 //
  // ---------------------------------------------------------------- //

  datatype Entry = Entry(key: string, armored: string)

  /** Least recently used first. */
  type Recency = seq<Entry>

  /** Where a key stands; the length of the list if it does not. */
  function IndexOf(list: Recency, key: string): (i: nat)
    ensures i <= |list| && (i < |list| ==> list[i].key == key)
    ensures forall k :: 0 <= k < i ==> list[k].key != key
  {
    if list == [] || list[0].key == key then 0 else 1 + IndexOf(list[1..], key)
  }

  function Dropped(list: Recency, at: nat): (r: Recency)
    requires at < |list|
    ensures |r| == |list| - 1
    ensures forall k :: 0 <= k < |r| ==> r[k] == list[if k < at then k else k + 1]
  {
    list[..at] + list[at + 1..]
  }

  function Without(list: Recency, key: string): Recency {
    var i := IndexOf(list, key);
    if i < |list| then Dropped(list, i) else list
  }

  function ListPut(list: Recency, key: string, armored: string): Recency {
    var longer := Without(list, key) + [Entry(key, armored)];
    if |longer| > MAX_ENTRIES then longer[1..] else longer
  }

  function ListGet(list: Recency, key: string): (Option<string>, Recency) {
    var i := IndexOf(list, key);
    if i < |list| then (Some(list[i].armored), Without(list, key) + [list[i]]) else (None, list)
  }

  predicate Listed(list: Recency, key: string) {
    exists i :: 0 <= i < |list| && list[i].key == key
  }

  predicate Caches(cache: Cache, e: Entry) {
    e.key in cache && cache[e.key].armored == e.armored
  }

  function AccessTime(cache: Cache, key: string): int {
    if key in cache then cache[key].at else 0
  }

  /** Access times strictly increase along the list and lie before now. */
  predicate InAccessOrder(cache: Cache, list: Recency, now: int) {
    && (forall i :: 0 <= i < |list| ==> AccessTime(cache, list[i].key) < now)
    && (forall i, j :: 0 <= i < j < |list| ==> AccessTime(cache, list[i].key) < AccessTime(cache, list[j].key))
  }

  /** The list holds exactly the cached certificates. */
  ghost predicate SameContents(cache: Cache, list: Recency) {
    && |cache| == |list|
    && (forall i :: 0 <= i < |list| ==> Caches(cache, list[i]))
    && (forall k :: k in cache ==> Listed(list, k))
  }

  ghost predicate Matches(cache: Cache, list: Recency, now: int) {
    SameContents(cache, list) && InAccessOrder(cache, list, now)
  }

  lemma IndexIffCached(cache: Cache, list: Recency, now: int, key: string)
    requires Matches(cache, list, now)
    ensures IndexOf(list, key) < |list| <==> key in cache
  {
    if IndexOf(list, key) < |list| {
      assert Caches(cache, list[IndexOf(list, key)]);
    }
    if key in cache {
      assert Listed(list, key);
    }
  }

  lemma DistinctKeys(cache: Cache, list: Recency, now: int, i: nat, j: nat)
    requires InAccessOrder(cache, list, now) && i < |list| && j < |list| && i != j
    ensures list[i].key != list[j].key
  {
    assert AccessTime(cache, list[i].key) != AccessTime(cache, list[j].key);
  }

  lemma RestStaysCached(cache: Cache, list: Recency, now: int, at: nat, i: nat)
    requires Matches(cache, list, now) && at < |list| && i < |list| && i != at
    ensures var after := cache - {list[at].key};
            Caches(after, list[i]) && AccessTime(after, list[i].key) == AccessTime(cache, list[i].key)
  {
    DistinctKeys(cache, list, now, i, at);
    assert Caches(cache, list[i]);
  }

  lemma RestStaysListed(list: Recency, at: nat, key: string)
    requires at < |list| && Listed(list, key) && key != list[at].key
    ensures Listed(Dropped(list, at), key)
  {
    var i :| 0 <= i < |list| && list[i].key == key;
    assert Dropped(list, at)[if i < at then i else i - 1].key == key;
  }

  lemma RemoveContents(cache: Cache, list: Recency, now: int, at: nat)
    requires Matches(cache, list, now) && at < |list|
    ensures SameContents(cache - {list[at].key}, Dropped(list, at))
  {
    var rest, after := Dropped(list, at), cache - {list[at].key};
    assert |after| == |rest| by {
      assert Caches(cache, list[at]) && after.Keys == cache.Keys - {list[at].key};
    }
    forall i | 0 <= i < |rest| ensures Caches(after, rest[i]) {
      RestStaysCached(cache, list, now, at, if i < at then i else i + 1);
    }
    forall k | k in after ensures Listed(rest, k) {
      RestStaysListed(list, at, k);
    }
  }

  lemma DroppedKeepsOrder(cache: Cache, list: Recency, now: int, at: nat)
    requires InAccessOrder(cache, list, now) && at < |list|
    ensures InAccessOrder(cache, Dropped(list, at), now)
  {
  }

  lemma RemoveOrder(cache: Cache, list: Recency, now: int, at: nat)
    requires Matches(cache, list, now) && at < |list|
    ensures InAccessOrder(cache - {list[at].key}, Dropped(list, at), now)
  {
    var rest, after := Dropped(list, at), cache - {list[at].key};
    DroppedKeepsOrder(cache, list, now, at);
    forall i | 0 <= i < |rest| ensures AccessTime(after, rest[i].key) == AccessTime(cache, rest[i].key) {
      RestStaysCached(cache, list, now, at, if i < at then i else i + 1);
    }
  }

  /** Removing a key from both keeps them matched. */
  lemma RemoveMatches(cache: Cache, list: Recency, now: int, at: nat)
    requires Matches(cache, list, now) && at < |list|
    ensures Matches(cache - {list[at].key}, Dropped(list, at), now)
  {
    RemoveContents(cache, list, now, at);
    RemoveOrder(cache, list, now, at);
  }

  lemma AppendContents(cache: Cache, list: Recency, key: string, c: Cached)
    requires SameContents(cache, list) && key !in cache
    ensures SameContents(cache[key := c], list + [Entry(key, c.armored)])
  {
    var after, longer := cache[key := c], list + [Entry(key, c.armored)];
    forall i | 0 <= i < |list| ensures Caches(after, list[i]) {
      assert Caches(cache, list[i]);
    }
    assert longer[|list|].key == key;
    forall k | k in after && k != key ensures Listed(longer, k) {
      assert Listed(list, k);
      var i :| 0 <= i < |list| && list[i].key == k;
      assert longer[i].key == k;
    }
  }

  lemma AppendOrder(cache: Cache, list: Recency, now: int, key: string, armored: string, later: int)
    requires Matches(cache, list, now) && key !in cache && now < later
    ensures InAccessOrder(cache[key := Cached(armored, now)], list + [Entry(key, armored)], later)
  {
    var after := cache[key := Cached(armored, now)];
    forall i | 0 <= i < |list| ensures AccessTime(after, list[i].key) == AccessTime(cache, list[i].key) {
      assert Caches(cache, list[i]);
    }
  }

  lemma ReplaceIsRemoveAndAdd(cache: Cache, key: string, c: Cached)
    ensures (cache - {key})[key := c] == cache[key := c]
  {
  }

  /** Accessing or inserting a key moves it to the recent end of the list. */
  lemma MoveToEndMatches(cache: Cache, list: Recency, key: string, armored: string, now: int, later: int)
    requires Matches(cache, list, now) && now < later
    ensures Matches(cache[key := Cached(armored, now)], Without(list, key) + [Entry(key, armored)], later)
  {
    IndexIffCached(cache, list, now, key);
    var rest := if key in cache then cache - {key} else cache;
    if key in cache {
      RemoveMatches(cache, list, now, IndexOf(list, key));
      ReplaceIsRemoveAndAdd(cache, key, Cached(armored, now));
    }
    AppendContents(rest, Without(list, key), key, Cached(armored, now));
    AppendOrder(rest, Without(list, key), now, key, armored, later);
  }

  lemma OldestIsFirst(cache: Cache, list: Recency, now: int, victim: string)
    requires Matches(cache, list, now) && IsOldest(cache, victim)
    ensures list != [] && list[0].key == victim
  {
    assert Listed(list, victim);
    var i :| 0 <= i < |list| && list[i].key == victim;
    assert Caches(cache, list[0]);
    assert AccessTime(cache, victim) <= AccessTime(cache, list[0].key);
  }

  // ---------------------------------------------------------------- //
  //  Runs                                                             //
  // ---------------------------------------------------------------- //

  datatype CacheEvent =
    | Put(fingerprint: string, armored: string, now: int, victim: string)
    | Get(fingerprint: string, now: int)

  datatype Twin = Twin(cache: Cache, list: Recency, answers: seq<Option<string>>, expected: seq<Option<string>>)

  /** Fingerprints are folded before either is asked. */
  function Step(toUpper: string -> string, t: Twin, ev: CacheEvent): Twin {
    var key := toUpper(ev.fingerprint);
    match ev
    case Put(_, armored, now, victim) =>
      t.(cache := Inserted(t.cache, key, armored, now, victim), list := ListPut(t.list, key, armored))
    case Get(_, now) =>
      var (answer, cache) := Touched(t.cache, key, now);
      var (wanted, list) := ListGet(t.list, key);
      Twin(cache, list, t.answers + [answer], t.expected + [wanted])
  }

  function TwinAfter(toUpper: string -> string, events: seq<CacheEvent>): Twin {
    if events == [] then Twin(map[], [], [], [])
    else Step(toUpper, TwinAfter(toUpper, events[..|events| - 1]), events[|events| - 1])
  }

  /** Access times increase strictly, and a victim is a least recent key. */
  predicate ProperRun(toUpper: string -> string, events: seq<CacheEvent>) {
    events != [] ==>
      var before, ev := events[..|events| - 1], events[|events| - 1];
      && ProperRun(toUpper, before)
      && (before != [] ==> before[|before| - 1].now < ev.now)
      && (ev.Put? ==>
            IsVictim(TwinAfter(toUpper, before).cache, toUpper(ev.fingerprint), ev.armored, ev.now, ev.victim))
  }

  ghost predicate Agree(t: Twin, now: int) {
    Matches(t.cache, t.list, now) && t.answers == t.expected && |t.cache| <= MAX_ENTRIES
  }

  lemma PutAgrees(cache: Cache, list: Recency, key: string, armored: string, now: int, victim: string, later: int)
    requires Matches(cache, list, now) && |cache| <= MAX_ENTRIES && now < later
    requires IsVictim(cache, key, armored, now, victim)
    ensures var after := Inserted(cache, key, armored, now, victim);
            && Matches(after, ListPut(list, key, armored), later)
            && |after| <= MAX_ENTRIES
            && key in after && after[key].armored == armored
  {
    var bigger := cache[key := Cached(armored, now)];
    var longer := Without(list, key) + [Entry(key, armored)];
    MoveToEndMatches(cache, list, key, armored, now, later);
    assert bigger.Keys == cache.Keys + {key};
    if |bigger| > MAX_ENTRIES {
      OldestIsFirst(bigger, longer, later, victim);
      RemoveMatches(bigger, longer, later, 0);
      assert Dropped(longer, 0) == longer[1..];
      DistinctKeys(bigger, longer, later, 0, |longer| - 1);
    }
  }

  lemma GetAgrees(cache: Cache, list: Recency, key: string, now: int, later: int)
    requires Matches(cache, list, now) && now < later
    ensures Touched(cache, key, now).0 == ListGet(list, key).0
    ensures Matches(Touched(cache, key, now).1, ListGet(list, key).1, later)
    ensures |Touched(cache, key, now).1| == |cache|
  {
    IndexIffCached(cache, list, now, key);
    if key in cache {
      assert Caches(cache, list[IndexOf(list, key)]);
      MoveToEndMatches(cache, list, key, cache[key].armored, now, later);
      assert Touched(cache, key, now).1.Keys == cache.Keys;
    }
  }

  /** The certificate just put is there. */
  predicate HasPut(toUpper: string -> string, cache: Cache, ev: CacheEvent) {
    ev.Put? ==> toUpper(ev.fingerprint) in cache && cache[toUpper(ev.fingerprint)].armored == ev.armored
  }

  lemma StepAgrees(toUpper: string -> string, t: Twin, ev: CacheEvent, later: int)
    requires Agree(t, ev.now) && ev.now < later
    requires ev.Put? ==> IsVictim(t.cache, toUpper(ev.fingerprint), ev.armored, ev.now, ev.victim)
    ensures Agree(Step(toUpper, t, ev), later) && HasPut(toUpper, Step(toUpper, t, ev).cache, ev)
  {
    var key := toUpper(ev.fingerprint);
    match ev
    case Put(_, armored, now, victim) => PutAgrees(t.cache, t.list, key, armored, now, victim, later);
    case Get(_, now) => GetAgrees(t.cache, t.list, key, now, later);
  }

  /** With strictly increasing access times, every run of the cache gives the
      answers of the recency list of folded fingerprints, never holds more than 1000
      certificates, and never gives up the one just inserted. */
  lemma {:induction false} EveryRunAgrees(toUpper: string -> string, events: seq<CacheEvent>, later: int)
    requires ProperRun(toUpper, events)
    requires events != [] ==> events[|events| - 1].now < later
    ensures Agree(TwinAfter(toUpper, events), later)
    ensures events != [] ==> HasPut(toUpper, TwinAfter(toUpper, events).cache, events[|events| - 1])
  {
    if events != [] {
      var before, ev := events[..|events| - 1], events[|events| - 1];
      EveryRunAgrees(toUpper, before, ev.now);
      StepAgrees(toUpper, TwinAfter(toUpper, before), ev, later);
    }
  }
}
