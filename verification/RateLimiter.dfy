/** The per-key sliding-window rate limiter. */
module RateLimiter {

  import opened Sequences
  import opened Sets

  type Buckets = map<string, seq<real>>

  function NotBefore(cutoff: real): real -> bool {
    (t: real) => t >= cutoff
  }

  function BucketOf(buckets: Buckets, key: string): seq<real> {
    if key in buckets then buckets[key] else []
  }

  // ---------------------------------------------------------------- //
  //  Specification                                                    //
  // ---------------------------------------------------------------- //

  datatype Config = Config(max: nat, window: real, maxBuckets: nat)

  /** first is the key that iteration over the map yields first. */
  predicate IterationStart(buckets: Buckets, first: string) {
    buckets != map[] ==> first in buckets
  }

  predicate EvictsOn(c: Config, buckets: Buckets, key: string) {
    |buckets| >= c.maxBuckets && key !in buckets && buckets != map[]
  }

  function Evicted(c: Config, buckets: Buckets, key: string, first: string): Buckets {
    if EvictsOn(c, buckets, key) then buckets - {first} else buckets
  }

  function Allowed(c: Config, buckets: Buckets, key: string, now: real, first: string): (bool, Buckets) {
    var kept := Evicted(c, buckets, key, first);
    var entries := Filter(BucketOf(kept, key), NotBefore(now - c.window));
    if |entries| >= c.max then (false, kept[key := entries])
    else (true, kept[key := entries + [now]])
  }

  function Trimmed(buckets: Buckets, cutoff: real): Buckets {
    map k | k in buckets :: Filter(buckets[k], NotBefore(cutoff))
  }

  function NonEmpty(buckets: Buckets): Buckets {
    map k | k in buckets && buckets[k] != [] :: buckets[k]
  }

  function Pruned(c: Config, buckets: Buckets, now: real): Buckets {
    NonEmpty(Trimmed(buckets, now - c.window))
  }

  /** A prune leaves the buckets that hold a time in the window, with just those times. */
  lemma PruneKeepsLive(c: Config, buckets: Buckets, now: real)
    ensures Pruned(c, buckets, now).Keys == set k | k in buckets && exists t :: t in buckets[k] && t >= now - c.window
    ensures forall k :: k in Pruned(c, buckets, now) ==>
              Pruned(c, buckets, now)[k] == Filter(buckets[k], NotBefore(now - c.window))
  {
    forall k | k in buckets
      ensures k in Pruned(c, buckets, now) <==> exists t :: t in buckets[k] && t >= now - c.window
    {
      var live := Filter(buckets[k], NotBefore(now - c.window));
      FilterMembers(buckets[k], NotBefore(now - c.window));
      if live != [] {
        assert live[0] in buckets[k] && live[0] >= now - c.window;
      }
    }
  }

  // ---------------------------------------------------------------- //
  //  The limiter object                                               //
  // ---------------------------------------------------------------- //

  class RateLimiter {
    const config: Config
    var buckets: Buckets

    constructor (maxPerWindow: nat, window: real)
      ensures config == Config(maxPerWindow, window, 100_000) && buckets == map[]
    {
      config := Config(maxPerWindow, window, 100_000);
      buckets := map[];
    }

    method Allow(key: string, now: real, first: string) returns (ok: bool)
      requires IterationStart(buckets, first)
      modifies this
      ensures (ok, buckets) == Allowed(config, old(buckets), key, now, first)
    {
      var cutoff := now - config.window;
      if |buckets| >= config.maxBuckets && key !in buckets {
        if buckets != map[] {
          buckets := buckets - {first};
        }
      }
      var entries := if key in buckets then buckets[key] else [];
      entries := Filter(entries, NotBefore(cutoff));
      if |entries| >= config.max {
        buckets := buckets[key := entries];
        return false;
      }
      entries := entries + [now];
      buckets := buckets[key := entries];
      return true;
    }

    method TrimAll(cutoff: real)
      modifies this
      ensures buckets == Trimmed(old(buckets), cutoff)
    {
      ghost var was := buckets;
      var todo := buckets.Keys;
      while todo != {}
        invariant todo <= was.Keys && forall k :: k in buckets <==> k in was
        invariant forall k :: k in todo ==> buckets[k] == was[k]
        invariant forall k :: k in was && k !in todo ==> buckets[k] == Filter(was[k], NotBefore(cutoff))
        decreases |todo|
      {
        var k :| k in todo;
        buckets := buckets[k := Filter(buckets[k], NotBefore(cutoff))];
        todo := todo - {k};
      }
    }

    /** Also the body of the background task. */
    method Prune(now: real)
      modifies this
      ensures buckets == Pruned(config, old(buckets), now)
    {
      TrimAll(now - config.window);
      buckets := NonEmpty(buckets);
    }
  }

  // ---------------------------------------------------------------- //
  //  Runs against the full history                                    //
  // ---------------------------------------------------------------- //

  datatype Event =
    | Ask(key: string, now: real, first: string)
    | Tidy(now: real)

  /** The limiter beside its history: the granted calls of every key before and since
      the last eviction of its bucket, and the times of its evictions. */
  datatype Watch = Watch(buckets: Buckets, spent: Times, since: Times, evicted: Times)

  type Times = map<string, seq<real>>

  const START: Watch := Watch(map[], map[], map[], map[])

  function TimesOf(times: Times, key: string): seq<real> {
    if key in times then times[key] else []
  }

  /** The granted calls of a key since its bucket was last evicted. */
  function Since(w: Watch, key: string): seq<real> {
    TimesOf(w.since, key)
  }

  function Spent(w: Watch, key: string): seq<real> {
    TimesOf(w.spent, key)
  }

  /** All granted calls of a key. */
  function Grants(w: Watch, key: string): seq<real> {
    Spent(w, key) + Since(w, key)
  }

  function Evictions(w: Watch, key: string): seq<real> {
    TimesOf(w.evicted, key)
  }

  /** The bucket of a key is evicted. */
  function Forgotten(w: Watch, key: string, now: real): Watch {
    Watch(w.buckets - {key}, w.spent[key := Grants(w, key)], w.since[key := []],
          w.evicted[key := Evictions(w, key) + [now]])
  }

  /** The eviction an ask begins with. */
  function Cleared(c: Config, w: Watch, key: string, now: real, first: string): Watch {
    if EvictsOn(c, w.buckets, key) then Forgotten(w, first, now) else w
  }

  /** The bucket a call to allow leaves behind for a key, and its answer. */
  function Refilled(c: Config, bucket: seq<real>, now: real): (bool, seq<real>) {
    var entries := Filter(bucket, NotBefore(now - c.window));
    if |entries| >= c.max then (false, entries) else (true, entries + [now])
  }

  /** The rest of an ask. */
  function Answered(c: Config, w: Watch, key: string, now: real): Watch {
    var (ok, bucket) := Refilled(c, BucketOf(w.buckets, key), now);
    Watch(w.buckets[key := bucket], w.spent,
          if ok then w.since[key := Since(w, key) + [now]] else w.since,
          w.evicted)
  }

  function Step(c: Config, w: Watch, ev: Event): Watch {
    match ev
    case Tidy(now) => w.(buckets := Pruned(c, w.buckets, now))
    case Ask(key, now, first) => Answered(c, Cleared(c, w, key, now, first), key, now)
  }

  /** The steps of a watch are the operations of the limiter, and they append the
      granted calls to the history of their key. */
  lemma StepIsLimiter(c: Config, w: Watch, ev: Event, key: string)
    ensures Step(c, w, ev).buckets ==
              match ev
              case Tidy(now) => Pruned(c, w.buckets, now)
              case Ask(asked, now, first) => Allowed(c, w.buckets, asked, now, first).1
    ensures Grants(Step(c, w, ev), key) == Grants(w, key) + NewGrant(c, w, ev, key)
  {
    if ev.Ask? {
      ClearedGrants(c, w, ev, key);
      AnsweredGrants(c, Cleared(c, w, ev.key, ev.now, ev.first), ev.key, ev.now, key);
    }
  }

  lemma ClearedGrants(c: Config, w: Watch, ev: Event, key: string)
    requires ev.Ask?
    ensures var mid := Cleared(c, w, ev.key, ev.now, ev.first);
            Grants(mid, key) == Grants(w, key) && mid.buckets == Evicted(c, w.buckets, ev.key, ev.first)
  {
  }

  lemma AnsweredGrants(c: Config, w: Watch, asked: string, now: real, key: string)
    ensures Grants(Answered(c, w, asked, now), key)
         == Grants(w, key)
          + (if key == asked && Refilled(c, BucketOf(w.buckets, asked), now).0 then [now] else [])
  {
    hide Refilled;
  }

  /** What an event adds to the granted calls of a key. */
  function NewGrant(c: Config, w: Watch, ev: Event, key: string): seq<real> {
    if ev.Ask? && ev.key == key && Allowed(c, w.buckets, key, ev.now, ev.first).0 then [ev.now] else []
  }

  function WatchAfter(c: Config, events: seq<Event>): Watch {
    if events == [] then START
    else Step(c, WatchAfter(c, events[..|events| - 1]), events[|events| - 1])
  }

  /** The clock never goes back, and first is always a key of the map. */
  predicate ProperRun(c: Config, events: seq<Event>) {
    events != [] ==>
      var before, ev := events[..|events| - 1], events[|events| - 1];
      && ProperRun(c, before)
      && (before != [] ==> before[|before| - 1].now <= ev.now)
      && (ev.Ask? ==> IterationStart(WatchAfter(c, before).buckets, ev.first))
  }

  lemma RunSnoc(c: Config, events: seq<Event>, ev: Event)
    ensures WatchAfter(c, events + [ev]) == Step(c, WatchAfter(c, events), ev)
    ensures ProperRun(c, events + [ev])
       <==> && ProperRun(c, events)
            && (events != [] ==> events[|events| - 1].now <= ev.now)
            && (ev.Ask? ==> IterationStart(WatchAfter(c, events).buckets, ev.first))
  {
    assert (events + [ev])[..|events|] == events;
  }

  /** The times in the closed interval from lo to hi. */
  function Within(lo: real, hi: real): real -> bool {
    (t: real) => lo <= t <= hi
  }

  /** How many of the times lie in the closed interval of the window that starts at lo. */
  function Load(c: Config, times: seq<real>, lo: real): nat {
    |Filter(times, Within(lo, lo + c.window))|
  }

  /** The bucket of a key was not evicted at a cutoff or later. */
  predicate KeptSince(w: Watch, key: string, cutoff: real) {
    forall i :: 0 <= i < |Evictions(w, key)| ==> Evictions(w, key)[i] < cutoff
  }

  predicate NoneAfter(times: seq<real>, now: real) {
    forall i :: 0 <= i < |times| ==> times[i] <= now
  }

  /** From a cutoff on, a bucket holds just the grants since its last eviction. */
  predicate Agrees(bucket: seq<real>, since: seq<real>, cutoff: real) {
    Filter(bucket, NotBefore(cutoff)) == Filter(since, NotBefore(cutoff))
  }

  /** So it is for every cutoff that can still come. */
  ghost predicate BucketsFaithful(c: Config, w: Watch, now: real) {
    forall key, cutoff: real :: cutoff >= now - c.window ==>
      Agrees(BucketOf(w.buckets, key), Since(w, key), cutoff)
  }

  /** What was granted before an eviction lies at or before the last one. */
  predicate SpentIsPast(spent: seq<real>, evictions: seq<real>) {
    spent != [] ==> evictions != [] && NoneAfter(spent, evictions[|evictions| - 1])
  }

  predicate Ordered(spent: seq<real>, since: seq<real>, evictions: seq<real>, now: real) {
    && NoneAfter(spent, now) && NoneAfter(since, now) && NoneAfter(evictions, now)
    && SpentIsPast(spent, evictions)
  }

  ghost predicate InOrder(w: Watch, now: real) {
    forall key :: Ordered(Spent(w, key), Since(w, key), Evictions(w, key), now)
  }

  /** Dropping what lies before an earlier cutoff changes nothing. */
  lemma AgreesTrimmed(bucket: seq<real>, since: seq<real>, trim: real, cutoff: real)
    requires Agrees(bucket, since, cutoff) && trim <= cutoff
    ensures Agrees(Filter(bucket, NotBefore(trim)), since, cutoff)
  {
    FilterNarrow(bucket, NotBefore(trim), NotBefore(cutoff));
  }

  lemma AgreesGranted(bucket: seq<real>, since: seq<real>, cutoff: real, now: real)
    requires Agrees(bucket, since, cutoff)
    ensures Agrees(bucket + [now], since + [now], cutoff)
  {
    FilterAppend(bucket, now, NotBefore(cutoff));
    FilterAppend(since, now, NotBefore(cutoff));
  }

  lemma TidyKeepsFaithful(c: Config, w: Watch, now: real)
    requires BucketsFaithful(c, w, now)
    ensures BucketsFaithful(c, Step(c, w, Tidy(now)), now)
  {
    var v := Step(c, w, Tidy(now));
    forall key, cutoff: real | cutoff >= now - c.window
      ensures Agrees(BucketOf(v.buckets, key), Since(v, key), cutoff)
    {
      PrunedBucket(c, w.buckets, now, key);
      AgreesTrimmed(BucketOf(w.buckets, key), Since(w, key), now - c.window, cutoff);
    }
  }

  lemma PrunedBucket(c: Config, buckets: Buckets, now: real, key: string)
    ensures BucketOf(Pruned(c, buckets, now), key) == Filter(BucketOf(buckets, key), NotBefore(now - c.window))
  {
  }

  lemma ClearedKeepsFaithful(c: Config, w: Watch, key: string, now: real, first: string)
    requires BucketsFaithful(c, w, now)
    ensures BucketsFaithful(c, Cleared(c, w, key, now, first), now)
  {
    var v := Cleared(c, w, key, now, first);
    forall k, cutoff: real | cutoff >= now - c.window ensures Agrees(BucketOf(v.buckets, k), Since(v, k), cutoff) {
      assert Agrees(BucketOf(w.buckets, k), Since(w, k), cutoff);
    }
  }

  lemma AnsweredKeepsFaithful(c: Config, w: Watch, key: string, now: real)
    requires BucketsFaithful(c, w, now)
    ensures BucketsFaithful(c, Answered(c, w, key, now), now)
  {
    var v := Answered(c, w, key, now);
    forall k, cutoff: real | cutoff >= now - c.window ensures Agrees(BucketOf(v.buckets, k), Since(v, k), cutoff) {
      var bucket := BucketOf(w.buckets, k);
      AgreesTrimmed(bucket, Since(w, k), now - c.window, cutoff);
      AgreesGranted(Filter(bucket, NotBefore(now - c.window)), Since(w, k), cutoff, now);
    }
  }

  lemma ClearedKeepsInOrder(c: Config, w: Watch, key: string, now: real, first: string)
    requires InOrder(w, now)
    ensures InOrder(Cleared(c, w, key, now, first), now)
  {
    hide Ordered, EvictsOn;
    var v := Cleared(c, w, key, now, first);
    forall k ensures Ordered(Spent(v, k), Since(v, k), Evictions(v, k), now) {
      assert Ordered(Spent(w, k), Since(w, k), Evictions(w, k), now);
      ForgottenIsOrdered(Spent(w, k), Since(w, k), Evictions(w, k), now);
    }
  }

  lemma ForgottenIsOrdered(spent: seq<real>, since: seq<real>, evictions: seq<real>, now: real)
    requires Ordered(spent, since, evictions, now)
    ensures Ordered(spent + since, [], evictions + [now], now)
  {
  }

  lemma AnsweredKeepsInOrder(c: Config, w: Watch, key: string, now: real)
    requires InOrder(w, now)
    ensures InOrder(Answered(c, w, key, now), now)
  {
    var v := Answered(c, w, key, now);
    forall k ensures Ordered(Spent(v, k), Since(v, k), Evictions(v, k), now) {
      assert Ordered(Spent(w, k), Since(w, k), Evictions(w, k), now);
    }
  }

  /** The invariant of every run: faithful buckets, a history in order, and no more
      buckets than the limit. */
  ghost predicate Sane(c: Config, w: Watch, now: real) {
    BucketsFaithful(c, w, now) && InOrder(w, now) && |w.buckets| <= c.maxBuckets
  }

  lemma BucketCountBounded(c: Config, w: Watch, ev: Event)
    requires c.maxBuckets >= 1 && |w.buckets| <= c.maxBuckets
    requires ev.Ask? ==> IterationStart(w.buckets, ev.first)
    ensures |Step(c, w, ev).buckets| <= c.maxBuckets
  {
    match ev
    case Tidy(now) =>
      assert Pruned(c, w.buckets, now).Keys <= w.buckets.Keys;
      SubsetSize(Pruned(c, w.buckets, now).Keys, w.buckets.Keys);
    case Ask(key, now, first) =>
      var kept := Cleared(c, w, key, now, first).buckets;
      assert Step(c, w, ev).buckets.Keys == kept.Keys + {key};
      if EvictsOn(c, w.buckets, key) {
        assert kept.Keys == w.buckets.Keys - {first};
      }
  }

  lemma StepKeepsSane(c: Config, w: Watch, ev: Event)
    requires c.maxBuckets >= 1 && Sane(c, w, ev.now)
    requires ev.Ask? ==> IterationStart(w.buckets, ev.first)
    ensures Sane(c, Step(c, w, ev), ev.now)
  {
    BucketCountBounded(c, w, ev);
    match ev
    case Tidy(now) =>
      TidyKeepsFaithful(c, w, now);
      var v := Step(c, w, ev);
      forall key ensures Ordered(Spent(v, key), Since(v, key), Evictions(v, key), now) {
        assert Ordered(Spent(w, key), Since(w, key), Evictions(w, key), now);
      }
    case Ask(key, now, first) =>
      var mid := Cleared(c, w, key, now, first);
      ClearedKeepsFaithful(c, w, key, now, first);
      ClearedKeepsInOrder(c, w, key, now, first);
      AnsweredKeepsFaithful(c, mid, key, now);
      AnsweredKeepsInOrder(c, mid, key, now);
  }

  lemma LaterIsSane(c: Config, w: Watch, was: real, now: real)
    requires Sane(c, w, was) && was <= now
    ensures Sane(c, w, now)
  {
    forall key ensures Ordered(Spent(w, key), Since(w, key), Evictions(w, key), now) {
      assert Ordered(Spent(w, key), Since(w, key), Evictions(w, key), was);
    }
  }

  lemma {:induction false} EveryRunIsSane(c: Config, events: seq<Event>, next: real)
    requires c.maxBuckets >= 1 && ProperRun(c, events)
    requires events != [] ==> events[|events| - 1].now <= next
    ensures Sane(c, WatchAfter(c, events), next)
  {
    if events == [] {
      assert forall key :: Spent(START, key) == [] && Since(START, key) == [] && Evictions(START, key) == [];
    } else {
      var before, ev := events[..|events| - 1], events[|events| - 1];
      EveryRunIsSane(c, before, ev.now);
      StepKeepsSane(c, WatchAfter(c, before), ev);
      LaterIsSane(c, WatchAfter(c, events), ev.now, next);
    }
  }

  lemma WindowIsLive(c: Config, times: seq<real>, now: real)
    requires NoneAfter(times, now)
    ensures Filter(times, Within(now - c.window, now)) == Filter(times, NotBefore(now - c.window))
  {
    FilterSame(times, Within(now - c.window, now), NotBefore(now - c.window));
  }

  /** A key that was not evicted in the window has nothing but its current grants there. */
  lemma KeptLoad(c: Config, w: Watch, key: string, lo: real)
    requires KeptSince(w, key, lo) && SpentIsPast(Spent(w, key), Evictions(w, key))
    ensures Load(c, Grants(w, key), lo) == Load(c, Since(w, key), lo)
  {
    LoadSplits(c, Spent(w, key), Since(w, key), lo);
    FilterNone(Spent(w, key), Within(lo, lo + c.window));
  }

  lemma AnswerIsExact(c: Config, w: Watch, key: string, now: real, first: string)
    requires Sane(c, w, now) && IterationStart(w.buckets, first)
    ensures Allowed(c, w.buckets, key, now, first).0 <==> Load(c, Since(w, key), now - c.window) < c.max
  {
    var cutoff := now - c.window;
    assert Agrees(BucketOf(w.buckets, key), Since(w, key), cutoff);
    assert Ordered(Spent(w, key), Since(w, key), Evictions(w, key), now);
    WindowIsLive(c, Since(w, key), now);
    assert BucketOf(Evicted(c, w.buckets, key, first), key) == BucketOf(w.buckets, key);
  }

  /** In every run, whatever was pruned or evicted in between, a key is allowed if and
      only if fewer than max of its granted calls since its last eviction lie in the
      window. So no call is refused that the full history allows, and for a key not
      evicted in the window the answer is that of the full history. */
  lemma EveryAnswerIsExact(c: Config, events: seq<Event>, key: string, now: real, first: string)
    requires c.maxBuckets >= 1 && ProperRun(c, events + [Ask(key, now, first)])
    ensures var w := WatchAfter(c, events);
            var ok := Allowed(c, w.buckets, key, now, first).0;
            && (ok <==> Load(c, Since(w, key), now - c.window) < c.max)
            && (Load(c, Grants(w, key), now - c.window) < c.max ==> ok)
            && (KeptSince(w, key, now - c.window) ==>
                  (ok <==> Load(c, Grants(w, key), now - c.window) < c.max))
            && |w.buckets| <= c.maxBuckets
  {
    RunSnoc(c, events, Ask(key, now, first));
    EveryRunIsSane(c, events, now);
    SaneAnswerIsExact(c, WatchAfter(c, events), key, now, first);
  }

  lemma SaneAnswerIsExact(c: Config, w: Watch, key: string, now: real, first: string)
    requires Sane(c, w, now) && IterationStart(w.buckets, first)
    ensures var ok := Allowed(c, w.buckets, key, now, first).0;
            && (ok <==> Load(c, Since(w, key), now - c.window) < c.max)
            && (Load(c, Grants(w, key), now - c.window) < c.max ==> ok)
            && (KeptSince(w, key, now - c.window) ==>
                  (ok <==> Load(c, Grants(w, key), now - c.window) < c.max))
  {
    AnswerIsExact(c, w, key, now, first);
    LoadSplits(c, Spent(w, key), Since(w, key), now - c.window);
    assert Ordered(Spent(w, key), Since(w, key), Evictions(w, key), now);
    hide Allowed, Load, Sane;
    if KeptSince(w, key, now - c.window) {
      KeptLoad(c, w, key, now - c.window);
    }
  }

  lemma LoadSplits(c: Config, spent: seq<real>, since: seq<real>, lo: real)
    ensures Load(c, spent + since, lo) == Load(c, spent, lo) + Load(c, since, lo)
  {
    FilterConcat(spent, since, Within(lo, lo + c.window));
  }

  // ---------------------------------------------------------------- //
  //  The limit itself                                                 //
  // ---------------------------------------------------------------- //

  /** An interval holds max granted calls of a key, and max more for every eviction of
      its bucket inside; the last eviction counts for what follows it. */
  predicate LimitHolds(c: Config, spent: seq<real>, since: seq<real>, evictions: seq<real>, lo: real) {
    && Load(c, spent + since, lo) <= Allowance(c, Load(c, evictions, lo))
    && (evictions != [] && lo <= evictions[|evictions| - 1] <= lo + c.window ==>
          Load(c, spent, lo) + c.max <= Allowance(c, Load(c, evictions, lo)))
  }

  /** max calls, and max more for every eviction. */
  function Allowance(c: Config, evictions: nat): nat {
    if evictions == 0 then c.max else Allowance(c, evictions - 1) + c.max
  }

  lemma {:induction false} AllowanceIsProduct(c: Config, evictions: nat)
    ensures Allowance(c, evictions) == c.max * (1 + evictions)
  {
    if evictions > 0 {
      AllowanceIsProduct(c, evictions - 1);
      assert c.max * (1 + evictions) == c.max * evictions + c.max;
    }
  }

  ghost predicate AllLimitsHold(c: Config, w: Watch) {
    forall key, lo: real :: LimitHolds(c, Spent(w, key), Since(w, key), Evictions(w, key), lo)
  }

  /** An eviction moves a key's grants behind it. */
  lemma EvictionKeepsLimit(c: Config, spent: seq<real>, since: seq<real>, evictions: seq<real>, now: real, lo: real)
    requires LimitHolds(c, spent, since, evictions, lo)
    ensures LimitHolds(c, spent + since, [], evictions + [now], lo)
  {
    FilterAppend(evictions, now, Within(lo, lo + c.window));
    assert spent + since + [] == spent + since;
  }

  /** A grant now leaves room in every interval around it: the bucket knows all
      grants since the last eviction, and in the interval they are live. */
  lemma GrantFitsInterval(c: Config, bucket: seq<real>, since: seq<real>, now: real, lo: real)
    requires Agrees(bucket, since, lo)
    requires |Filter(bucket, NotBefore(now - c.window))| < c.max
    requires lo <= now <= lo + c.window
    ensures Load(c, since + [now], lo) <= c.max
  {
    var p := Within(lo, lo + c.window);
    FilterAppend(since, now, p);
    FilterNarrow(since, NotBefore(lo), p);
    FilterNarrow(bucket, NotBefore(now - c.window), NotBefore(lo));
    assert |Filter(Filter(since, NotBefore(lo)), p)| <= |Filter(bucket, NotBefore(lo))|;
  }

  lemma GrantKeepsLimit(c: Config, bucket: seq<real>, spent: seq<real>, since: seq<real>, evictions: seq<real>,
                        now: real, lo: real)
    requires LimitHolds(c, spent, since, evictions, lo)
    requires SpentIsPast(spent, evictions) && NoneAfter(evictions, now)
    requires lo >= now - c.window ==> Agrees(bucket, since, lo)
    requires |Filter(bucket, NotBefore(now - c.window))| < c.max
    ensures LimitHolds(c, spent, since + [now], evictions, lo)
  {
    var p := Within(lo, lo + c.window);
    assert spent + (since + [now]) == (spent + since) + [now];
    FilterAppend(spent + since, now, p);
    if p(now) {
      GrantFitsInterval(c, bucket, since, now, lo);
      LoadSplits(c, spent, since + [now], lo);
      SpentIsCovered(c, spent, evictions, now, lo);
    }
  }

  /** In an interval around now, what was granted before the last eviction is either
      covered by it or too old. */
  lemma SpentIsCovered(c: Config, spent: seq<real>, evictions: seq<real>, now: real, lo: real)
    requires SpentIsPast(spent, evictions) && NoneAfter(evictions, now) && lo <= now <= lo + c.window
    requires evictions != [] && lo <= evictions[|evictions| - 1] <= lo + c.window ==>
               Load(c, spent, lo) + c.max <= Allowance(c, Load(c, evictions, lo))
    ensures Load(c, spent, lo) + c.max <= Allowance(c, Load(c, evictions, lo))
  {
    if evictions == [] || evictions[|evictions| - 1] < lo {
      FilterNone(spent, Within(lo, lo + c.window));
      AllowanceIsEnough(c, Load(c, evictions, lo));
    }
  }

  lemma {:induction false} AllowanceIsEnough(c: Config, evictions: nat)
    ensures Allowance(c, evictions) >= c.max
  {
    if evictions > 0 {
      AllowanceIsEnough(c, evictions - 1);
    }
  }

  lemma ClearedKeepsLimit(c: Config, w: Watch, key: string, now: real, first: string)
    requires AllLimitsHold(c, w)
    ensures AllLimitsHold(c, Cleared(c, w, key, now, first))
  {
    var v := Cleared(c, w, key, now, first);
    forall k, lo: real ensures LimitHolds(c, Spent(v, k), Since(v, k), Evictions(v, k), lo) {
      EvictionKeepsLimit(c, Spent(w, k), Since(w, k), Evictions(w, k), now, lo);
    }
  }

  lemma AnsweredKeepsLimit(c: Config, w: Watch, key: string, now: real)
    requires AllLimitsHold(c, w) && BucketsFaithful(c, w, now) && InOrder(w, now)
    ensures AllLimitsHold(c, Answered(c, w, key, now))
  {
    var v := Answered(c, w, key, now);
    var bucket := BucketOf(w.buckets, key);
    forall k, lo: real ensures LimitHolds(c, Spent(v, k), Since(v, k), Evictions(v, k), lo) {
      assert LimitHolds(c, Spent(w, k), Since(w, k), Evictions(w, k), lo);
      assert Ordered(Spent(w, k), Since(w, k), Evictions(w, k), now);
      if k == key && |Filter(bucket, NotBefore(now - c.window))| < c.max {
        GrantKeepsLimit(c, bucket, Spent(w, key), Since(w, key), Evictions(w, key), now, lo);
      }
    }
  }

  lemma StepKeepsLimit(c: Config, w: Watch, ev: Event)
    requires AllLimitsHold(c, w) && BucketsFaithful(c, w, ev.now) && InOrder(w, ev.now)
    ensures AllLimitsHold(c, Step(c, w, ev))
  {
    if ev.Ask? {
      ClearedKeepsLimit(c, w, ev.key, ev.now, ev.first);
      ClearedKeepsFaithful(c, w, ev.key, ev.now, ev.first);
      ClearedKeepsInOrder(c, w, ev.key, ev.now, ev.first);
      AnsweredKeepsLimit(c, Cleared(c, w, ev.key, ev.now, ev.first), ev.key, ev.now);
    } else {
      forall key, lo: real
        ensures LimitHolds(c, Spent(Step(c, w, ev), key), Since(Step(c, w, ev), key),
                           Evictions(Step(c, w, ev), key), lo)
      {
        assert LimitHolds(c, Spent(w, key), Since(w, key), Evictions(w, key), lo);
      }
    }
  }

  lemma {:induction false} EveryRunKeepsLimits(c: Config, events: seq<Event>)
    requires c.maxBuckets >= 1 && ProperRun(c, events)
    ensures AllLimitsHold(c, WatchAfter(c, events))
  {
    if events != [] {
      var before, ev := events[..|events| - 1], events[|events| - 1];
      EveryRunKeepsLimits(c, before);
      EveryRunIsSane(c, before, ev.now);
      StepKeepsLimit(c, WatchAfter(c, before), ev);
    }
  }

  /** In every run, every closed interval of the length of the window holds at most
      max granted calls of a key, and max more for every eviction of its bucket in the
      interval. */
  lemma EveryRunHoldsLimit(c: Config, events: seq<Event>, key: string, lo: real)
    requires c.maxBuckets >= 1 && ProperRun(c, events)
    ensures var w := WatchAfter(c, events);
            Load(c, Grants(w, key), lo) <= c.max * (1 + Load(c, Evictions(w, key), lo))
  {
    hide WatchAfter, ProperRun, Load, Allowance;
    EveryRunKeepsLimits(c, events);
    var w := WatchAfter(c, events);
    assert LimitHolds(c, Spent(w, key), Since(w, key), Evictions(w, key), lo);
    AllowanceIsProduct(c, Load(c, Evictions(w, key), lo));
  }

  // ---------------------------------------------------------------- //
  //  An eviction lifts the limit                                      //
  // ---------------------------------------------------------------- //

  /** Whenever the map is full and a key in it is at its limit: the key is refused, and
      after one call with a key that is not in the map, which may evict it, it is
      allowed at the same moment, over what the full history allows. */
  lemma EvictionLiftsLimit(c: Config, events: seq<Event>, key: string, other: string, now: real, first: string)
    requires c.max >= 1 && c.maxBuckets >= 1
    requires ProperRun(c, events + [Ask(other, now, key)] + [Ask(key, now, first)])
    requires var w := WatchAfter(c, events);
             && |w.buckets| == c.maxBuckets && key in w.buckets && other !in w.buckets
             && Load(c, Since(w, key), now - c.window) >= c.max
    ensures !Allowed(c, WatchAfter(c, events).buckets, key, now, key).0
    ensures var v := WatchAfter(c, events + [Ask(other, now, key)]);
            && Allowed(c, v.buckets, key, now, first).0
            && Load(c, Grants(v, key), now - c.window) >= c.max
  {
    hide ProperRun, WatchAfter, Allowed, Load, Step, Sane;
    var mid := events + [Ask(other, now, key)];
    RunSnoc(c, events, Ask(other, now, key));
    RunSnoc(c, mid, Ask(key, now, first));
    EveryRunIsSane(c, events, now);
    EveryRunIsSane(c, mid, now);
    FullMapLifts(c, WatchAfter(c, events), key, other, now, first);
  }

  lemma FullMapLifts(c: Config, w: Watch, key: string, other: string, now: real, first: string)
    requires c.max >= 1 && |w.buckets| >= c.maxBuckets && key in w.buckets && other !in w.buckets
    requires Load(c, Since(w, key), now - c.window) >= c.max
    requires var v := Step(c, w, Ask(other, now, key));
             Sane(c, w, now) && Sane(c, v, now) && IterationStart(v.buckets, first)
    ensures !Allowed(c, w.buckets, key, now, key).0
    ensures var v := Step(c, w, Ask(other, now, key));
            && Allowed(c, v.buckets, key, now, first).0
            && Load(c, Grants(v, key), now - c.window) >= c.max
  {
    hide Sane, Step, Allowed, Load, Grants, Since, Spent;
    FullMapForgets(c, w, key, other, now);
    NoLoad(c, now - c.window);
    AnswerIsExact(c, w, key, now, key);
    AnswerIsExact(c, Step(c, w, Ask(other, now, key)), key, now, first);
    GrantsLoad(c, w, key, now - c.window);
  }

  lemma NoLoad(c: Config, lo: real)
    ensures Load(c, [], lo) == 0
  {
  }

  lemma GrantsLoad(c: Config, w: Watch, key: string, lo: real)
    ensures Load(c, Grants(w, key), lo) == Load(c, Spent(w, key), lo) + Load(c, Since(w, key), lo)
  {
    LoadSplits(c, Spent(w, key), Since(w, key), lo);
  }

  lemma FullMapForgets(c: Config, w: Watch, key: string, other: string, now: real)
    requires |w.buckets| >= c.maxBuckets && key in w.buckets && other !in w.buckets
    ensures var v := Step(c, w, Ask(other, now, key));
            Since(v, key) == [] && Grants(v, key) == Grants(w, key)
  {
  }

  // ---------------------------------------------------------------- //
  //  A run over the limit                                             //
  // ---------------------------------------------------------------- //

  function Name(i: nat): (r: string)
    ensures |r| == i
  {
    seq(i, _ => 'x')
  }

  function Names(n: nat): (r: set<string>)
    ensures forall i: nat :: Name(i) in r <==> i < n
    ensures forall s :: s in r ==> |s| < n
    ensures |r| == n
  {
    if n == 0 then {} else Names(n - 1) + {Name(n - 1)}
  }

  function Copies(n: nat, now: real): seq<real> {
    if n == 0 then [] else Copies(n - 1, now) + [now]
  }

  lemma {:induction false} CopiesLoad(c: Config, n: nat, now: real)
    requires c.window >= 0.0
    ensures Load(c, Copies(n, now), now - c.window) == n
  {
    if n > 0 {
      CopiesLoad(c, n - 1, now);
      FilterAppend(Copies(n - 1, now), now, Within(now - c.window, now));
    }
  }

  /** All at one time: one key asks max times, then others ask once each. */
  function Crowd(c: Config, k: nat, now: real): (r: seq<Event>)
    ensures |r| == k && forall i :: 0 <= i < k ==> r[i].now == now
  {
    if k == 0 then [] else Crowd(c, k - 1, now) + [Ask(Member(c, k), now, Name(0))]
  }

  function Member(c: Config, k: nat): string {
    Name(if k <= c.max then 0 else k - c.max)
  }

  function CrowdSize(c: Config, k: nat): nat {
    if k == 0 then 0 else if k <= c.max then 1 else 1 + k - c.max
  }

  /** Nothing was evicted, and the first key has its calls. */
  predicate Crowded(c: Config, k: nat, now: real, w: Watch) {
    && w.buckets.Keys == Names(CrowdSize(c, k))
    && Spent(w, Name(0)) == []
    && Since(w, Name(0)) == Copies(if k <= c.max then k else c.max, now)
  }

  /** An ask that evicts nothing. */
  lemma PlainAsk(c: Config, w: Watch, key: string, now: real, first: string, k: string)
    requires !EvictsOn(c, w.buckets, key)
    ensures var v := Step(c, w, Ask(key, now, first));
            && v.buckets.Keys == w.buckets.Keys + {key}
            && Spent(v, k) == Spent(w, k)
            && Since(v, k) == Since(w, k) + (if k == key && Allowed(c, w.buckets, key, now, first).0 then [now] else [])
  {
    hide Filter;
  }

  lemma CrowdStep(c: Config, k: nat, now: real, w: Watch)
    requires c.max >= 1 && c.window >= 0.0 && 1 <= k < c.max + c.maxBuckets
    requires Crowded(c, k - 1, now, w) && Sane(c, w, now)
    ensures IterationStart(w.buckets, Name(0))
    ensures Crowded(c, k, now, Step(c, w, Ask(Member(c, k), now, Name(0))))
  {
    hide Step, Sane, Allowed, Load, Names, Name;
    var key := Member(c, k);
    CrowdHasRoom(c, k, now, w);
    PlainAsk(c, w, key, now, Name(0), Name(0));
    CrowdKeys(c, k);
    if k <= c.max {
      AnswerIsExact(c, w, key, now, Name(0));
      CopiesLoad(c, k - 1, now);
    } else {
      NameIsOwn(0, k - c.max);
    }
  }

  lemma NameIsOwn(i: nat, j: nat)
    ensures Name(i) == Name(j) <==> i == j
  {
    assert |Name(i)| == i && |Name(j)| == j;
  }

  lemma CrowdKeys(c: Config, k: nat)
    requires c.max >= 1 && k >= 1
    ensures Names(CrowdSize(c, k)) == Names(CrowdSize(c, k - 1)) + {Member(c, k)}
  {
    assert CrowdSize(c, k) >= 1;
    assert Names(CrowdSize(c, k)) == Names(CrowdSize(c, k) - 1) + {Name(CrowdSize(c, k) - 1)};
  }

  lemma CrowdHasRoom(c: Config, k: nat, now: real, w: Watch)
    requires c.max >= 1 && 1 <= k < c.max + c.maxBuckets && Crowded(c, k - 1, now, w)
    ensures !EvictsOn(c, w.buckets, Member(c, k)) && IterationStart(w.buckets, Name(0))
  {
    assert |w.buckets| == |w.buckets.Keys| == CrowdSize(c, k - 1);
    if k == 1 {
      assert w.buckets == map[];
    } else {
      assert Name(0) in w.buckets.Keys;
    }
  }

  lemma CrowdSnoc(c: Config, k: nat, now: real)
    requires k > 0
    ensures Crowd(c, k, now) == Crowd(c, k - 1, now) + [Ask(Member(c, k), now, Name(0))]
  {
  }

  lemma {:induction false} CrowdGathers(c: Config, k: nat, now: real)
    requires c.max >= 1 && c.window >= 0.0 && c.maxBuckets >= 1 && k < c.max + c.maxBuckets
    ensures ProperRun(c, Crowd(c, k, now))
    ensures Crowded(c, k, now, WatchAfter(c, Crowd(c, k, now)))
  {
    if k == 0 {
      assert START.buckets.Keys == Names(0);
    } else {
      CrowdSnoc(c, k, now);
      hide Crowded, Sane, Step, ProperRun, WatchAfter, Crowd, Member, Name;
      var before := Crowd(c, k - 1, now);
      CrowdGathers(c, k - 1, now);
      EveryRunIsSane(c, before, now);
      RunSnoc(c, before, Ask(Member(c, k), now, Name(0)));
      CrowdStep(c, k, now, WatchAfter(c, before));
    }
  }

  /** Under every configuration there is a run that takes a key over its limit: it is
      at its limit, the map is full, a new key evicts it, and it is granted once more. */
  lemma LimitIsExceeded(c: Config, now: real)
    requires c.max >= 1 && c.window >= 0.0 && c.maxBuckets >= 1
    ensures var events := Crowd(c, c.max + c.maxBuckets - 1, now)
                        + [Ask(Name(c.maxBuckets), now, Name(0))] + [Ask(Name(0), now, Name(c.maxBuckets))];
            && ProperRun(c, events)
            && Load(c, Grants(WatchAfter(c, events), Name(0)), now - c.window) == c.max + 1
  {
    hide Load, Crowded, ProperRun, WatchAfter, Name, Crowd, Grants;
    var k := c.max + c.maxBuckets - 1;
    var crowd, other := Crowd(c, k, now), Name(c.maxBuckets);
    CrowdGathers(c, k, now);
    CopiesLoad(c, c.max, now);
    FullCrowd(c, now, WatchAfter(c, crowd));
    OverLimit(c, crowd, Name(0), other, now);
  }

  lemma FullCrowd(c: Config, now: real, w: Watch)
    requires c.max >= 1 && c.maxBuckets >= 1 && Crowded(c, c.max + c.maxBuckets - 1, now, w)
    ensures |w.buckets| == c.maxBuckets && Name(0) in w.buckets && Name(c.maxBuckets) !in w.buckets
    ensures Grants(w, Name(0)) == Since(w, Name(0)) == Copies(c.max, now)
  {
    assert |w.buckets| == |w.buckets.Keys|;
    assert Name(0) in w.buckets.Keys && Name(c.maxBuckets) !in w.buckets.Keys;
  }

  lemma OverLimit(c: Config, events: seq<Event>, key: string, other: string, now: real)
    requires c.max >= 1 && c.maxBuckets >= 1 && c.window >= 0.0
    requires ProperRun(c, events) && (events != [] ==> events[|events| - 1].now == now)
    requires var w := WatchAfter(c, events);
             && |w.buckets| == c.maxBuckets && key in w.buckets && other !in w.buckets
             && Load(c, Since(w, key), now - c.window) >= c.max
    ensures var all := events + [Ask(other, now, key)] + [Ask(key, now, other)];
            && ProperRun(c, all)
            && Load(c, Grants(WatchAfter(c, all), key), now - c.window)
            == Load(c, Grants(WatchAfter(c, events), key), now - c.window) + 1
  {
    hide ProperRun, WatchAfter, Allowed, Load;
    var mid := events + [Ask(other, now, key)];
    var w, v := WatchAfter(c, events), WatchAfter(c, mid);
    RunSnoc(c, events, Ask(other, now, key));
    RunSnoc(c, mid, Ask(key, now, other));
    assert other in v.buckets;
    FullMapForgets(c, w, key, other, now);
    hide Step;
    EvictionLiftsLimit(c, events, key, other, now, other);
    StepIsLimiter(c, v, Ask(key, now, other), key);
    LoadSnoc(c, Grants(v, key), now);
  }

  lemma LoadSnoc(c: Config, times: seq<real>, now: real)
    requires c.window >= 0.0
    ensures Load(c, times + [now], now - c.window) == Load(c, times, now - c.window) + 1
  {
    FilterAppend(times, now, Within(now - c.window, now));
  }
}
