/** The relay's per-sender log of string nonces, trimmed by age and by count, and
    the acceptance rule of store requests that relies on it. */
module ReplayLog {

  import opened Sequences

  const MAX_NONCES_PER_SENDER: nat := 1000
  const TOLERANCE_SECS: int := 300

  /** A recorded nonce and the whole second it was recorded in. */
  datatype Stamp = Stamp(nonce: string, at: int)

  type Log = seq<Stamp>

  type Logs = map<string, Log>

  function Since(cutoff: int): Stamp -> bool {
    (s: Stamp) => s.at >= cutoff
  }

  predicate Mentions(log: Log, nonce: string) {
    exists i :: 0 <= i < |log| && log[i].nonce == nonce
  }

  function LogOf(logs: Logs, fp: string): Log {
    if fp in logs then logs[fp] else []
  }

  /** A log that is full gives up its older half. */
  function Halved(log: Log): Log {
    if |log| >= MAX_NONCES_PER_SENDER then log[|log| / 2..] else log
  }

  /** The log after a nonce that it does not mention has been recorded. */
  function Recorded(log: Log, nonce: string, now: int): Log {
    Halved(Filter(log, Since(now - TOLERANCE_SECS))) + [Stamp(nonce, now)]
  }

  /** The answer of the replay check and the logs after it. */
  function Checked(logs: Logs, fp: string, nonce: string, now: int): (bool, Logs) {
    if Mentions(LogOf(logs, fp), nonce) then (false, logs)
    else (true, logs[fp := Recorded(LogOf(logs, fp), nonce, now)])
  }

  predicate TimestampFresh(timestamp: real, now: real) {
    var age := now - timestamp;
    (if age < 0.0 then -age else age) <= TOLERANCE_SECS as real
  }

  // ---------------------------------------------------------------- //
  //  Runs                                                             //
  // ---------------------------------------------------------------- //

  /** A signed request as the acceptance rule sees it. */
  datatype Request = Request(fp: string, nonce: string, timestamp: real, signatureOk: bool)

  /** A store request arrives, or another handler consults the log. */
  datatype Event =
    | Submit(req: Request, now: real)
    | Consult(fp: string, nonce: string, now: real)

  predicate Accepts(logs: Logs, ev: Event) {
    match ev
    case Submit(req, now) =>
      req.signatureOk && TimestampFresh(req.timestamp, now) && Checked(logs, req.fp, req.nonce, now.Floor).0
    case Consult(fp, nonce, now) => Checked(logs, fp, nonce, now.Floor).0
  }

  function Sender(ev: Event): string {
    match ev
    case Submit(req, _) => req.fp
    case Consult(fp, _, _) => fp
  }

  function StampOf(ev: Event): Stamp {
    match ev
    case Submit(req, now) => Stamp(req.nonce, now.Floor)
    case Consult(_, nonce, now) => Stamp(nonce, now.Floor)
  }

  function After(logs: Logs, ev: Event): Logs {
    if Accepts(logs, ev) then Checked(logs, Sender(ev), StampOf(ev).nonce, StampOf(ev).at).1 else logs
  }

  function LogsAfter(events: seq<Event>): Logs {
    if events == [] then map[]
    else After(LogsAfter(events[..|events| - 1]), events[|events| - 1])
  }

  /** Every stamp a sender was ever granted, in order: the untrimmed log. */
  function Granted(events: seq<Event>, fp: string): Log {
    if events == [] then []
    else
      var before, ev := events[..|events| - 1], events[|events| - 1];
      if Sender(ev) == fp && Accepts(LogsAfter(before), ev) then Granted(before, fp) + [StampOf(ev)]
      else Granted(before, fp)
  }

  predicate ClockRuns(events: seq<Event>) {
    forall i, j :: 0 <= i < j < |events| ==> events[i].now <= events[j].now
  }

  /** The last clock reading, or the next one if there was none. */
  function Now(events: seq<Event>, next: int): int {
    if events == [] then next else events[|events| - 1].now.Floor
  }

  predicate InOrder(log: Log, now: int) {
    && (forall i, j :: 0 <= i < j < |log| ==> log[i].at <= log[j].at)
    && (forall i :: 0 <= i < |log| ==> log[i].at <= now)
  }

  /** What a log lacks of the full one, its first `lacking` stamps, is older than
      the tolerance or more than 500 grants back. */
  predicate Excused(granted: Log, lacking: nat, now: int)
    requires lacking <= |granted|
  {
    forall k :: 0 <= k < lacking ==>
      granted[k].at < now - TOLERANCE_SECS || |granted| - 1 - k > MAX_NONCES_PER_SENDER / 2
  }

  /** The trimmed log is a suffix of the full one that lacks nothing recent. */
  predicate Faithful(log: Log, granted: Log, now: int) {
    && |log| <= MAX_NONCES_PER_SENDER
    && IsSuffix(log, granted)
    && InOrder(granted, now)
    && Excused(granted, |granted| - |log|, now)
  }

  lemma {:induction false} SinceCutsPrefix(log: Log, cutoff: int)
    requires forall i, j :: 0 <= i < j < |log| ==> log[i].at <= log[j].at
    ensures IsSuffix(Filter(log, Since(cutoff)), log)
    ensures forall k :: 0 <= k < |log| - |Filter(log, Since(cutoff))| ==> log[k].at < cutoff
  {
    if log != [] {
      if log[0].at >= cutoff {
        FilterAll(log, Since(cutoff));
      } else {
        SinceCutsPrefix(log[1..], cutoff);
      }
    }
  }

  lemma RecentIsExcused(log: Log, granted: Log, was: int, now: int)
    requires IsSuffix(log, granted) && InOrder(granted, was) && was <= now
    requires Excused(granted, |granted| - |log|, was)
    ensures var recent := Filter(log, Since(now - TOLERANCE_SECS));
            IsSuffix(recent, granted) && Excused(granted, |granted| - |recent|, now)
  {
    var dropped := |granted| - |log|;
    assert forall i :: 0 <= i < |log| ==> log[i] == granted[dropped + i];
    SinceCutsPrefix(log, now - TOLERANCE_SECS);
    SuffixTrans(Filter(log, Since(now - TOLERANCE_SECS)), log, granted);
  }

  lemma HalvedIsExcused(recent: Log, granted: Log, now: int, latest: Stamp)
    requires IsSuffix(recent, granted) && |recent| <= MAX_NONCES_PER_SENDER
    requires Excused(granted, |granted| - |recent|, now)
    ensures IsSuffix(Halved(recent), granted) && |Halved(recent)| < MAX_NONCES_PER_SENDER
    ensures Excused(granted + [latest], |granted| - |Halved(recent)|, now)
  {
  }

  lemma GrantKeepsFaithful(log: Log, granted: Log, was: int, nonce: string, now: int)
    requires Faithful(log, granted, was) && was <= now
    ensures Faithful(Recorded(log, nonce, now), granted + [Stamp(nonce, now)], now)
  {
    var recent := Filter(log, Since(now - TOLERANCE_SECS));
    RecentIsExcused(log, granted, was, now);
    HalvedIsExcused(recent, granted, now, Stamp(nonce, now));
    SuffixAppend(Halved(recent), granted, Stamp(nonce, now));
  }

  lemma RunSnoc(events: seq<Event>, ev: Event, fp: string)
    ensures LogsAfter(events + [ev]) == After(LogsAfter(events), ev)
    ensures Granted(events + [ev], fp)
         == if Sender(ev) == fp && Accepts(LogsAfter(events), ev) then Granted(events, fp) + [StampOf(ev)]
            else Granted(events, fp)
  {
    assert (events + [ev])[..|events|] == events;
  }

  lemma StepKeepsFaithful(logs: Logs, granted: Log, was: int, ev: Event, fp: string)
    requires Faithful(LogOf(logs, fp), granted, was) && was <= ev.now.Floor
    ensures Faithful(LogOf(After(logs, ev), fp),
                     if Sender(ev) == fp && Accepts(logs, ev) then granted + [StampOf(ev)] else granted,
                     ev.now.Floor)
  {
    if Sender(ev) == fp && Accepts(logs, ev) {
      GrantKeepsFaithful(LogOf(logs, fp), granted, was, StampOf(ev).nonce, ev.now.Floor);
    }
  }

  /** In every run with a non-decreasing clock, every sender's log is faithful. */
  lemma {:induction false} EveryRunIsFaithful(events: seq<Event>, fp: string, next: int)
    requires ClockRuns(events)
    ensures Faithful(LogOf(LogsAfter(events), fp), Granted(events, fp), Now(events, next))
  {
    if events != [] {
      var before, ev := events[..|events| - 1], events[|events| - 1];
      var now := ev.now.Floor;
      EveryRunIsFaithful(before, fp, now);
      assert before + [ev] == events;
      RunSnoc(before, ev, fp);
      StepKeepsFaithful(LogsAfter(before), Granted(before, fp), Now(before, now), ev, fp);
    }
  }

  /** A granted nonce is refused again within 300 seconds, as long as no more than
      500 later grants to the same sender came between. */
  lemma RecentNonceIsRefused(events: seq<Event>, fp: string, k: nat, ev: Event)
    requires ClockRuns(events + [ev])
    requires k < |Granted(events, fp)|
    requires Sender(ev) == fp && StampOf(ev).nonce == Granted(events, fp)[k].nonce
    requires StampOf(ev).at <= Granted(events, fp)[k].at + TOLERANCE_SECS
    requires |Granted(events, fp)| - 1 - k <= MAX_NONCES_PER_SENDER / 2
    ensures !Accepts(LogsAfter(events), ev)
  {
    ClockPrefix(events, ev);
    EveryRunIsFaithful(events, fp, StampOf(ev).at);
    KeptIsMentioned(LogOf(LogsAfter(events), fp), Granted(events, fp), Now(events, StampOf(ev).at), k, StampOf(ev).at);
  }

  lemma ClockPrefix(events: seq<Event>, ev: Event)
    requires ClockRuns(events + [ev])
    ensures ClockRuns(events) && Now(events, StampOf(ev).at) <= StampOf(ev).at
  {
    assert forall i :: 0 <= i < |events| ==> events[i] == (events + [ev])[i];
    assert (events + [ev])[|events|] == ev;
  }

  lemma KeptIsMentioned(log: Log, granted: Log, was: int, k: nat, now: int)
    requires Faithful(log, granted, was) && was <= now && k < |granted|
    requires now <= granted[k].at + TOLERANCE_SECS && |granted| - 1 - k <= MAX_NONCES_PER_SENDER / 2
    ensures Mentions(log, granted[k].nonce)
  {
    assert log[k - (|granted| - |log|)] == granted[k];
  }

  // ---------------------------------------------------------------- //
  //  Replay of a whole store request                                  //
  // ---------------------------------------------------------------- //

  lemma {:induction false} RunConcat(events: seq<Event>, more: seq<Event>, fp: string)
    ensures Granted(events, fp) <= Granted(events + more, fp)
    decreases |more|
  {
    if more == [] {
      assert events + more == events;
    } else {
      var before, last := more[..|more| - 1], more[|more| - 1];
      assert events + more == events + before + [last];
      RunConcat(events, before, fp);
      RunSnoc(events + before, last, fp);
    }
  }

  /** The run accepted the request it ends with. */
  predicate EndsAccepting(events: seq<Event>) {
    && events != [] && events[|events| - 1].Submit?
    && Accepts(LogsAfter(events[..|events| - 1]), events[|events| - 1])
  }

  /** A later submission of the same request after at most n further grants to the
      same sender. */
  predicate IsReplay(events: seq<Event>, more: seq<Event>, again: Event, n: nat)
    requires EndsAccepting(events)
  {
    var first := events[|events| - 1];
    && ClockRuns(events + more + [again])
    && again.Submit? && again.req == first.req
    && |Granted(events + more, first.req.fp)| - |Granted(events, first.req.fp)| <= n
  }

  /** An accepted request whose timestamp does not lie in a later second than its
      acceptance is never accepted again. */
  lemma ReplayIsRefused(events: seq<Event>, more: seq<Event>, again: Event)
    requires EndsAccepting(events) && IsReplay(events, more, again, MAX_NONCES_PER_SENDER / 2)
    requires again.req.timestamp.Floor <= events[|events| - 1].now.Floor
    ensures !Accepts(LogsAfter(events + more), again)
  {
    var first := events[|events| - 1];
    var fp := first.req.fp;
    var granted := Granted(events, fp);
    RunConcat(events, more, fp);
    assert Granted(events + more, fp)[|granted| - 1] == granted[|granted| - 1] == StampOf(first);
    if TimestampFresh(again.req.timestamp, again.now) {
      assert again.now.Floor <= again.req.timestamp.Floor + TOLERANCE_SECS;
      RecentNonceIsRefused(events + more, fp, |granted| - 1, again);
    }
  }

  /** A nonce longer than any in the log. */
  function Longer(log: Log): (r: string)
    ensures forall i :: 0 <= i < |log| ==> |log[i].nonce| < |r|
  {
    if log == [] then "x"
    else
      var rest := Longer(log[1..]);
      var mine := log[0].nonce + "x";
      if |mine| >= |rest| then mine else rest
  }

  lemma LongerIsNew(log: Log, extra: Stamp)
    ensures !Mentions(log, Longer(log + [extra])) && Longer(log + [extra]) != extra.nonce
  {
    var known := log + [extra];
    assert known[|log|] == extra;
    assert forall i :: 0 <= i < |log| ==> known[i] == log[i];
  }

  /** Once every stamp is out of date, the next one to be recorded is alone. */
  lemma StaleLogIsCleared(log: Log, granted: Log, was: int, nonce: string, now: int)
    requires Faithful(log, granted, was) && was < now - TOLERANCE_SECS
    ensures Recorded(log, nonce, now) == [Stamp(nonce, now)]
  {
    forall s | s in log ensures !Since(now - TOLERANCE_SECS)(s) {
      assert s in granted;
    }
    FilterNone(log, Since(now - TOLERANCE_SECS));
  }

  lemma ClockSnoc(events: seq<Event>, ev: Event)
    requires ClockRuns(events) && events != [] && events[|events| - 1].now <= ev.now
    ensures ClockRuns(events + [ev])
  {
    assert forall i :: 0 <= i < |events| ==> events[i].now <= events[|events| - 1].now;
  }

  lemma GrantClearsOldLog(events: seq<Event>, fp: string, nonce: string, now: real)
    requires ClockRuns(events) && events != []
    requires !Mentions(LogOf(LogsAfter(events), fp), nonce)
    requires events[|events| - 1].now.Floor < now.Floor - TOLERANCE_SECS
    ensures LogOf(LogsAfter(events + [Consult(fp, nonce, now)]), fp) == [Stamp(nonce, now.Floor)]
    ensures |Granted(events + [Consult(fp, nonce, now)], fp)| == |Granted(events, fp)| + 1
  {
    RunSnoc(events, Consult(fp, nonce, now), fp);
    EveryRunIsFaithful(events, fp, 0);
    StaleLogIsCleared(LogOf(LogsAfter(events), fp), Granted(events, fp), events[|events| - 1].now.Floor,
                      nonce, now.Floor);
  }

  /** The first whole second after the window of an acceptance is still fresh for
      a timestamp from a later second than it. */
  lemma LateButFresh(timestamp: real, now: real) returns (late: real)
    requires TimestampFresh(timestamp, now) && timestamp.Floor > now.Floor
    ensures now <= late && late.Floor == now.Floor + TOLERANCE_SECS + 1 && TimestampFresh(timestamp, late)
  {
    late := (now.Floor + TOLERANCE_SECS + 1) as real;
  }

  /** A request dated ahead of the second it is accepted in is accepted again: one
      further grant, 301 seconds later, has pushed its nonce out of the log. */
  lemma AheadOfClockIsReplayable(events: seq<Event>) returns (more: seq<Event>, again: Event)
    requires ClockRuns(events) && EndsAccepting(events)
    requires events[|events| - 1].req.timestamp.Floor > events[|events| - 1].now.Floor
    ensures IsReplay(events, more, again, 1)
    ensures Accepts(LogsAfter(events + more), again)
  {
    var first := events[|events| - 1];
    var fp, log := first.req.fp, LogOf(LogsAfter(events), first.req.fp);
    var late := LateButFresh(first.req.timestamp, first.now);
    var other := Longer(log + [StampOf(first)]);
    LongerIsNew(log, StampOf(first));
    more, again := [Consult(fp, other, late)], Submit(first.req, late);
    GrantClearsOldLog(events, fp, other, late);
    ClockSnoc(events, more[0]);
    ClockSnoc(events + more, again);
  }

  /** Replay protection of an accepted store request is complete, within 500
      further grants to its sender, if and only if its timestamp does not lie in
      a later second than its acceptance. */
  lemma ReplayProtectionExact(events: seq<Event>)
    requires ClockRuns(events) && EndsAccepting(events)
    ensures (forall more, again :: IsReplay(events, more, again, MAX_NONCES_PER_SENDER / 2) ==>
               !Accepts(LogsAfter(events + more), again))
       <==> events[|events| - 1].req.timestamp.Floor <= events[|events| - 1].now.Floor
  {
    if events[|events| - 1].req.timestamp.Floor <= events[|events| - 1].now.Floor {
      forall more, again | IsReplay(events, more, again, MAX_NONCES_PER_SENDER / 2)
        ensures !Accepts(LogsAfter(events + more), again)
      {
        ReplayIsRefused(events, more, again);
      }
    } else {
      var more, again := AheadOfClockIsReplayable(events);
      assert IsReplay(events, more, again, MAX_NONCES_PER_SENDER / 2);
    }
  }

  // ---------------------------------------------------------------- //
  //  500 is the most                                                  //
  // ---------------------------------------------------------------- //

  /** The nonce of the given request at place 499, and a longer one of its own at
      every other place. */
  function FloodNonce(req: Request, i: nat): (r: string)
    ensures i != 499 ==> |r| == |req.nonce| + 1 + i
  {
    if i == 499 then req.nonce else seq(|req.nonce| + 1 + i, _ => 'x')
  }

  /** k grants at one moment: the request is the 500th. */
  function Flood(req: Request, now: real, k: nat): (r: seq<Event>)
    ensures |r| == k && forall i :: 0 <= i < k ==> r[i].now == now
  {
    seq(k, i requires 0 <= i < k =>
      if i == 499 then Submit(req, now) else Consult(req.fp, FloodNonce(req, i), now))
  }

  function FloodStamps(req: Request, now: real, k: nat): (r: Log)
    ensures |r| == k && forall i :: 0 <= i < k ==> r[i] == Stamp(FloodNonce(req, i), now.Floor)
  {
    seq(k, i requires 0 <= i < k => Stamp(FloodNonce(req, i), now.Floor))
  }

  lemma FloodNext(req: Request, now: real, k: nat)
    ensures Flood(req, now, k + 1) == Flood(req, now, k) + [Flood(req, now, k + 1)[k]]
    ensures var ev := Flood(req, now, k + 1)[k];
            Sender(ev) == req.fp && StampOf(ev) == Stamp(FloodNonce(req, k), now.Floor)
    ensures FloodStamps(req, now, k + 1) == FloodStamps(req, now, k) + [Stamp(FloodNonce(req, k), now.Floor)]
  {
  }

  lemma FloodNonceIsNew(req: Request, now: real, k: nat, from: nat)
    requires from <= k
    ensures !Mentions(FloodStamps(req, now, k)[from..], FloodNonce(req, k))
  {
    forall i | from <= i < k ensures FloodNonce(req, i) != FloodNonce(req, k) {
    }
  }

  lemma FloodStart(req: Request, now: real)
    ensures LogOf(LogsAfter(Flood(req, now, 0)), req.fp) == [] == Granted(Flood(req, now, 0), req.fp)
    ensures FloodStamps(req, now, 0) == []
  {
    assert Flood(req, now, 0) == [];
  }

  /** The first thousand grants are all kept. */
  lemma {:induction false} FloodIsKept(req: Request, now: real, k: nat)
    requires req.signatureOk && TimestampFresh(req.timestamp, now) && k <= MAX_NONCES_PER_SENDER
    ensures LogOf(LogsAfter(Flood(req, now, k)), req.fp) == FloodStamps(req, now, k)
    ensures Granted(Flood(req, now, k), req.fp) == FloodStamps(req, now, k)
  {
    hide Flood, FloodStamps, FloodNonce, LogsAfter, Granted, Accepts, After, TimestampFresh;
    if k == 0 {
      FloodStart(req, now);
    } else {
      FloodIsKept(req, now, k - 1);
      FloodNext(req, now, k - 1);
      FloodStep(req, now, k - 1);
      RunSnoc(Flood(req, now, k - 1), Flood(req, now, k)[k - 1], req.fp);
    }
  }

  /** One more grant: the log is halved if it is full. */
  lemma FloodStep(req: Request, now: real, k: nat)
    requires req.signatureOk && TimestampFresh(req.timestamp, now) && k <= MAX_NONCES_PER_SENDER
    requires LogOf(LogsAfter(Flood(req, now, k)), req.fp) == FloodStamps(req, now, k)
    ensures var logs, ev := LogsAfter(Flood(req, now, k)), Flood(req, now, k + 1)[k];
            && Accepts(logs, ev)
            && LogOf(After(logs, ev), req.fp)
            == Halved(FloodStamps(req, now, k)) + [Stamp(FloodNonce(req, k), now.Floor)]
  {
    var log := FloodStamps(req, now, k);
    FloodNext(req, now, k);
    FloodNonceIsNew(req, now, k, 0);
    assert log[0..] == log;
    FilterAll(log, Since(now.Floor - TOLERANCE_SECS));
  }

  /** The log of the first thousand and one: the first 500 are gone. */
  function FloodRest(req: Request, now: real): Log {
    FloodStamps(req, now, 1000)[500..] + [Stamp(FloodNonce(req, 1000), now.Floor)]
  }

  lemma FullIsHalved(log: Log)
    requires |log| == MAX_NONCES_PER_SENDER
    ensures Halved(log) == log[500..]
  {
  }

  lemma FloodIsHalved(req: Request, now: real)
    requires req.signatureOk && TimestampFresh(req.timestamp, now)
    ensures Granted(Flood(req, now, 1001), req.fp) == FloodStamps(req, now, 1001)
    ensures LogOf(LogsAfter(Flood(req, now, 1001)), req.fp) == FloodRest(req, now)
  {
    hide Flood, FloodStamps, FloodNonce, LogsAfter, Granted, Accepts, After, TimestampFresh, Halved, LogOf;
    FloodIsKept(req, now, 1000);
    FloodNext(req, now, 1000);
    FloodStep(req, now, 1000);
    FullIsHalved(FloodStamps(req, now, 1000));
    RunSnoc(Flood(req, now, 1000), Flood(req, now, 1001)[1000], req.fp);
  }

  lemma FloodRestForgets(req: Request, now: real)
    ensures !Mentions(FloodRest(req, now), req.nonce)
  {
    var log := FloodRest(req, now);
    forall i | 0 <= i < |log| ensures log[i].nonce != req.nonce {
      assert log[i].nonce == FloodNonce(req, i + 500);
    }
  }

  lemma FloodPrefix(req: Request, now: real, j: nat, k: nat)
    requires j <= k
    ensures Flood(req, now, k)[..j] == Flood(req, now, j)
    ensures Flood(req, now, j) + Flood(req, now, k)[j..] == Flood(req, now, k)
  {
  }

  lemma FloodRequest(req: Request, now: real)
    ensures Flood(req, now, 500)[499] == Submit(req, now)
  {
  }

  lemma FloodEndsAccepting(req: Request, now: real)
    requires req.signatureOk && TimestampFresh(req.timestamp, now)
    ensures EndsAccepting(Flood(req, now, 500)) && Flood(req, now, 500)[499] == Submit(req, now)
  {
    hide Flood, FloodStamps, FloodNonce, TimestampFresh, LogsAfter, Granted, Accepts;
    FloodRequest(req, now);
    FloodPrefix(req, now, 499, 500);
    FloodIsKept(req, now, 499);
    FloodStep(req, now, 499);
  }

  lemma ForgottenIsAccepted(logs: Logs, req: Request, now: real)
    requires req.signatureOk && TimestampFresh(req.timestamp, now) && !Mentions(LogOf(logs, req.fp), req.nonce)
    ensures Accepts(logs, Submit(req, now))
  {
  }

  /** Every signed request has a run in which it is accepted again at once after 501
      further grants. */
  lemma FloodIsReplay(req: Request, now: real) returns (events: seq<Event>, more: seq<Event>, again: Event)
    requires req.signatureOk && TimestampFresh(req.timestamp, now)
    ensures EndsAccepting(events) && events[|events| - 1] == Submit(req, now)
    ensures IsReplay(events, more, again, MAX_NONCES_PER_SENDER / 2 + 1)
    ensures Accepts(LogsAfter(events + more), again)
  {
    hide Flood, FloodStamps, FloodNonce, FloodRest, LogsAfter, Granted, TimestampFresh, Accepts, EndsAccepting;
    events, more, again := Flood(req, now, 500), Flood(req, now, 1001)[500..], Submit(req, now);
    FloodPrefix(req, now, 500, 1001);
    FloodEndsAccepting(req, now);
    FloodIsKept(req, now, 500);
    FloodIsHalved(req, now);
    FloodRestForgets(req, now);
    ForgottenIsAccepted(LogsAfter(events + more), req, now);
  }

  /** No request that was not dated ahead is accepted again within n grants. */
  ghost predicate ProtectsFor(n: nat) {
    forall events: seq<Event>, more: seq<Event>, again: Event ::
      && EndsAccepting(events) && IsReplay(events, more, again, n)
      && again.req.timestamp.Floor <= events[|events| - 1].now.Floor
      ==> !Accepts(LogsAfter(events + more), again)
  }

  /** Replay protection reaches over 500 further grants and no more. */
  lemma FiveHundredIsTight(n: nat)
    ensures ProtectsFor(n) <==> n <= MAX_NONCES_PER_SENDER / 2
  {
    if n <= MAX_NONCES_PER_SENDER / 2 {
      forall events: seq<Event>, more: seq<Event>, again: Event |
        && EndsAccepting(events) && IsReplay(events, more, again, n)
        && again.req.timestamp.Floor <= events[|events| - 1].now.Floor
        ensures !Accepts(LogsAfter(events + more), again)
      {
        assert IsReplay(events, more, again, MAX_NONCES_PER_SENDER / 2);
        ReplayIsRefused(events, more, again);
      }
    } else {
      var events, more, again := FloodIsReplay(Request("", "", 0.0, true), 0.0);
      assert IsReplay(events, more, again, n);
    }
  }
}
