/** Whole runs of the delivery model: what keeps the stored sessions in step, and what
    ends the agreement for good. */
module DeliveryRuns {

  import opened Client
  import opened Delivery
  import opened Ratchet
  import Padding

  datatype MailMove = MailMove(byBob: bool, action: MailAction)

  ghost function StepBy(env: Environment, alice: Party, bob: Party, w: Mail, m: MailMove): Mail {
    if m.byBob then Moved(env, bob, alice, w.Flip(), m.action).Flip()
    else Moved(env, alice, bob, w, m.action)
  }

  ghost function MailRun(env: Environment, alice: Party, bob: Party, moves: seq<MailMove>): Mail {
    if moves == [] then NO_MAIL
    else StepBy(env, alice, bob, MailRun(env, alice, bob, moves[..|moves| - 1]), moves[|moves| - 1])
  }

  ghost predicate AllowedRun(env: Environment, alice: Party, bob: Party, moves: seq<MailMove>) {
    moves != [] ==>
      var before, m := moves[..|moves| - 1], moves[|moves| - 1];
      var w := MailRun(env, alice, bob, before);
      && AllowedRun(env, alice, bob, before)
      && if m.byBob then Allowed(env, bob, alice, w.Flip(), m.action) else Allowed(env, alice, bob, w, m.action)
  }

  /** No move of the run was a damaging one. */
  ghost predicate Undamaged(env: Environment, alice: Party, bob: Party, moves: seq<MailMove>) {
    moves != [] ==>
      var before, m := moves[..|moves| - 1], moves[|moves| - 1];
      var w := MailRun(env, alice, bob, before);
      && Undamaged(env, alice, bob, before)
      && !if m.byBob then Damages(env, bob, alice, w.Flip(), m.action) else Damages(env, alice, bob, w, m.action)
  }

  // ---------------------------------------------------------------- //
  //  Lost messages                                                    //
  // ---------------------------------------------------------------- //

  /** Messages to bob that his session could have read, but that are neither read nor
      still to be read. */
  function LostToBob(w: Mail): int {
    |w.sentByAlice| - |w.readByBob| - |w.toBob.unread|
  }

  function LostToAlice(w: Mail): int {
    LostToBob(w.Flip())
  }

  lemma {:induction false} WithoutMultiset(unread: seq<Outgoing>, out: Outgoing)
    requires out in unread
    ensures multiset(Without(unread, out)) == multiset(unread) - multiset{out}
    ensures |Without(unread, out)| == |unread| - 1
  {
    assert unread == [unread[0]] + unread[1..];
    if unread[0] != out {
      WithoutMultiset(unread[1..], out);
    }
  }

  /** One entry of a fetch finds nothing lost again; rest is what is still to come of
      the genuine messages handed out. */
  lemma ItemFindsNothing(env: Environment, me: Party, peer: Party, w: Mail, item: Item, rest: seq<Outgoing>)
    requires multiset((if item.Genuine? then [item.out] else []) + rest) <= multiset(w.toAlice.unread)
    ensures var v := Worked(env, me, peer, w, item);
            && LostToAlice(v) >= LostToAlice(w) && LostToBob(v) == LostToBob(w)
            && multiset(rest) <= multiset(v.toAlice.unread)
  {
    if item.Genuine? {
      assert multiset([item.out] + rest) == multiset{item.out} + multiset(rest);
      assert item.out in multiset(w.toAlice.unread);
      WithoutMultiset(w.toAlice.unread, item.out);
    }
  }

  lemma {:induction false} FetchFindsNothing(env: Environment, me: Party, peer: Party, w: Mail,
                                             answer: seq<Item>, k: nat)
    requires HandsOut(w.toAlice, answer) && k <= |answer|
    ensures var v := WorkedTo(env, me, peer, w, answer, k);
            && LostToAlice(v) >= LostToAlice(w) && LostToBob(v) == LostToBob(w)
            && multiset(Coming(answer, k)) <= multiset(v.toAlice.unread)
  {
    hide Worked, Coming;
    if k == 0 {
      ComingEnds(answer);
    } else {
      FetchFindsNothing(env, me, peer, w, answer, k - 1);
      ComingAt(answer, k - 1);
      ItemFindsNothing(env, me, peer, WorkedTo(env, me, peer, w, answer, k - 1), answer[k - 1],
                       Coming(answer, k));
    }
  }

  /** No move finds a lost message again, and dropping unread ones loses them. */
  lemma MoveFindsNothing(env: Environment, me: Party, peer: Party, w: Mail, a: MailAction)
    requires Allowed(env, me, peer, w, a)
    ensures var v := Moved(env, me, peer, w, a);
            && LostToAlice(v) >= LostToAlice(w)
                                 + (if a.Discard? then |w.toAlice.unread| - |a.rest.unread| else 0)
            && LostToBob(v) >= LostToBob(w)
  {
    if a.Fetch? {
      FetchFindsNothing(env, me, peer, w, a.answer, |a.answer|);
    }
  }

  // ---------------------------------------------------------------- //
  //  Strangers in a session                                           //
  // ---------------------------------------------------------------- //

  /** How often the session with a peer accepted something that was not one of the
      peer's unread messages. */
  function Strangers(w: Mail, peer: Party): int {
    Accepted(w.alice, peer.nid) - |w.readByAlice|
  }

  function Accepted(sessions: Sessions, nid: string): nat {
    if nid in sessions then sessions[nid].recvMessageNumber else 0
  }

  lemma DecryptCounts(env: Environment, me: Party, sessions: Sessions, entry: RelayEntry, nid: string)
    ensures var (r, after) := RelayDecrypt(env, me, sessions, entry);
            Accepted(after, nid)
            == Accepted(sessions, nid) + if r.Ok? && SenderOf(env, entry) == nid then 1 else 0
  {
  }

  /** An entry from elsewhere counts if and only if it is accepted. */
  lemma ItemStrangers(env: Environment, me: Party, peer: Party, w: Mail, item: Item)
    ensures Strangers(Worked(env, me, peer, w, item), peer)
         == Strangers(w, peer)
          + if item.Foreign? && !Harmless(env, me, peer, w.alice, item.entry) then 1 else 0
  {
    hide RelayDecrypt, Accepted, SenderOf;
    DecryptCounts(env, me, w.alice, item.Entry(), peer.nid);
  }

  lemma {:induction false} FetchStrangers(env: Environment, me: Party, peer: Party, w: Mail,
                                          answer: seq<Item>, k: nat)
    requires k <= |answer|
    ensures Strangers(WorkedTo(env, me, peer, w, answer, k), peer) >= Strangers(w, peer)
    ensures (exists i :: 0 <= i < k && answer[i].Foreign?
               && !Harmless(env, me, peer, WorkedTo(env, me, peer, w, answer, i).alice, answer[i].entry)) ==>
              Strangers(WorkedTo(env, me, peer, w, answer, k), peer) > Strangers(w, peer)
  {
    hide Worked, Harmless, Strangers;
    if k > 0 {
      FetchStrangers(env, me, peer, w, answer, k - 1);
      ItemStrangers(env, me, peer, WorkedTo(env, me, peer, w, answer, k - 1), answer[k - 1]);
    }
  }

  /** No move takes a stranger back. */
  lemma MoveStrangers(env: Environment, me: Party, peer: Party, w: Mail, a: MailAction)
    ensures Strangers(Moved(env, me, peer, w, a), peer) >= Strangers(w, peer)
    ensures a.Fetch? && Damages(env, me, peer, w, a) ==>
              Strangers(Moved(env, me, peer, w, a), peer) > Strangers(w, peer)
    ensures Strangers(Moved(env, me, peer, w, a).Flip(), me) == Strangers(w.Flip(), me)
  {
    if a.Fetch? {
      FetchStrangers(env, me, peer, w, a.answer, |a.answer|);
      FetchIsClientFetch(env, me, peer, w, a.answer);
    }
  }

  // ---------------------------------------------------------------- //
  //  Two openings                                                     //
  // ---------------------------------------------------------------- //

  /** Both sessions were opened by a first message of their own holder. */
  predicate BothOpened(alice: Party, bob: Party, w: Mail) {
    && bob.nid in w.alice && alice.nid in w.bob
    && w.alice[bob.nid].isInitiator == w.bob[alice.nid].isInitiator
  }

  /** A session keeps its role. */
  predicate KeepsRole(nid: string, s: Sessions, t: Sessions) {
    nid in s ==> nid in t && t[nid].isInitiator == s[nid].isInitiator
  }

  lemma DecryptKeepsRole(env: Environment, me: Party, sessions: Sessions, entry: RelayEntry, nid: string)
    ensures KeepsRole(nid, sessions, RelayDecrypt(env, me, sessions, entry).1)
  {
  }

  lemma {:induction false} FetchKeepsRole(env: Environment, me: Party, peer: Party, w: Mail, answer: seq<Item>, k: nat)
    requires k <= |answer|
    ensures KeepsRole(peer.nid, w.alice, WorkedTo(env, me, peer, w, answer, k).alice)
  {
    if k > 0 {
      FetchKeepsRole(env, me, peer, w, answer, k - 1);
      var v := WorkedTo(env, me, peer, w, answer, k - 1);
      DecryptKeepsRole(env, me, v.alice, answer[k - 1].Entry(), peer.nid);
    }
  }

  lemma MoveKeepsRole(env: Environment, me: Party, peer: Party, w: Mail, a: MailAction)
    ensures KeepsRole(peer.nid, w.alice, Moved(env, me, peer, w, a).alice)
    ensures Moved(env, me, peer, w, a).bob == w.bob
  {
    if a.Fetch? {
      FetchKeepsRole(env, me, peer, w, a.answer, |a.answer|);
      FetchIsClientFetch(env, me, peer, w, a.answer);
    }
  }

  // ---------------------------------------------------------------- //
  //  Damage                                                           //
  // ---------------------------------------------------------------- //

  /** A message is lost, a stranger was accepted, or both opened a session. */
  predicate Broken(alice: Party, bob: Party, w: Mail) {
    || LostToAlice(w) > 0 || LostToBob(w) > 0
    || Strangers(w, bob) > 0 || Strangers(w.Flip(), alice) > 0
    || BothOpened(alice, bob, w)
  }

  /** Nothing was read that was not there to be read. */
  predicate Sane(alice: Party, bob: Party, w: Mail) {
    LostToAlice(w) >= 0 && LostToBob(w) >= 0 && Strangers(w, bob) >= 0 && Strangers(w.Flip(), alice) >= 0
  }

  lemma CommittedIsWhole(env: Environment, alice: Party, bob: Party, w: Mail)
    requires Committed(env, alice, bob, w)
    ensures LostToAlice(w) == LostToBob(w) == Strangers(w, bob) == Strangers(w.Flip(), alice) == 0
    ensures !Broken(alice, bob, w)
  {
    if bob.nid in w.alice || alice.nid in w.bob {
      var a := View(env, alice, bob, w.alice, w.toAlice.unread).value;
      var b := View(env, bob, alice, w.bob, w.toBob.unread).value;
      assert MailLane(env, alice, a, b, bob.sk, w.toBob.unread, w.sentByAlice, w.readByBob);
      assert MailLane(env, bob, b, a, alice.sk, w.toAlice.unread, w.sentByBob, w.readByAlice);
      assert Accounted(env, alice, w.toBob.unread, w.sentByAlice, w.readByBob);
      assert Accounted(env, bob, w.toAlice.unread, w.sentByBob, w.readByAlice);
    }
  }

  /** A broken agreement is never mended. */
  lemma MoveStaysBroken(env: Environment, me: Party, peer: Party, w: Mail, a: MailAction)
    requires Allowed(env, me, peer, w, a) && Sane(me, peer, w)
    ensures Sane(me, peer, Moved(env, me, peer, w, a))
    ensures Broken(me, peer, w) ==> Broken(me, peer, Moved(env, me, peer, w, a))
  {
    if a.Discard? {
      AllowedRest(env, me, peer, w, a);
    }
    hide Moved, Allowed, Strangers, LostToBob;
    MoveFindsNothing(env, me, peer, w, a);
    MoveStrangers(env, me, peer, w, a);
    MoveKeepsRole(env, me, peer, w, a);
  }

  lemma AllowedRest(env: Environment, me: Party, peer: Party, w: Mail, a: MailAction)
    requires Allowed(env, me, peer, w, a) && a.Discard?
    ensures |a.rest.unread| <= |w.toAlice.unread|
    ensures Damages(env, me, peer, w, a) ==> |a.rest.unread| < |w.toAlice.unread|
  {
  }

  /** Whoever alone holds a session has opened it. */
  lemma LoneSessionOpened(env: Environment, me: Party, peer: Party, w: Mail)
    requires Committed(env, me, peer, w) && peer.nid !in w.alice && me.nid in w.bob
    ensures w.bob[me.nid].isInitiator
  {
    assert View(env, me, peer, w.alice, w.toAlice.unread).Ok?;
  }

  lemma DamageBreaks(env: Environment, me: Party, peer: Party, w: Mail, a: MailAction)
    requires env.Sound() && Committed(env, me, peer, w)
    requires Allowed(env, me, peer, w, a) && Damages(env, me, peer, w, a)
    ensures Broken(me, peer, Moved(env, me, peer, w, a))
  {
    CommittedIsWhole(env, me, peer, w);
    match a
    case Post(message, draw, _) => LoneSessionOpened(env, me, peer, w);
    case Inject(_) =>
    case Fetch(_) => MoveStrangers(env, me, peer, w, a);
    case Discard(_) => MoveFindsNothing(env, me, peer, w, a);
  }

  /** A move keeps the agreement if and only if it is not a damaging one. */
  lemma MoveExact(env: Environment, me: Party, peer: Party, w: Mail, a: MailAction)
    requires env.Sound() && env.p.HonestPair(peer.pk, peer.sk) && peer.nid != ""
    requires Committed(env, me, peer, w) && Allowed(env, me, peer, w, a)
    ensures Committed(env, me, peer, Moved(env, me, peer, w, a)) <==> !Damages(env, me, peer, w, a)
  {
    if Damages(env, me, peer, w, a) {
      DamageBreaks(env, me, peer, w, a);
      if Committed(env, me, peer, Moved(env, me, peer, w, a)) {
        CommittedIsWhole(env, me, peer, Moved(env, me, peer, w, a));
      }
    } else {
      MoveCommits(env, me, peer, w, a);
    }
  }

  /** A purge keeps the agreement if and only if it drops no unread message. */
  lemma PurgeExact(env: Environment, me: Party, peer: Party, w: Mail)
    requires env.Sound() && env.p.HonestPair(peer.pk, peer.sk) && peer.nid != ""
    requires Committed(env, me, peer, w)
    ensures Committed(env, me, peer, Moved(env, me, peer, w, PURGE)) <==> w.toAlice.unread == []
  {
    MoveExact(env, me, peer, w, PURGE);
  }

  /** Once the peer has written, a saved message of mine keeps the agreement if and only
      if I already hold the session. */
  lemma FirstPostExact(env: Environment, me: Party, peer: Party, w: Mail, message: string, draw: Draw)
    requires env.Sound() && env.p.HonestPair(peer.pk, peer.sk) && peer.nid != ""
    requires Committed(env, me, peer, w) && me.nid in w.bob
    requires |env.p.utf8Encode(message)| <= Padding.MAX_MESSAGE
    ensures Committed(env, me, peer, Moved(env, me, peer, w, Post(message, draw, Saved))) <==> peer.nid in w.alice
  {
    MoveExact(env, me, peer, w, Post(message, draw, Saved));
  }

  /** A fetch keeps the agreement if and only if nothing but the peer's unread messages
      is accepted into the peer's session. */
  lemma FetchExact(env: Environment, me: Party, peer: Party, w: Mail, answer: seq<Item>)
    requires env.Sound() && env.p.HonestPair(peer.pk, peer.sk) && peer.nid != ""
    requires Committed(env, me, peer, w) && HandsOut(w.toAlice, answer)
    ensures Committed(env, me, peer, Moved(env, me, peer, w, Fetch(answer)))
       <==> HarmlessInTurn(env, me, peer, w, answer)
  {
    MoveExact(env, me, peer, w, Fetch(answer));
  }

  // ---------------------------------------------------------------- //
  //  Second openings                                                  //
  // ---------------------------------------------------------------- //

  /** Two openings rest on different secrets; where they do, the session that the
      second one creates refuses the peer's oldest message, every time it is handed out,
      and stays as it is. */
  lemma SecondOpeningRefuses(env: Environment, me: Party, peer: Party, w: Mail, message: string, draw: Draw)
    requires env.Sound() && peer.nid != "" && Committed(env, me, peer, w)
    requires me.nid in w.bob && peer.nid !in w.alice && KeysSeparated(env, me, peer, w, draw)
    requires |env.p.utf8Encode(message)| <= Padding.MAX_MESSAGE
    ensures var v := Posted(env, me, peer, w, message, draw);
            && Stuck(env, me, peer, v) && v.toAlice == w.toAlice
            && var (r, after) := RelayDecrypt(env, me, v.alice, w.toAlice.unread[0].entry);
               r.Err? && r.error.RatchetFailed? && after == v.alice
  {
    ReadAccounts(env, peer, w.toAlice.unread, w.sentByBob, w.readByAlice);
    var v := Posted(env, me, peer, w, message, draw);
    assert v.alice[peer.nid].recvChainKey == Opening(env, me, peer, draw).value.recvChainKey;
  }

  lemma RefusedItem(env: Environment, me: Party, peer: Party, w: Mail, item: Item)
    requires if item.Genuine? then RelayDecrypt(env, me, w.alice, item.Entry()).0.Err?
             else Harmless(env, me, peer, w.alice, item.entry)
    ensures SameSession(peer.nid, w.alice, Worked(env, me, peer, w, item).alice)
    ensures Worked(env, me, peer, w, item).toAlice == w.toAlice
  {
    if item.Foreign? {
      HarmlessKeepsSession(env, me, peer, w.alice, item.entry);
    }
  }

  /** As long as it refuses the rest of what the peer seals in the other session, too,
      it stays stuck. */
  lemma {:induction false} StuckFetch(env: Environment, me: Party, peer: Party, w: Mail, answer: seq<Item>, k: nat)
    requires Stuck(env, me, peer, w) && k <= |answer|
    requires HarmlessInTurn(env, me, peer, w, answer) && RefusedInTurn(env, me, peer, w, answer)
    ensures var v := WorkedTo(env, me, peer, w, answer, k);
            SameSession(peer.nid, w.alice, v.alice) && v.toAlice == w.toAlice && Stuck(env, me, peer, v)
  {
    hide Worked, RelayDecrypt, Harmless, Refuses;
    if k > 0 {
      StuckFetch(env, me, peer, w, answer, k - 1);
      RefusedItem(env, me, peer, WorkedTo(env, me, peer, w, answer, k - 1), answer[k - 1]);
    }
  }

  // ---------------------------------------------------------------- //
  //  Lost answers                                                     //
  // ---------------------------------------------------------------- //

  /** What a sender with a session stored without learning of it opens for a peer who
      has nothing else left to read. */
  lemma StrayIsAccepted(env: Environment, me: Party, peer: Party, w: Mail, message: string, draw: Draw,
                        entry: RelayEntry)
    requires env.Sound() && env.p.HonestPair(peer.pk, peer.sk) && me.nid != ""
    requires Committed(env, me, peer, w) && peer.nid in w.alice && w.toBob.unread == []
    requires |env.p.utf8Encode(message)| <= Padding.MAX_MESSAGE
    requires Outbound(env, me, peer, w.alice, message, draw).Ok?
    requires entry == Outbound(env, me, peer, w.alice, message, draw).value.0
    ensures SenderOf(env, entry) == me.nid
    ensures var r := RelayDecrypt(env, peer, w.bob, entry).0;
            r.Ok? && (|env.p.utf8Encode(message)| <= 511 ==> r.value == message)
  {
    var a := w.alice[peer.nid];
    var padded := PaddedText(env, message, draw.noise);
    MixedFrameOpens(env.p, a.sendChainKey, padded, peer.pk, peer.sk, draw.messageCoins, draw.nonce);
    EmptyLaneInStep(env, me, peer, w);
    WellMadeUnpads(env, me, Outgoing(message, padded, entry));
  }

  lemma EmptyLaneInStep(env: Environment, me: Party, peer: Party, w: Mail)
    requires Committed(env, me, peer, w) && peer.nid in w.alice && w.toBob.unread == []
    ensures me.nid in w.bob && w.bob[me.nid].recvChainKey == w.alice[peer.nid].sendChainKey
  {
    assert Wires([]) == [];
  }

  function AllGenuine(unread: seq<Outgoing>): (r: seq<Item>)
    ensures |r| == |unread|
  {
    seq(|unread|, i requires 0 <= i < |unread| => Genuine(unread[i]))
  }

  lemma {:induction false} AllGenuineOnly(unread: seq<Outgoing>)
    ensures Genuines(AllGenuine(unread)) == unread && Others(AllGenuine(unread)) == []
  {
    if unread != [] {
      AllGenuineOnly(unread[1..]);
      assert AllGenuine(unread)[1..] == AllGenuine(unread[1..]);
    }
  }

  lemma GenuineIsHarmless(env: Environment, me: Party, peer: Party, w: Mail, unread: seq<Outgoing>, entry: RelayEntry)
    ensures HarmlessTo(env, me, peer, w, AllGenuine(unread) + [Foreign(entry)], |unread|)
  {
  }

  /** Working through the unread messages, before one last entry. */
  lemma FetchPrefixCommits(env: Environment, me: Party, peer: Party, w: Mail, entry: RelayEntry) returns (u: Mail)
    requires peer.nid != "" && Committed(env, me, peer, w)
    ensures var answer := AllGenuine(w.toAlice.unread) + [Foreign(entry)];
            && Genuines(answer) == w.toAlice.unread && Others(answer) == [entry]
            && u == WorkedTo(env, me, peer, w, answer, |w.toAlice.unread|)
    ensures Committed(env, me, peer, u) && u.toAlice.unread == [] && u.bob == w.bob
  {
    var unread := w.toAlice.unread;
    var answer := AllGenuine(unread) + [Foreign(entry)];
    AllGenuineOnly(unread);
    GenuinesSnoc(AllGenuine(unread), Foreign(entry));
    u := WorkedTo(env, me, peer, w, answer, |unread|);
    hide Committed, WorkedTo, Genuines, Others, AllGenuine, Coming;
    assert HarmlessTo(env, me, peer, w, answer, |unread|) by {
      GenuineIsHarmless(env, me, peer, w, unread, entry);
    }
    FetchCommits(env, me, peer, w, answer, |unread|);
    PrefixIsClientFetch(env, me, peer, w, answer, |unread|);
    ComingAt(answer, |unread|);
    ComingEnds(answer);
  }

  /** What an unanswered send leaves in the peer's mailbox. */
  lemma StrayLands(env: Environment, me: Party, peer: Party, w: Mail, message: string, draw: Draw)
    returns (entry: RelayEntry)
    requires peer.nid in w.alice && |env.p.utf8Encode(message)| <= Padding.MAX_MESSAGE
    ensures Moved(env, me, peer, w, Post(message, draw, Unanswered))
         == w.(toBob := w.toBob.(other := w.toBob.other + [entry]))
    ensures Outbound(env, me, peer, w.alice, message, draw).Ok?
    ensures entry == Outbound(env, me, peer, w.alice, message, draw).value.0
  {
    entry := Outbound(env, me, peer, w.alice, message, draw).value.0;
  }

  /** By the turn of a message whose sender never learned that it was stored, the peer
      has read all the others, and accepts it. */
  lemma StrayInTurn(env: Environment, me: Party, peer: Party, w: Mail, message: string, draw: Draw)
    returns (entry: RelayEntry)
    requires env.Sound() && env.p.HonestPair(peer.pk, peer.sk) && me.nid != ""
    requires Committed(env, me, peer, w) && peer.nid in w.alice
    requires |env.p.utf8Encode(message)| <= Padding.MAX_MESSAGE
    ensures var v := Moved(env, me, peer, w, Post(message, draw, Unanswered));
            var answer := AllGenuine(w.toBob.unread) + [Foreign(entry)];
            && v == w.(toBob := w.toBob.(other := w.toBob.other + [entry]))
            && Genuines(answer) == w.toBob.unread && Others(answer) == [entry]
            && Committed(env, me, peer, v)
            && var r := RelayDecrypt(env, peer, WorkedTo(env, peer, me, v.Flip(), answer, |answer| - 1).alice, entry).0;
               r.Ok? && SenderOf(env, entry) == me.nid
               && (|env.p.utf8Encode(message)| <= 511 ==> r.value == message)
  {
    entry := StrayLands(env, me, peer, w, message, draw);
    var v := Moved(env, me, peer, w, Post(message, draw, Unanswered));
    OthersDoNotMatter(env, me, peer, w, w.toAlice, v.toBob);
    hide Moved, Committed, RelayDecrypt, WorkedTo, Genuines, Others, AllGenuine;
    CommittedFlips(env, me, peer, v);
    var u := FetchPrefixCommits(env, peer, me, v.Flip(), entry);
    CommittedFlips(env, peer, me, u);
    var again := StrayLands(env, me, peer, u.Flip(), message, draw);
    StrayIsAccepted(env, me, peer, u.Flip(), message, draw, again);
  }

  lemma LastIsNotHarmless(env: Environment, me: Party, peer: Party, w: Mail, answer: seq<Item>)
    requires answer != [] && answer[|answer| - 1].Foreign?
    requires !Harmless(env, me, peer, WorkedTo(env, me, peer, w, answer, |answer| - 1).alice,
                       answer[|answer| - 1].entry)
    ensures !HarmlessInTurn(env, me, peer, w, answer)
  {
  }

  /** A send whose answer is lost: the sender is told of a failure and keeps its old
      session, the peer reads the message all the same after those before it, and the
      agreement is over. */
  lemma LostAnswerEndsAgreement(env: Environment, me: Party, peer: Party, w: Mail, message: string, draw: Draw)
    returns (entry: RelayEntry)
    requires env.Sound() && env.p.HonestPair(me.pk, me.sk) && env.p.HonestPair(peer.pk, peer.sk) && me.nid != ""
    requires Committed(env, me, peer, w) && peer.nid in w.alice && w.toBob.other == []
    requires |env.p.utf8Encode(message)| <= Padding.MAX_MESSAGE
    ensures var v := Moved(env, me, peer, w, Post(message, draw, Unanswered));
            var answer := AllGenuine(w.toBob.unread) + [Foreign(entry)];
            && v == w.(toBob := Letterbox(w.toBob.unread, [entry])) && Committed(env, me, peer, v)
            && HandsOut(v.toBob, answer)
            && !Committed(env, peer, me, Moved(env, peer, me, v.Flip(), Fetch(answer)))
  {
    entry := StrayInTurn(env, me, peer, w, message, draw);
    var v := Moved(env, me, peer, w, Post(message, draw, Unanswered));
    var answer := AllGenuine(w.toBob.unread) + [Foreign(entry)];
    hide Moved, Committed, RelayDecrypt, WorkedTo, Genuines, Others, AllGenuine, HarmlessInTurn;
    LastIsNotHarmless(env, peer, me, v.Flip(), answer);
    CommittedFlips(env, me, peer, v);
    FetchExact(env, peer, me, v.Flip(), answer);
  }

  // ---------------------------------------------------------------- //
  //  Every run                                                        //
  // ---------------------------------------------------------------- //

  ghost predicate InOrBroken(env: Environment, alice: Party, bob: Party, w: Mail, undamaged: bool) {
    Sane(alice, bob, w) && if undamaged then Committed(env, alice, bob, w) else Broken(alice, bob, w)
  }

  lemma InOrBrokenFlips(env: Environment, alice: Party, bob: Party, w: Mail, undamaged: bool)
    ensures InOrBroken(env, alice, bob, w, undamaged) <==> InOrBroken(env, bob, alice, w.Flip(), undamaged)
  {
    CommittedFlips(env, alice, bob, w);
    hide Committed;
    assert w.Flip().Flip() == w;
  }

  lemma MoveInOrBroken(env: Environment, me: Party, peer: Party, w: Mail, a: MailAction, undamaged: bool)
    requires env.Sound() && env.p.HonestPair(peer.pk, peer.sk) && peer.nid != ""
    requires InOrBroken(env, me, peer, w, undamaged) && Allowed(env, me, peer, w, a)
    ensures InOrBroken(env, me, peer, Moved(env, me, peer, w, a), undamaged && !Damages(env, me, peer, w, a))
  {
    hide Committed, Moved, Damages, Allowed, Broken, Sane;
    MoveStaysBroken(env, me, peer, w, a);
    if !undamaged {
    } else if Damages(env, me, peer, w, a) {
      DamageBreaks(env, me, peer, w, a);
    } else {
      MoveCommits(env, me, peer, w, a);
    }
  }

  lemma {:induction false} RunInOrBroken(env: Environment, alice: Party, bob: Party, moves: seq<MailMove>)
    requires env.Sound() && env.p.HonestPair(alice.pk, alice.sk) && env.p.HonestPair(bob.pk, bob.sk)
    requires alice.nid != "" && bob.nid != ""
    requires AllowedRun(env, alice, bob, moves)
    ensures InOrBroken(env, alice, bob, MailRun(env, alice, bob, moves), Undamaged(env, alice, bob, moves))
  {
    if moves != [] {
      var before, m := moves[..|moves| - 1], moves[|moves| - 1];
      var w, undamaged := MailRun(env, alice, bob, before), Undamaged(env, alice, bob, before);
      RunInOrBroken(env, alice, bob, before);
      hide InOrBroken, Moved, Damages, Allowed;
      if m.byBob {
        InOrBrokenFlips(env, alice, bob, w, undamaged);
        MoveInOrBroken(env, bob, alice, w.Flip(), m.action, undamaged);
        InOrBrokenFlips(env, bob, alice, Moved(env, bob, alice, w.Flip(), m.action),
                        undamaged && !Damages(env, bob, alice, w.Flip(), m.action));
      } else {
        MoveInOrBroken(env, alice, bob, w, m.action, undamaged);
      }
    }
  }

  /** In every run, whatever becomes of the sends, however often a mailbox is handed out
      again and whatever others store in it, the stored sessions are in step over the
      unread messages if and only if no unread message was ever dropped, the two parties
      never both wrote first, and nothing but the peer's unread messages was ever
      accepted into a session. Once one of these has happened, no continuation brings the
      sessions together again. Nothing is assumed of what a key does with frames that
      were not sealed under it. */
  lemma EveryRunCommits(env: Environment, alice: Party, bob: Party, moves: seq<MailMove>)
    requires env.Sound() && env.p.HonestPair(alice.pk, alice.sk) && env.p.HonestPair(bob.pk, bob.sk)
    requires alice.nid != "" && bob.nid != ""
    requires AllowedRun(env, alice, bob, moves)
    ensures Committed(env, alice, bob, MailRun(env, alice, bob, moves)) <==> Undamaged(env, alice, bob, moves)
  {
    RunInOrBroken(env, alice, bob, moves);
    var w := MailRun(env, alice, bob, moves);
    hide Committed, Broken;
    if Committed(env, alice, bob, w) {
      CommittedIsWhole(env, alice, bob, w);
    }
  }

  ghost predicate ReadsInOrder(env: Environment, read: seq<string>, sent: seq<Outgoing>) {
    && |read| <= |sent|
    && forall i :: 0 <= i < |read| && |env.p.utf8Encode(sent[i].message)| <= 511 ==> read[i] == sent[i].message
  }

  lemma AccountedInOrder(env: Environment, from: Party, unread: seq<Outgoing>, sent: seq<Outgoing>, read: seq<string>)
    requires env.Sound() && Accounted(env, from, unread, sent, read)
    ensures ReadsInOrder(env, read, sent)
  {
    forall i | 0 <= i < |read| && |env.p.utf8Encode(sent[i].message)| <= 511 ensures read[i] == sent[i].message {
      WellMadeUnpads(env, from, sent[i]);
    }
  }

  lemma CommittedReadsInOrder(env: Environment, alice: Party, bob: Party, w: Mail)
    requires env.Sound() && Committed(env, alice, bob, w)
    ensures ReadsInOrder(env, w.readByBob, w.sentByAlice) && ReadsInOrder(env, w.readByAlice, w.sentByBob)
    ensures w.sentByAlice[|w.readByBob|..] == w.toBob.unread
    ensures w.sentByBob[|w.readByAlice|..] == w.toAlice.unread
  {
    assert Accounted(env, alice, w.toBob.unread, w.sentByAlice, w.readByBob);
    assert Accounted(env, bob, w.toAlice.unread, w.sentByBob, w.readByAlice);
    AccountedInOrder(env, alice, w.toBob.unread, w.sentByAlice, w.readByBob);
    AccountedInOrder(env, bob, w.toAlice.unread, w.sentByBob, w.readByAlice);
  }

  /** Both recipients read the peer's messages, in the order the relay accepted
      them, with none skipped or repeated: word for word when they are at most
      511 bytes long, and nothing is outstanding but what is unread in the mailbox. */
  lemma EveryRunReadsInOrder(env: Environment, alice: Party, bob: Party, moves: seq<MailMove>)
    requires env.Sound() && env.p.HonestPair(alice.pk, alice.sk) && env.p.HonestPair(bob.pk, bob.sk)
    requires alice.nid != "" && bob.nid != ""
    requires AllowedRun(env, alice, bob, moves) && Undamaged(env, alice, bob, moves)
    ensures var w := MailRun(env, alice, bob, moves);
            && ReadsInOrder(env, w.readByBob, w.sentByAlice)
            && ReadsInOrder(env, w.readByAlice, w.sentByBob)
            && w.sentByAlice[|w.readByBob|..] == w.toBob.unread
            && w.sentByBob[|w.readByAlice|..] == w.toAlice.unread
  {
    EveryRunCommits(env, alice, bob, moves);
    CommittedReadsInOrder(env, alice, bob, MailRun(env, alice, bob, moves));
  }
}
