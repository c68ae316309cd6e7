/**
 * Whole runs of the relay bookkeeping of client/client.c, against an independent account of what has been asked for:
 * who is linked, who provides relaying and who asked for a relay, computed from the events alone.
 */
module RelayRuns {
  import opened Common
  import opened Relays

  /**
   * A peer arrives or leaves, is connected to afresh (which may fail), comes up (as one allowed to be a relay server or
   * not) or goes down, turns out to need a relay, or is reset.
   */
  datatype Event =
    | Arrive(p: nat) | Leave(p: nat)
    | Connect(p: nat, ok: bool)
    | Up(p: nat, server: bool) | Down(p: nat)
    | Need(p: nat)
    | Reset(p: nat)

  const START := State(map[], [], [])

  predicate Enabled(s: State, e: Event) {
    && (e.Arrive? <==> e.p !in s.peers)
    && (e.Up? || e.Down? ==> Of(s, e.p).haveLink)
  }

  ghost function Step(s: State, e: Event): State
    requires Inv(s) && Enabled(s, e)
  {
    match e
    case Arrive(p) => With(s, p, NEW_PEER)
    case Leave(p) => (var t := Cleanup(s, p); t.(peers := t.peers - {p}))
    case Connect(p, ok) =>
      CleanupKeeps(s, p);
      var t := Cleanup(s, p);
      if ok then InitLink(t, p) else Cleanup(t, p)
    case Up(p, server) => if server && !Of(s, p).isRelay then EnableProvider(s, p) else s
    case Down(p) => if Of(s, p).isRelay then DisableProvider(s, p) else s
    case Need(p) => if Of(s, p).isRelay then s else NeedRelay(s, p)
    case Reset(p) => Cleanup(s, p)
  }

  // ---- the account ----

  datatype Account = Account(known: set<nat>, linked: set<nat>, providers: set<nat>, asked: set<nat>)

  function Forget(a: Account, p: nat): Account {
    Account(a.known, a.linked - {p}, a.providers - {p}, a.asked - {p})
  }

  function Record(a: Account, e: Event): Account {
    match e
    case Arrive(p) => a.(known := a.known + {p})
    case Leave(p) => Forget(a, p).(known := a.known - {p})
    case Connect(p, ok) => (var b := Forget(a, p); if ok then b.(linked := b.linked + {p}) else b)
    case Up(p, server) => if server then a.(providers := a.providers + {p}) else a
    case Down(p) => a.(providers := a.providers - {p})
    case Need(p) => if p in a.providers then a else a.(linked := a.linked - {p}, asked := a.asked + {p})
    case Reset(p) => Forget(a, p)
  }

  ghost predicate Agrees(s: State, a: Account) {
    && s.peers.Keys == a.known
    && (forall q: nat :: AgreesOn(Of(s, q), a, q))
  }

  ghost predicate AgreesOn(x: Peer, a: Account, q: nat) {
    (q in a.linked <==> x.haveLink) && (q in a.providers <==> x.isRelay) && (q in a.asked <==> Asks(x))
  }

  // ---- each operation changes the roles of its own peer only ----

  ghost predicate OthersSame(s: State, t: State, p: nat) {
    && s.peers.Keys == t.peers.Keys
    && (forall q: nat :: q != p ==>
          && Of(s, q).haveLink == Of(t, q).haveLink && Of(s, q).isRelay == Of(t, q).isRelay
          && Asks(Of(s, q)) == Asks(Of(t, q)))
  }

  lemma SameRolesOthers(s: State, s1: State, t: State, p: nat)
    requires OthersSame(s, s1, p) && SameRoles(s1, t)
    ensures OthersSame(s, t, p)
  {
  }

  lemma OthersSameTwice(s: State, s1: State, t: State, p: nat)
    requires OthersSame(s, s1, p) && OthersSame(s1, t, p)
    ensures OthersSame(s, t, p)
  {
  }

  lemma ReleaseRoles(s: State, p: nat)
    requires Inv(s) && p in s.peers && !Of(s, p).isRelay && !Of(s, p).waiting
    ensures OthersSame(s, Release(s, p), p) && Release(s, p).relays == s.relays && Release(s, p).waiting == s.waiting
    ensures !Of(Release(s, p), p).isRelay
  {
    if Of(s, p).via.Some? {
      RelayedThroughLinked(s, p);
    }
  }

  lemma UnregisterRoles(s: State, p: nat)
    requires p in s.peers
    ensures OthersSame(s, UnregisterNeed(s, p), p) && UnregisterNeed(s, p).relays == s.relays
    ensures s.waiting == [] ==> UnregisterNeed(s, p).waiting == []
    ensures Of(UnregisterNeed(s, p), p).isRelay == Of(s, p).isRelay
  {
  }

  lemma KnownIf(s: State, p: nat)
    requires Of(s, p) != NEW_PEER
    ensures p in s.peers
  {
  }

  lemma NotRelayWhenWaiting(s: State, p: nat)
    requires Inv(s) && Of(s, p).waiting
    ensures !Of(s, p).isRelay
  {
    assert PeerOk(p, Of(s, p));
  }

  lemma DisableOthers(s: State, p: nat)
    requires Inv(s) && Of(s, p).isRelay
    ensures OthersSame(s, DisableProvider(s, p), p)
  {
    hide Inv, DisableProvider;
    DisableRoles(s, p);
    KnownIf(s, p);
    SameRolesOthers(s, With(s, p, Of(s, p).(isRelay := false)), DisableProvider(s, p), p);
  }

  /** After cleaning up its connections a peer is not reached in any way; the roles of the others are as before. */
  lemma CleanupKeeps(s: State, p: nat)
    requires Inv(s)
    ensures Inv(Cleanup(s, p)) && Unreached(Of(Cleanup(s, p), p)) && !Of(Cleanup(s, p), p).isRelay
  {
    hide Inv, DisableProvider, Release, UnregisterNeed, Unreached;
    var s1 := if Of(s, p).isRelay then DisableProvider(s, p) else s;
    if Of(s, p).isRelay {
      DisableInv(s, p);
      DisableRoles(s, p);
    }
    if Of(s1, p).waiting {
      NotRelayWhenWaiting(s1, p);
      UnregisterNeedKeeps(s1, p);
      UnregisteredRelay(s1, p);
    } else {
      Released(s1, p);
      UnreachedNotRelay(Release(s1, p), p);
    }
  }

  lemma DisableInv(s: State, p: nat)
    requires Inv(s) && Of(s, p).isRelay
    ensures Inv(DisableProvider(s, p)) && Settled(DisableProvider(s, p))
  {
    var s1 := Disconnect(s, p);
    DropRelayKeeps(s1, p);
  }

  lemma UnregisteredRelay(s: State, p: nat)
    ensures Of(UnregisterNeed(s, p), p).isRelay == Of(s, p).isRelay
  {
  }

  lemma UnreachedNotRelay(s: State, p: nat)
    requires Inv(s) && Unreached(Of(s, p))
    ensures !Of(s, p).isRelay
  {
    assert PeerOk(p, Of(s, p));
  }

  lemma CleanupRoles(s: State, p: nat)
    requires Inv(s) && p in s.peers
    ensures OthersSame(s, Cleanup(s, p), p)
    ensures Settled(s) ==> Settled(Cleanup(s, p))
  {
    hide Inv, DisableProvider, Release, UnregisterNeed, Unreached;
    var s1 := if Of(s, p).isRelay then DisableProvider(s, p) else s;
    if Of(s, p).isRelay {
      DisableInv(s, p);
      DisableRoles(s, p);
      DisableOthers(s, p);
    }
    if Of(s1, p).waiting {
      UnregisterRoles(s1, p);
      OthersSameTwice(s, s1, Cleanup(s, p), p);
    } else {
      ReleaseRoles(s1, p);
      OthersSameTwice(s, s1, Cleanup(s, p), p);
    }
  }

  lemma NeedRoles(s: State, p: nat)
    requires Inv(s) && p in s.peers && !Of(s, p).isRelay && Settled(s)
    ensures var t := NeedRelay(s, p); Inv(t) && Settled(t) && OthersSame(s, t, p)
    ensures var x := Of(NeedRelay(s, p), p); Asks(x) && !x.haveLink && !x.isRelay
  {
    hide Inv, Release, RegisterNeed, Assign;
    if Of(s, p).waiting {
      AskerFacts(s, p);
    } else {
      Released(s, p);
      ReleaseRoles(s, p);
      var s1 := Release(s, p);
      RegisterNeedKeeps(s1, p);
      RegisterRoles(s1, p);
      var s2 := RegisterNeed(s1, p);
      AssignExact(s2);
      OthersSameTwice(s, s1, s2, p);
      SameRolesOthers(s, s2, Assign(s2), p);
    }
  }

  lemma AskerFacts(s: State, p: nat)
    requires Inv(s) && Asks(Of(s, p))
    ensures !Of(s, p).haveLink && !Of(s, p).isRelay
  {
    assert PeerOk(p, Of(s, p));
  }

  lemma RegisterRoles(s: State, p: nat)
    requires p in s.peers
    ensures OthersSame(s, RegisterNeed(s, p), p)
    ensures var x := Of(RegisterNeed(s, p), p);
              x.waiting && x.haveLink == Of(s, p).haveLink && x.isRelay == Of(s, p).isRelay
  {
  }

  lemma EnableRoles(s: State, p: nat)
    requires Inv(s) && Of(s, p).haveLink && !Of(s, p).isRelay
    ensures var t := EnableProvider(s, p); Inv(t) && Settled(t) && OthersSame(s, t, p)
    ensures var x := Of(EnableProvider(s, p), p); !Asks(x) && x.haveLink && x.isRelay
  {
    hide Inv, AddRelay, Assign;
    AddRelayKeeps(s, p);
    AddRoles(s, p);
    LinkedFacts(s, p);
    var s1 := AddRelay(s, p);
    AssignExact(s1);
    SameRolesOthers(s, s1, Assign(s1), p);
  }

  lemma AddRoles(s: State, p: nat)
    requires Of(s, p).haveLink
    ensures OthersSame(s, AddRelay(s, p), p) && Of(AddRelay(s, p), p).isRelay
    ensures Of(AddRelay(s, p), p).haveLink && Asks(Of(AddRelay(s, p), p)) == Asks(Of(s, p))
  {
  }

  lemma LinkedFacts(s: State, p: nat)
    requires Inv(s) && Of(s, p).haveLink
    ensures !Asks(Of(s, p))
  {
    assert PeerOk(p, Of(s, p));
  }

  /** A peer nobody reaches can be dropped. */
  lemma RemoveKeeps(s: State, p: nat)
    requires Inv(s) && Unreached(Of(s, p)) && !Of(s, p).isRelay
    ensures Inv(s.(peers := s.peers - {p}))
  {
    var t := s.(peers := s.peers - {p});
    assert PeerOk(p, Of(s, p));
    forall q: nat
      ensures PeerOk(q, Of(t, q))
    {
      assert PeerOk(q, Of(s, q));
    }
    forall q: nat, u: nat
      ensures q in Of(t, u).users <==> Of(t, q).via == Some(u)
    {
      assert q in Of(s, u).users <==> Of(s, q).via == Some(u);
    }
  }

  lemma ArriveKeeps(s: State, p: nat)
    requires Inv(s) && p !in s.peers
    ensures Inv(With(s, p, NEW_PEER)) && forall q: nat :: Of(With(s, p, NEW_PEER), q) == Of(s, q)
  {
    var t := With(s, p, NEW_PEER);
    assert forall q: nat :: Of(t, q) == Of(s, q);
  }

  /** Every step keeps the invariant, and no step leaves a peer waiting while there is a relay. */
  lemma StepKeeps(s: State, e: Event)
    requires Inv(s) && Settled(s) && Enabled(s, e)
    ensures Inv(Step(s, e)) && Settled(Step(s, e))
  {
    hide Inv, Cleanup, InitLink, EnableProvider, DisableProvider, NeedRelay, Unreached;
    match e {
      case Arrive(p) => ArriveKeeps(s, p);
      case Leave(p) =>
        CleanupKeeps(s, p);
        CleanupRoles(s, p);
        RemoveKeeps(Cleanup(s, p), p);
      case Connect(p, ok) =>
        CleanupKeeps(s, p);
        CleanupRoles(s, p);
        var t := Cleanup(s, p);
        if ok {
          InitLinkKeeps(t, p);
          InitLinkLists(t, p);
        } else {
          CleanupKeeps(t, p);
          SameKeys(s, t, p);
          CleanupRoles(t, p);
        }
      case Up(p, server) =>
        if server && !Of(s, p).isRelay {
          EnableRoles(s, p);
        }
      case Down(p) =>
        if Of(s, p).isRelay {
          DisableInv(s, p);
        }
      case Need(p) =>
        if !Of(s, p).isRelay {
          NeedRoles(s, p);
        }
      case Reset(p) =>
        CleanupKeeps(s, p);
        CleanupRoles(s, p);
    }
  }

  lemma InitLinkLists(s: State, p: nat)
    ensures InitLink(s, p).relays == s.relays && InitLink(s, p).waiting == s.waiting
  {
  }

  lemma SameKeys(s: State, t: State, p: nat)
    requires OthersSame(s, t, p)
    ensures p in s.peers <==> p in t.peers
  {
  }

  // ---- agreement with the account ----

  lemma AgreeAfter(s: State, t: State, p: nat, a: Account, b: Account)
    requires Agrees(s, a) && OthersSame(s, t, p) && a.known == b.known && AgreesOn(Of(t, p), b, p)
    requires forall q: nat :: q != p ==>
               && (q in a.linked <==> q in b.linked) && (q in a.providers <==> q in b.providers)
               && (q in a.asked <==> q in b.asked)
    ensures Agrees(t, b)
  {
    forall q: nat
      ensures AgreesOn(Of(t, q), b, q)
    {
      assert AgreesOn(Of(s, q), a, q);
    }
  }

  lemma CleanedAgrees(s: State, p: nat, a: Account)
    requires Inv(s) && p in s.peers && Agrees(s, a)
    ensures Agrees(Cleanup(s, p), Forget(a, p)) && p in Cleanup(s, p).peers
  {
    hide Inv, Cleanup;
    CleanupKeeps(s, p);
    CleanupRoles(s, p);
    AgreeAfter(s, Cleanup(s, p), p, a, Forget(a, p));
  }

  lemma InitLinkAgrees(s: State, p: nat, a: Account)
    requires Inv(s) && p in s.peers && Agrees(s, a) && Unreached(Of(s, p))
    ensures Agrees(InitLink(s, p), a.(linked := a.linked + {p}))
  {
    assert AgreesOn(Of(s, p), a, p);
    AgreeAfter(s, InitLink(s, p), p, a, a.(linked := a.linked + {p}));
  }

  lemma RemoveAgrees(s: State, p: nat, a: Account)
    requires Agrees(s, a) && Unreached(Of(s, p)) && !Of(s, p).isRelay
    ensures Agrees(s.(peers := s.peers - {p}), a.(known := a.known - {p}))
  {
    var t, b := s.(peers := s.peers - {p}), a.(known := a.known - {p});
    assert t.peers.Keys == b.known;
    forall q: nat
      ensures AgreesOn(Of(t, q), b, q)
    {
      assert AgreesOn(Of(s, q), a, q);
    }
  }

  lemma StepAgrees(s: State, e: Event, a: Account)
    requires Inv(s) && Settled(s) && Enabled(s, e) && Agrees(s, a)
    ensures Agrees(Step(s, e), Record(a, e))
  {
    hide Inv, Cleanup, InitLink, EnableProvider, DisableProvider, NeedRelay, Agrees;
    AgreesHere(s, a, e.p);
    match e {
      case Arrive(p) => ArriveAgrees(s, p, a);
      case Leave(p) =>
        CleanedAgrees(s, p, a);
        CleanupKeeps(s, p);
        RemoveAgrees(Cleanup(s, p), p, Forget(a, p));
      case Connect(p, ok) =>
        CleanedAgrees(s, p, a);
        CleanupKeeps(s, p);
        var t := Cleanup(s, p);
        if ok {
          InitLinkAgrees(t, p, Forget(a, p));
        } else {
          CleanedAgrees(t, p, Forget(a, p));
          assert Forget(Forget(a, p), p) == Forget(a, p);
        }
      case Up(p, server) =>
        if server && !Of(s, p).isRelay {
          EnableRoles(s, p);
          LinkedFacts(s, p);
          AgreeAfter(s, EnableProvider(s, p), p, a, Record(a, e));
        } else if server {
          assert a.providers + {p} == a.providers;
        }
      case Down(p) =>
        if Of(s, p).isRelay {
          DisableRoles(s, p);
          DisableOthers(s, p);
          LinkedFacts(s, p);
          AgreeAfter(s, DisableProvider(s, p), p, a, Record(a, e));
        } else {
          assert a.providers - {p} == a.providers;
        }
      case Need(p) =>
        if !Of(s, p).isRelay {
          NeedRoles(s, p);
          AgreeAfter(s, NeedRelay(s, p), p, a, Record(a, e));
        }
      case Reset(p) => CleanedAgrees(s, p, a);
    }
  }

  lemma AgreesHere(s: State, a: Account, p: nat)
    requires Agrees(s, a)
    ensures AgreesOn(Of(s, p), a, p) && (p in a.known <==> p in s.peers)
  {
  }

  lemma ArriveAgrees(s: State, p: nat, a: Account)
    requires Inv(s) && p !in s.peers && Agrees(s, a)
    ensures Agrees(With(s, p, NEW_PEER), a.(known := a.known + {p}))
  {
    ArriveKeeps(s, p);
    var t, b := With(s, p, NEW_PEER), a.(known := a.known + {p});
    forall q: nat
      ensures AgreesOn(Of(t, q), b, q)
    {
      assert AgreesOn(Of(s, q), a, q);
    }
  }

  // ---- runs ----

  ghost predicate CanRun(s: State, es: seq<Event>)
    requires Inv(s) && Settled(s)
    decreases |es|
  {
    es != [] ==>
      && Enabled(s, es[0])
      && (StepKeeps(s, es[0]); CanRun(Step(s, es[0]), es[1..]))
  }

  ghost function Run(s: State, es: seq<Event>): (t: State)
    requires Inv(s) && Settled(s) && CanRun(s, es)
    ensures Inv(t) && Settled(t)
    decreases |es|
  {
    if es == [] then s
    else
      StepKeeps(s, es[0]);
      Run(Step(s, es[0]), es[1..])
  }

  function RecordAll(a: Account, es: seq<Event>): Account
    decreases |es|
  {
    if es == [] then a else RecordAll(Record(a, es[0]), es[1..])
  }

  lemma {:induction false} RunAgrees(s: State, es: seq<Event>, a: Account)
    requires Inv(s) && Settled(s) && CanRun(s, es) && Agrees(s, a)
    ensures Agrees(Run(s, es), RecordAll(a, es))
    decreases |es|
  {
    hide Inv, Step, Agrees, Record;
    if es != [] {
      StepKeeps(s, es[0]);
      StepAgrees(s, es[0], a);
      RunAgrees(Step(s, es[0]), es[1..], Record(a, es[0]));
    }
  }

  lemma StartOk()
    ensures Inv(START) && Settled(START) && Agrees(START, Account({}, {}, {}, {}))
  {
  }

  /**
   * After any run, what the client does with each peer is settled by the account: a peer that asked for a relay is
   * relayed through a linked provider if there is any provider, and otherwise waits; nobody else is relayed or waits;
   * the sink a peer's packets go to is its own when linked, its relay's when relayed, and there is none otherwise.
   */
  lemma EveryRun(es: seq<Event>, q: nat)
    requires Inv(START) && Settled(START) && CanRun(START, es)
    ensures var a := RecordAll(Account({}, {}, {}, {}), es); var x := Of(Run(START, es), q);
            && (x.haveLink <==> q in a.linked) && (x.isRelay <==> q in a.providers)
            && (x.waiting <==> q in a.asked && a.providers == {})
            && (x.via.Some? <==> q in a.asked && a.providers != {})
            && (x.via.Some? ==> x.via.value in a.providers && x.via.value in a.linked)
            && (x.via.Some? ==> x.via.value !in a.asked && x.via.value != q)
            && x.flow == (if q in a.linked then Some(q) else x.via)
  {
    hide Agrees, Run, RecordAll, CanRun;
    StartOk();
    RunAgrees(START, es, Account({}, {}, {}, {}));
    var s, a := Run(START, es), RecordAll(Account({}, {}, {}, {}), es);
    AgreesHere(s, a, q);
    assert PeerOk(q, Of(s, q));
    ProvidersListed(s, a);
    if Of(s, q).via.Some? {
      RelayedThroughLinked(s, q);
      AgreesHere(s, a, Of(s, q).via.value);
    }
  }

  lemma ProvidersListed(s: State, a: Account)
    requires Inv(s) && Agrees(s, a)
    ensures a.providers == {} <==> s.relays == []
  {
    if s.relays != [] {
      assert s.relays[0] in s.relays;
      AgreesHere(s, a, s.relays[0]);
    } else if a.providers != {} {
      var p :| p in a.providers;
      AgreesHere(s, a, p);
    }
  }
}
