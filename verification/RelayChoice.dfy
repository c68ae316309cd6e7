/**
 * Which relay a peer gets: of the providers the one that has been one the longest, as the events tell; and it keeps
 * that relay until it asks again or the relay goes.
 */
module RelayChoice {
  import opened Common
  import opened Relays
  import opened RelayRuns

  /** The providers, the oldest first. */
  function RecordOrder(order: seq<nat>, e: Event): seq<nat> {
    match e
    case Up(p, server) => if server && p !in order then order + [p] else order
    case Arrive(_) => order
    case Need(_) => order
    case _ => Without(order, e.p)
  }

  function OrderAfter(order: seq<nat>, es: seq<Event>): seq<nat>
    decreases |es|
  {
    if es == [] then order else OrderAfter(RecordOrder(order, es[0]), es[1..])
  }

  // ---- who relays whom, after each operation ----

  lemma UserExactly(s: State, q: nat, r: nat)
    requires Inv(s)
    ensures q in Of(s, r).users <==> Of(s, q).via == Some(r)
    ensures q in s.waiting ==> Of(s, q).via == None
    ensures r in s.relays <==> Of(s, r).isRelay
    ensures r in s.relays ==> Of(s, r).via == None && !Of(s, r).waiting && Of(s, r).haveLink && r !in s.waiting
  {
    assert PeerOk(q, Of(s, q)) && PeerOk(r, Of(s, r));
  }

  lemma AssignVia(s: State, q: nat)
    requires Inv(s)
    ensures Of(Assign(s), q).via == if q in s.waiting && s.relays != [] then Some(s.relays[0]) else Of(s, q).via
  {
    hide Inv, Assign, SameRoles;
    AssignExact(s);
    if s.relays != [] {
      UserExactly(s, q, s.relays[0]);
      UserExactly(Assign(s), q, s.relays[0]);
      assert s.relays[0] in s.relays;
    }
  }

  lemma DisconnectVia(s: State, p: nat, q: nat)
    requires Inv(s) && p in s.relays
    ensures Of(Disconnect(s, p), q).via == if Of(s, q).via == Some(p) then None else Of(s, q).via
  {
    hide Inv, Disconnect, SameRoles;
    DisconnectExact(s, p);
    UserExactly(s, q, p);
    UserExactly(Disconnect(s, p), q, p);
  }

  lemma DisableVia(s: State, p: nat, q: nat)
    requires Inv(s) && Settled(s) && Of(s, p).isRelay
    ensures var t := DisableProvider(s, p);
      && t.relays == Without(s.relays, p)
      && Of(t, q).via == (if Of(s, q).via != Some(p) then Of(s, q).via
                          else if t.relays != [] then Some(t.relays[0]) else None)
  {
    hide Inv, DropRelay, Disconnect, Assign, PeerOk, SameRoles;
    RelayFacts(s, p);
    var s1 := Disconnect(s, p);
    DropRelayKeeps(s1, p);
    DropFacts(s1, p);
    UserExactly(s, q, p);
    DisconnectVia(s, p, q);
    AssignVia(DropRelay(s1, p), q);
  }

  lemma ReleaseVia(s: State, p: nat, q: nat)
    requires Inv(s) && !Of(s, p).isRelay
    ensures var t := if Of(s, p).waiting then UnregisterNeed(s, p) else Release(s, p);
      t.relays == s.relays && (q != p ==> Of(t, q).via == Of(s, q).via)
  {
    hide Inv;
  }

  lemma CleanupVia(s: State, p: nat, q: nat)
    requires Inv(s) && Settled(s)
    ensures var t := Cleanup(s, p);
      && t.relays == Without(s.relays, p)
      && (q != p ==>
            Of(t, q).via == if Of(s, q).via != Some(p) || !Of(s, p).isRelay then Of(s, q).via
                            else if t.relays != [] then Some(t.relays[0]) else None)
  {
    hide Inv, DisableProvider, UnregisterNeed, Release;
    UserExactly(s, q, p);
    if Of(s, p).isRelay {
      DisableInv(s, p);
      DisableRoles(s, p);
      DisableVia(s, p, q);
      ReleaseVia(DisableProvider(s, p), p, q);
    } else {
      WithoutAbsent(s.relays, p);
      ReleaseVia(s, p, q);
    }
  }

  lemma NeedVia(s: State, p: nat, q: nat)
    requires Inv(s) && Settled(s) && !Of(s, p).isRelay
    ensures var t := NeedRelay(s, p);
      && t.relays == s.relays && (q != p ==> Of(t, q).via == Of(s, q).via)
      && (t.relays != [] ==> Of(t, p).via == Some(t.relays[0])) && (t.relays == [] ==> Of(t, p).via == None)
  {
    hide Inv, Release, Assign;
    UserExactly(s, p, p);
    if Of(s, p).waiting {
      WaitingListed(s, p);
    } else {
      Released(s, p);
      ReleaseVia(s, p, q);
      ReleaseLists(s, p);
      var s1 := Release(s, p);
      RegisterNeedKeeps(s1, p);
      AssignVia(RegisterNeed(s1, p), q);
      AssignVia(RegisterNeed(s1, p), p);
    }
  }

  lemma WaitingListed(s: State, p: nat)
    requires Inv(s) && Of(s, p).waiting
    ensures p in s.waiting && Of(s, p).via == None
  {
    assert PeerOk(p, Of(s, p));
  }

  lemma ReleaseLists(s: State, p: nat)
    ensures Release(s, p).waiting == s.waiting && Release(s, p).relays == s.relays
  {
  }

  // ---- steps and runs ----

  /** The list of providers, and the relay of every peer, after an event. */
  ghost predicate Chosen(s: State, e: Event, t: State, q: nat) {
    && t.relays == RecordOrder(s.relays, e)
    && (Of(t, q).via.Some? && Of(t, q).via != Of(s, q).via ==> t.relays != [] && Of(t, q).via.value == t.relays[0])
    && (Of(s, q).via.Some? && q != e.p && Of(s, q).via.value in t.relays ==> Of(t, q).via == Of(s, q).via)
    && (e.Need? && e.p !in s.relays && t.relays != [] ==> Of(t, e.p).via == Some(t.relays[0]))
  }

  lemma EnableVia(s: State, p: nat, q: nat)
    requires Inv(s) && Of(s, p).haveLink && !Of(s, p).isRelay
    ensures var t := EnableProvider(s, p);
      && t.relays == s.relays + [p]
      && Of(t, q).via == if q in s.waiting then Some(t.relays[0]) else Of(s, q).via
  {
    hide Inv, Assign;
    AddRelayKeeps(s, p);
    AssignVia(AddRelay(s, p), q);
  }

  lemma ConnectChooses(s: State, p: nat, ok: bool, q: nat)
    requires Inv(s) && Settled(s) && Enabled(s, Connect(p, ok))
    ensures Chosen(s, Connect(p, ok), Step(s, Connect(p, ok)), q)
  {
    hide Inv, Cleanup, Settled;
    UserExactly(s, q, p);
    CleanedUp(s, p, q);
    CleanedUp(Cleanup(s, p), p, q);
    WithoutTwice(s.relays, p);
  }

  /** A peer is given only the provider that has been one the longest, and keeps its relay while that is a provider. */
  lemma StepChooses(s: State, e: Event, q: nat)
    requires Inv(s) && Settled(s) && Enabled(s, e)
    ensures Chosen(s, e, Step(s, e), q)
  {
    hide Inv, Cleanup, EnableProvider, DisableProvider, NeedRelay, Settled;
    UserExactly(s, q, e.p);
    UserExactly(s, e.p, e.p);
    match e {
      case Arrive(p) =>
      case Leave(p) => CleanedUp(s, p, q);
      case Connect(p, ok) => ConnectChooses(s, p, ok, q);
      case Up(p, server) =>
        if server && !Of(s, p).isRelay {
          EnableVia(s, p, q);
        }
      case Down(p) =>
        if Of(s, p).isRelay {
          DisableVia(s, p, q);
        } else {
          WithoutAbsent(s.relays, p);
        }
      case Need(p) =>
        if !Of(s, p).isRelay {
          NeedVia(s, p, q);
        }
      case Reset(p) => CleanedUp(s, p, q);
    }
  }

  lemma WithoutTwice(l: seq<nat>, p: nat)
    ensures Without(Without(l, p), p) == Without(l, p)
  {
    WithoutAbsent(Without(l, p), p);
  }

  lemma CleanedUp(s: State, p: nat, q: nat)
    requires Inv(s) && Settled(s)
    ensures var t := Cleanup(s, p);
      && Inv(t) && Settled(t) && t.relays == Without(s.relays, p) && Of(t, p).via == None && !Of(t, p).isRelay
      && (q != p ==>
            Of(t, q).via == if Of(s, q).via != Some(p) || !Of(s, p).isRelay then Of(s, q).via
                            else if t.relays != [] then Some(t.relays[0]) else None)
  {
    hide Inv, Cleanup;
    CleanupKeeps(s, p);
    CleanupVia(s, p, q);
    CleanupSettled(s, p);
  }

  lemma CleanupSettled(s: State, p: nat)
    requires Inv(s) && Settled(s)
    ensures Settled(Cleanup(s, p))
  {
    hide Inv, DisableProvider;
    if Of(s, p).isRelay {
      DisableInv(s, p);
    }
  }

  /** After every run the providers are listed in the order in which they became ones. */
  lemma {:induction false} RunOrder(s: State, es: seq<Event>)
    requires Inv(s) && Settled(s) && CanRun(s, es)
    ensures Run(s, es).relays == OrderAfter(s.relays, es)
    decreases |es|
  {
    hide Inv, Settled, Step, RecordOrder, Enabled;
    if es != [] {
      StepKeeps(s, es[0]);
      StepChooses(s, es[0], 0);
      RunOrder(Step(s, es[0]), es[1..]);
    }
  }
}
