/**
 * How a client decides which peers talk through which other peers, after client/client.c: a peer is reached directly
 * over its own link, through another peer that provides relaying, waits for such a peer, or is not being reached at
 * all.
 */
module Relays {
  import opened Common

  /**
   * What is kept per peer. `via` is the relay used, `users` the peers using this one as their relay, and `flow` the
   * peer whose sink this peer's outgoing packets are attached to.
   */
  datatype Peer = Peer(haveLink: bool, via: Option<nat>, waiting: bool, isRelay: bool, users: seq<nat>,
                       flow: Option<nat>)

  const NEW_PEER := Peer(false, None, false, false, [], None)

  /** `relays` and `waiting` are the lists of peers that provide relaying and that wait for a relay. */
  datatype State = State(peers: map<nat, Peer>, relays: seq<nat>, waiting: seq<nat>)

  function Of(s: State, p: nat): Peer {
    if p in s.peers then s.peers[p] else NEW_PEER
  }

  function With(s: State, p: nat, x: Peer): State {
    s.(peers := s.peers[p := x])
  }

  // ---- invariant ----

  ghost predicate PeerOk(p: nat, x: Peer) {
    && !(x.haveLink && x.via.Some?) && !(x.haveLink && x.waiting) && !(x.via.Some? && x.waiting)
    && (x.isRelay ==> x.haveLink)
    && (!x.isRelay ==> x.users == [])
    && NoDup(x.users)
    && x.flow == (if x.haveLink then Some(p) else x.via)
  }

  ghost predicate Inv(s: State) {
    && (forall p: nat :: PeerOk(p, Of(s, p)))
    && NoDup(s.relays) && (forall p: nat :: p in s.relays <==> Of(s, p).isRelay)
    && NoDup(s.waiting) && (forall p: nat :: p in s.waiting <==> Of(s, p).waiting)
    && (forall p: nat, r: nat :: p in Of(s, r).users <==> Of(s, p).via == Some(r))
  }

  /** No peer waits while there is a relay. */
  predicate Settled(s: State) {
    s.waiting == [] || s.relays == []
  }

  /**
   * Whoever is relayed is relayed by a peer that provides relaying over its own link, hence by neither itself nor a
   * relayed peer.
   */
  lemma RelayedThroughLinked(s: State, p: nat)
    requires Inv(s) && Of(s, p).via.Some?
    ensures var r := Of(s, p).via.value;
            && r in s.relays && Of(s, r).isRelay && Of(s, r).haveLink && Of(s, r).via.None?
            && r != p && p in Of(s, r).users
  {
    var r := Of(s, p).via.value;
    assert p in Of(s, r).users;
    assert PeerOk(r, Of(s, r)) && PeerOk(p, Of(s, p));
  }

  // ---- the small steps ----

  function RegisterNeed(s: State, p: nat): State {
    With(s, p, Of(s, p).(waiting := true)).(waiting := s.waiting + [p])
  }

  function UnregisterNeed(s: State, p: nat): State {
    With(s, p, Of(s, p).(waiting := false)).(waiting := Without(s.waiting, p))
  }

  function Install(s: State, p: nat, r: nat): State {
    var s1 := With(s, r, Of(s, r).(users := Of(s, r).users + [p]));
    With(s1, p, Of(s1, p).(via := Some(r), flow := Some(r)))
  }

  function FreeRelaying(s: State, p: nat): State
    requires Of(s, p).via.Some?
  {
    var r := Of(s, p).via.value;
    var s1 := With(s, r, Of(s, r).(users := Without(Of(s, r).users, p)));
    With(s1, p, Of(s1, p).(via := None, flow := None))
  }

  function InitLink(s: State, p: nat): State {
    With(s, p, Of(s, p).(haveLink := true, flow := Some(p)))
  }

  function FreeLink(s: State, p: nat): State {
    With(s, p, Of(s, p).(haveLink := false, flow := None))
  }

  function AddRelay(s: State, p: nat): State {
    With(s, p, Of(s, p).(isRelay := true, users := [])).(relays := s.relays + [p])
  }

  function DropRelay(s: State, p: nat): State {
    With(s, p, Of(s, p).(isRelay := false)).(relays := Without(s.relays, p))
  }

  /** Nothing reaches the peer yet. */
  predicate Unreached(x: Peer) {
    !x.haveLink && x.via.None? && !x.waiting
  }

  lemma AppendNoDup(s: seq<nat>, x: nat)
    requires NoDup(s) && x !in s
    ensures NoDup(s + [x]) && forall y :: y in s + [x] <==> y in s || y == x
  {
  }

  lemma OthersOk(s: State, t: State, p: nat, x: Peer)
    requires Inv(s) && t.peers == s.peers[p := x] && PeerOk(p, x)
    ensures forall q: nat :: PeerOk(q, Of(t, q))
  {
    forall q: nat
      ensures PeerOk(q, Of(t, q))
    {
      assert PeerOk(q, Of(s, q));
    }
  }

  lemma RegisterNeedKeeps(s: State, p: nat)
    requires Inv(s) && Unreached(Of(s, p))
    ensures Inv(RegisterNeed(s, p))
  {
    assert PeerOk(p, Of(s, p));
    OthersOk(s, RegisterNeed(s, p), p, Of(s, p).(waiting := true));
    AppendNoDup(s.waiting, p);
  }

  lemma UnregisterNeedKeeps(s: State, p: nat)
    requires Inv(s) && Of(s, p).waiting
    ensures Inv(UnregisterNeed(s, p)) && Unreached(Of(UnregisterNeed(s, p), p))
    ensures |UnregisterNeed(s, p).waiting| < |s.waiting|
  {
    WithoutNoDup(s.waiting, p);
    assert PeerOk(p, Of(s, p));
    OthersOk(s, UnregisterNeed(s, p), p, Of(s, p).(waiting := false));
  }

  lemma InstallKeeps(s: State, p: nat, r: nat)
    requires Inv(s) && Unreached(Of(s, p)) && r in s.relays
    ensures Inv(Install(s, p, r)) && p != r
  {
    assert PeerOk(r, Of(s, r)) && PeerOk(p, Of(s, p));
    AppendNoDup(Of(s, r).users, p);
    var t := Install(s, p, r);
    forall q: nat
      ensures PeerOk(q, Of(t, q))
    {
      assert PeerOk(q, Of(s, q));
    }
    forall q: nat, u: nat
      ensures q in Of(t, u).users <==> Of(t, q).via == Some(u)
    {
      assert q in Of(s, u).users <==> Of(s, q).via == Some(u);
    }
  }

  lemma FreeRelayingKeeps(s: State, p: nat)
    requires Inv(s) && Of(s, p).via.Some?
    ensures var t := FreeRelaying(s, p); Inv(t) && Unreached(Of(t, p)) && !Of(t, p).isRelay
  {
    RelayedThroughLinked(s, p);
    var r := Of(s, p).via.value;
    assert PeerOk(r, Of(s, r)) && PeerOk(p, Of(s, p));
    WithoutNoDup(Of(s, r).users, p);
    var t := FreeRelaying(s, p);
    forall q: nat
      ensures PeerOk(q, Of(t, q))
    {
      assert PeerOk(q, Of(s, q));
    }
    forall q: nat, u: nat
      ensures q in Of(t, u).users <==> Of(t, q).via == Some(u)
    {
      assert q in Of(s, u).users <==> Of(s, q).via == Some(u);
    }
  }

  lemma InitLinkKeeps(s: State, p: nat)
    requires Inv(s) && Unreached(Of(s, p))
    ensures Inv(InitLink(s, p))
  {
    assert PeerOk(p, Of(s, p));
    OthersOk(s, InitLink(s, p), p, Of(s, p).(haveLink := true, flow := Some(p)));
  }

  /** A link is taken down only when no other peer's packets go through its sink. */
  lemma FreeLinkKeeps(s: State, p: nat)
    requires Inv(s) && Of(s, p).haveLink && !Of(s, p).isRelay
    ensures Inv(FreeLink(s, p)) && Unreached(Of(FreeLink(s, p), p))
    ensures forall q: nat :: Of(s, q).flow == Some(p) ==> q == p
  {
    assert PeerOk(p, Of(s, p));
    OthersOk(s, FreeLink(s, p), p, Of(s, p).(haveLink := false, flow := None));
    forall q: nat | Of(s, q).flow == Some(p)
      ensures q == p
    {
      assert PeerOk(q, Of(s, q));
      assert q in Of(s, p).users <==> Of(s, q).via == Some(p);
    }
  }

  lemma AddRelayKeeps(s: State, p: nat)
    requires Inv(s) && Of(s, p).haveLink && !Of(s, p).isRelay
    ensures Inv(AddRelay(s, p))
  {
    assert PeerOk(p, Of(s, p));
    AppendNoDup(s.relays, p);
    var t := AddRelay(s, p);
    assert forall q: nat :: Of(t, q).users == Of(s, q).users;
  }

  lemma DropRelayKeeps(s: State, p: nat)
    requires Inv(s) && Of(s, p).isRelay && Of(s, p).users == []
    ensures Inv(DropRelay(s, p))
  {
    assert PeerOk(p, Of(s, p));
    WithoutNoDup(s.relays, p);
    var t := DropRelay(s, p);
    assert forall q: nat :: Of(t, q).users == Of(s, q).users;
  }

  // ---- the loops ----

  function AssignOne(s: State): State
    requires s.waiting != [] && s.relays != []
  {
    Install(UnregisterNeed(s, s.waiting[0]), s.waiting[0], s.relays[0])
  }

  lemma AssignOneKeeps(s: State)
    requires Inv(s) && s.waiting != [] && s.relays != []
    ensures var t := AssignOne(s); Inv(t) && t.relays == s.relays && t.waiting == s.waiting[1..]
    ensures Of(s, s.waiting[0]).waiting && !Of(s, s.waiting[0]).isRelay
  {
    hide Inv, Install, UnregisterNeed;
    var p := s.waiting[0];
    WaitingFacts(s, p);
    WithoutFirst(s.waiting);
    UnregisterNeedKeeps(s, p);
    UnregisterFacts(s, p);
    var s1 := UnregisterNeed(s, p);
    InstallKeeps(s1, p, s.relays[0]);
    InstallFacts(s1, p, s.relays[0]);
  }

  lemma WaitingFacts(s: State, p: nat)
    requires Inv(s) && p in s.waiting
    ensures Of(s, p).waiting && !Of(s, p).isRelay && NoDup(s.waiting)
  {
    assert PeerOk(p, Of(s, p));
  }

  lemma UnregisterFacts(s: State, p: nat)
    ensures UnregisterNeed(s, p).relays == s.relays && UnregisterNeed(s, p).waiting == Without(s.waiting, p)
  {
  }

  lemma InstallFacts(s: State, p: nat, r: nat)
    ensures Install(s, p, r).relays == s.relays && Install(s, p, r).waiting == s.waiting
  {
  }

  /** Giving the waiting peers, in order, to the first relay, if there is one. */
  ghost function Assign(s: State): (t: State)
    requires Inv(s)
    ensures Inv(t) && Settled(t) && t.relays == s.relays
    ensures s.relays == [] ==> t == s
    ensures s.relays != [] ==> t.waiting == []
    decreases |s.waiting|
  {
    if s.waiting == [] || s.relays == [] then s
    else
      AssignOneKeeps(s);
      Assign(AssignOne(s))
  }

  function DisconnectOne(s: State, p: nat): State
    requires Of(s, p).users != [] && Of(s, Of(s, p).users[0]).via.Some?
  {
    var u := Of(s, p).users[0];
    RegisterNeed(FreeRelaying(s, u), u)
  }

  lemma DisconnectOneKeeps(s: State, p: nat)
    requires Inv(s) && Of(s, p).users != []
    ensures Of(s, Of(s, p).users[0]).via == Some(p)
    ensures var t := DisconnectOne(s, p);
            && Inv(t) && t.relays == s.relays && t.waiting == s.waiting + [Of(s, p).users[0]]
            && Of(t, p) == Of(s, p).(users := Of(s, p).users[1..])
  {
    var u := Of(s, p).users[0];
    assert u in Of(s, p).users;
    RelayedThroughLinked(s, u);
    FreeRelayingKeeps(s, u);
    RegisterNeedKeeps(FreeRelaying(s, u), u);
    assert PeerOk(p, Of(s, p));
    WithoutFirst(Of(s, p).users);
  }

  /** Turning away every user of a relay, in order; each then waits for a relay. */
  ghost function Disconnect(s: State, p: nat): (t: State)
    requires Inv(s)
    ensures Inv(t) && t.relays == s.relays && t.waiting == s.waiting + Of(s, p).users
    ensures Of(t, p) == Of(s, p).(users := [])
    decreases |Of(s, p).users|
  {
    if Of(s, p).users == [] then
      assert s.waiting + [] == s.waiting;
      s
    else
      DisconnectOneKeeps(s, p);
      var us := Of(s, p).users;
      assert s.waiting + [us[0]] + us[1..] == s.waiting + us;
      Disconnect(DisconnectOne(s, p), p)
  }

  // ---- the operations ----

  ghost function EnableProvider(s: State, p: nat): State
    requires Inv(s) && Of(s, p).haveLink && !Of(s, p).isRelay
  {
    AddRelayKeeps(s, p);
    Assign(AddRelay(s, p))
  }

  ghost function DisableProvider(s: State, p: nat): State
    requires Inv(s) && Of(s, p).isRelay
  {
    var s1 := Disconnect(s, p);
    DropRelayKeeps(s1, p);
    Assign(DropRelay(s1, p))
  }

  ghost function NeedRelay(s: State, p: nat): State
    requires Inv(s) && !Of(s, p).isRelay
  {
    if Of(s, p).waiting then s
    else
      Released(s, p);
      var s1 := Release(s, p);
      RegisterNeedKeeps(s1, p);
      Assign(RegisterNeed(s1, p))
  }

  /** Giving up link or relaying. */
  function Release(s: State, p: nat): State {
    if Of(s, p).haveLink then FreeLink(s, p)
    else if Of(s, p).via.Some? then FreeRelaying(s, p)
    else s
  }

  lemma Released(s: State, p: nat)
    requires Inv(s) && !Of(s, p).isRelay && !Of(s, p).waiting
    ensures Inv(Release(s, p)) && Unreached(Of(Release(s, p), p))
  {
    hide Inv, FreeLink, FreeRelaying;
    if Of(s, p).haveLink {
      FreeLinkKeeps(s, p);
    } else if Of(s, p).via.Some? {
      FreeRelayingKeeps(s, p);
    }
  }

  ghost function Cleanup(s: State, p: nat): State
    requires Inv(s)
  {
    var s1 := if Of(s, p).isRelay then DisableProvider(s, p) else s;
    if Of(s1, p).waiting then UnregisterNeed(s1, p) else Release(s1, p)
  }

  // ---- what moves where ----

  /** A peer asks for a relay: it has one or waits for one. */
  predicate Asks(x: Peer) {
    x.via.Some? || x.waiting
  }

  /** Each peer is still linked, a provider or asking for a relay as it was; only who relays whom may differ. */
  ghost predicate SameRoles(s: State, t: State) {
    && s.peers.Keys == t.peers.Keys
    && (forall q: nat ::
          && Of(s, q).haveLink == Of(t, q).haveLink && Of(s, q).isRelay == Of(t, q).isRelay
          && Asks(Of(s, q)) == Asks(Of(t, q)))
  }

  lemma AssignOneRoles(s: State)
    requires Inv(s) && s.waiting != [] && s.relays != []
    ensures SameRoles(s, AssignOne(s))
    ensures forall q: nat :: q != s.waiting[0] && q != s.relays[0] ==> Of(AssignOne(s), q) == Of(s, q)
    ensures Of(AssignOne(s), s.relays[0]) == Of(s, s.relays[0]).(users := Of(s, s.relays[0]).users + [s.waiting[0]])
    ensures s.relays[0] != s.waiting[0]
  {
    var p, r := s.waiting[0], s.relays[0];
    assert p in s.waiting && r in s.relays;
    assert PeerOk(p, Of(s, p)) && PeerOk(r, Of(s, r));
  }

  /** The waiting peers become, in order, the last users of the first relay; nobody else is touched. */
  lemma {:induction false} AssignExact(s: State)
    requires Inv(s)
    ensures SameRoles(s, Assign(s))
    ensures s.relays != [] ==>
              Of(Assign(s), s.relays[0]) == Of(s, s.relays[0]).(users := Of(s, s.relays[0]).users + s.waiting)
    ensures forall q: nat :: q !in s.waiting && (s.relays != [] ==> q != s.relays[0]) ==> Of(Assign(s), q) == Of(s, q)
    decreases |s.waiting|
  {
    hide Inv, AssignOne;
    if s.waiting == [] || s.relays == [] {
      if s.relays != [] {
        assert Of(s, s.relays[0]).users + [] == Of(s, s.relays[0]).users;
      }
    } else {
      AssignOneKeeps(s);
      AssignOneRoles(s);
      AssignExact(AssignOne(s));
      var us := Of(s, s.relays[0]).users;
      assert us + [s.waiting[0]] + s.waiting[1..] == us + s.waiting;
      assert s.waiting == [s.waiting[0]] + s.waiting[1..];
    }
  }

  lemma DisconnectOneRoles(s: State, p: nat)
    requires Inv(s) && Of(s, p).users != [] && Of(s, Of(s, p).users[0]).via == Some(p)
    ensures SameRoles(s, DisconnectOne(s, p))
    ensures forall q: nat :: q != p && q != Of(s, p).users[0] ==> Of(DisconnectOne(s, p), q) == Of(s, q)
  {
    var u := Of(s, p).users[0];
    RelayedThroughLinked(s, u);
    assert PeerOk(p, Of(s, p)) && PeerOk(u, Of(s, u));
  }

  lemma {:induction false} DisconnectExact(s: State, p: nat)
    requires Inv(s)
    ensures SameRoles(s, Disconnect(s, p))
    ensures forall q: nat :: q != p && q !in Of(s, p).users ==> Of(Disconnect(s, p), q) == Of(s, q)
    decreases |Of(s, p).users|
  {
    hide Inv, DisconnectOne;
    if Of(s, p).users != [] {
      DisconnectOneKeeps(s, p);
      DisconnectOneRoles(s, p);
      DisconnectExact(DisconnectOne(s, p), p);
      var us := Of(s, p).users;
      assert us == [us[0]] + us[1..];
    }
  }

  lemma DropFacts(s: State, p: nat)
    requires Of(s, p).isRelay
    ensures var t := DropRelay(s, p);
            && t.relays == Without(s.relays, p) && t.waiting == s.waiting && t.peers.Keys == s.peers.Keys
            && Of(t, p) == Of(s, p).(isRelay := false)
            && (forall q: nat :: q != p ==> Of(t, q) == Of(s, q))
  {
  }

  /** A provider goes: its users move, in order, to the first other provider, or wait if there is none. */
  lemma DisableMoves(s: State, p: nat)
    requires Inv(s) && Of(s, p).isRelay && Settled(s)
    ensures var t, others := DisableProvider(s, p), Without<nat>(s.relays, p);
            && Inv(t) && Settled(t) && t.relays == others
            && (others == [] ==> t.waiting == Of(s, p).users)
            && (others != [] ==> t.waiting == [] && Of(t, others[0]).users == Of(s, others[0]).users + Of(s, p).users)
  {
    hide Inv, DropRelay, Disconnect, Assign, PeerOk, SameRoles, Of;
    var s1 := Disconnect(s, p);
    DisconnectExact(s, p);
    DropRelayKeeps(s1, p);
    DropFacts(s1, p);
    var s2 := DropRelay(s1, p);
    AssignExact(s2);
    RelayFacts(s, p);
    assert s.waiting == [] && [] + Of(s, p).users == Of(s, p).users;
    if s2.relays != [] {
      RelayNotUser(s, p, s2.relays[0]);
    }
  }

  /** Nobody else changes role: whoever asked for a relay still does, and nobody else. */
  lemma DisableRoles(s: State, p: nat)
    requires Inv(s) && Of(s, p).isRelay
    ensures SameRoles(With(s, p, Of(s, p).(isRelay := false)), DisableProvider(s, p))
    ensures Of(DisableProvider(s, p), p).haveLink && !Of(DisableProvider(s, p), p).isRelay
    ensures !Asks(Of(DisableProvider(s, p), p))
  {
    hide Inv, DropRelay, Disconnect, Assign, PeerOk;
    var s1 := Disconnect(s, p);
    DisconnectExact(s, p);
    DropRelayKeeps(s1, p);
    DropFacts(s1, p);
    AssignExact(DropRelay(s1, p));
    RelayFacts(s, p);
    assert p in s.peers;
  }

  lemma RelayFacts(s: State, p: nat)
    requires Inv(s) && Of(s, p).isRelay
    ensures p in s.relays && Of(s, p).haveLink && !Asks(Of(s, p))
  {
    assert PeerOk(p, Of(s, p));
  }

  lemma RelayNotUser(s: State, p: nat, r: nat)
    requires Inv(s) && r in Without<nat>(s.relays, p)
    ensures r != p && r !in Of(s, p).users
  {
    assert PeerOk(r, Of(s, r));
    assert r in Of(s, p).users <==> Of(s, r).via == Some(p);
  }
}
