/**
 * The frame decider of client/FrameDecider.c: the group tables as an object, and the decision where a frame goes,
 * handed out one destination at a time.
 */
module FrameDecider {
  import opened Common
  import opened MulticastIndex
  import opened MulticastWalk
  import MacTable
  import MacTableObject

  /** The timers after lowering those of group `g` on the first `k` nodes of a chain to `limit`. */
  ghost predicate LoweredUpTo(before: map<Membership, int>, now: map<Membership, int>, c: seq<Membership>, k: nat,
                              g: Group, limit: int) {
    && k <= |c| && now.Keys == before.Keys
    && forall e :: e in before ==> now[e] == if e in c[..k] && e.group == g then Min(before[e], limit) else before[e]
  }

  lemma LoweredNext(before: map<Membership, int>, now: map<Membership, int>, c: seq<Membership>, k: nat, g: Group,
                    limit: int)
    requires LoweredUpTo(before, now, c, k, g, limit) && k < |c| && c[k] in before && NoDup(c)
    ensures now[c[k]] == before[c[k]]
    ensures c[k].group != g || before[c[k]] <= limit ==> LoweredUpTo(before, now, c, k + 1, g, limit)
    ensures c[k].group == g && before[c[k]] > limit ==> LoweredUpTo(before, now[c[k] := limit], c, k + 1, g, limit)
  {
    assert c[..k + 1] == c[..k] + [c[k]];
    assert c[k] !in c[..k];
  }

  /** Every used entry has a timer. */
  ghost predicate Timed(x: Index) {
    forall e :: Has(x, e) ==> e in x.endtime
  }

  class GroupTables {
    const maxPeerGroups: nat
    var used: map<PeerId, seq<Group>>
    var chains: map<Sig, seq<Membership>>
    var multicastTree: map<Sig, Membership>
    var masters: set<Membership>
    var endtime: map<Membership, int>
    var walkSig: Sig
    var walk: seq<Membership>

    ghost function View(): Index
      reads this
    {
      Index(used, chains, multicastTree, masters, endtime)
    }

    ghost predicate Valid()
      reads this
    {
      Inv(View(), maxPeerGroups) && Timed(View()) && Standing(View(), walkSig, walk)
    }

    constructor (maxPeerGroups: nat)
      requires maxPeerGroups > 0
      ensures Valid() && View() == IndexInit && walk == [] && this.maxPeerGroups == maxPeerGroups
    {
      this.maxPeerGroups := maxPeerGroups;
      walkSig, walk := 0, [];
      used, chains, multicastTree, masters, endtime := map[], map[], map[], {}, map[];
    }

    /**
     * The entry is listed but not yet in the index; afterwards it is, as master exactly if it is the first of its
     * signature.
     */
    method DoAddToMulticast(e: Membership)
      requires Pending(View(), maxPeerGroups, e) && Standing(View(), walkSig, walk)
      modifies this`chains, this`multicastTree, this`masters, this`walk
      ensures AddReady(old(View()), e) && View() == AddToMulticast(old(View()), e)
      ensures Inv(View(), maxPeerGroups) && (e in masters <==> SigOf(e.group) !in old(chains))
      ensures walk == AfterAdd(old(multicastTree), walkSig, old(walk), e) && Standing(View(), walkSig, walk)
    {
      hide Inv, Pending, InsertAfter, Standing, AfterAdd;
      AddKeeps(View(), maxPeerGroups, e);
      AddMaster(View(), maxPeerGroups, e);
      AddWalk(View(), maxPeerGroups, e, walkSig, walk);
      MasterListed(View(), maxPeerGroups, e);
      var sig := SigOf(e.group);
      walk := AfterAdd(multicastTree, walkSig, walk, e);
      if sig in multicastTree {
        assert multicastTree[sig] in masters;
        masters := masters - {e};
        chains := chains[sig := InsertAfter(chains[sig], multicastTree[sig], e)];
      } else {
        masters := masters + {e};
        multicastTree := multicastTree[sig := e];
        chains := chains[sig := [e]];
      }
    }

    /** The entry leaves the index but stays listed; a new master is elected if it was one and others remain. */
    method DoRemoveFromMulticast(e: Membership)
      requires Inv(View(), maxPeerGroups) && Has(View(), e)
      modifies this`chains, this`multicastTree, this`masters, this`walk
      ensures SigOf(e.group) in old(chains) && e in old(chains)[SigOf(e.group)]
      ensures View() == RemoveFromMulticast(old(View()), e) && Pending(View(), maxPeerGroups, e)
      ensures walk == Without(old(walk), e)
    {
      hide Inv, Pending, NextOrPrev, Without, Has, SigOf;
      RemoveLeavesPending(View(), maxPeerGroups, e);
      var sig := SigOf(e.group);
      if e in masters {
        ElectedIsNew(View(), maxPeerGroups, e);
        assert multicastTree[sig] == e;
        multicastTree := multicastTree - {sig};
        if |chains[sig]| > 1 {
          var newMaster := NextOrPrev(chains[sig], e);
          assert newMaster !in masters;
          masters := masters + {newMaster};
          multicastTree := multicastTree[sig := newMaster];
        }
      }
      walk := Without(walk, e);
      var rest := Without(chains[sig], e);
      chains := if rest == [] then chains - {sig} else chains[sig := rest];
    }

    method AddGroupToPeer(o: PeerId, group: Group, until: int)
      requires Valid() && o in used
      modifies this
      ensures Valid() && View() == JoinGroup(old(View()), maxPeerGroups, o, group, until)
      ensures walkSig == old(walkSig) && walk == AfterJoin(old(View()), maxPeerGroups, o, group, walkSig, old(walk))
    {
      hide Inv, Pending, Without, AddToMulticast, RemoveFromMulticast, AfterAdd, Standing;
      ghost var x := View();
      JoinWalk(x, maxPeerGroups, o, group, until, walkSig, walk);
      var e := Membership(o, group);
      JoinGroupKeeps(x, maxPeerGroups, o, group, until);
      if group in used[o] {
        used := used[o := Without(used[o], group) + [group]];
      } else {
        AdmitEntry(e);
      }
      endtime := endtime[e := until];
      StillTimed(x, View(), e);
    }

    /** A new membership is listed and indexed; the oldest of the peer makes room if need be. */
    method AdmitEntry(e: Membership)
      requires Inv(View(), maxPeerGroups) && Standing(View(), walkSig, walk) && e.peer in used && !Has(View(), e)
      modifies this`used, this`chains, this`multicastTree, this`masters, this`walk
      ensures View() == Admit(old(View()), maxPeerGroups, e)
      ensures walk == AfterJoin(old(View()), maxPeerGroups, e.peer, e.group, walkSig, old(walk))
    {
      hide Inv, Pending, Without, AddToMulticast, RemoveFromMulticast, AfterAdd, Standing;
      ghost var x := View();
      MakeRoomKeeps(x, maxPeerGroups, e.peer);
      MakeRoomWalk(x, maxPeerGroups, e.peer, walkSig, walk);
      ReadyToAdmit(x, maxPeerGroups, e);
      if |used[e.peer]| >= maxPeerGroups && used[e.peer] != [] {
        var first := Membership(e.peer, used[e.peer][0]);
        assert Has(x, first);
        DoRemoveFromMulticast(first);
        used := used[first.peer := Without(used[first.peer], first.group)];
      }
      assert View() == MakeRoom(x, maxPeerGroups, e.peer);
      StandingSame(View(), List(View(), e), walkSig, walk);
      used := used[e.peer := used[e.peer] + [e.group]];
      DoAddToMulticast(e);
    }

    method RemoveGroupEntry(e: Membership)
      requires Valid() && Has(View(), e)
      modifies this
      ensures Valid() && SigOf(e.group) in old(View()).chains && e in old(View()).chains[SigOf(e.group)]
      ensures View() == RemoveGroup(old(View()), e) && walkSig == old(walkSig) && walk == Without(old(walk), e)
    {
      hide Inv, Without, RemoveFromMulticast, Standing;
      ghost var x := View();
      RemoveWalk(x, maxPeerGroups, e, walkSig, walk);
      RemoveGroupKeeps(x, maxPeerGroups, e);
      DoRemoveFromMulticast(e);
      used := used[e.peer := Without(used[e.peer], e.group)];
      StillTimed(x, View(), e);
    }

    /** A query for `group`: exactly the timers of its members come down to the last-member query time. */
    method LowerGroupTimers(group: Group, limit: int)
      requires Valid()
      modifies this`endtime
      ensures Valid() && endtime.Keys == old(endtime.Keys)
      ensures forall e :: Has(View(), e) ==>
                endtime[e] == if e.group == group then Min(old(endtime)[e], limit) else old(endtime)[e]
    {
      hide Standing;
      ghost var x := View();
      StandingAnyTimes(x, walkSig, walk);
      var sig := SigOf(group);
      if sig !in multicastTree {
        return;
      }
      var c := chains[sig];
      ghost var before := endtime;
      var k: nat := 0;
      while k < |c|
        invariant LoweredUpTo(before, endtime, c, k, group, limit)
      {
        var e := c[k];
        assert e in c && Has(x, e);
        LoweredNext(before, endtime, c, k, group, limit);
        if e.group == group {
          if endtime[e] > limit {
            endtime := endtime[e := limit];
          }
        }
        k := k + 1;
      }
      assert c[..k] == c;
      EndtimeOnly(x, maxPeerGroups, endtime);
    }

    method PeerInit(o: PeerId)
      requires Valid() && o !in used
      modifies this
      ensures Valid() && View() == PeerJoins(old(View()), o) && walkSig == old(walkSig) && walk == old(walk)
    {
      hide Inv, Standing;
      PeerJoinsKeeps(View(), maxPeerGroups, o);
      StandingSame(View(), PeerJoins(View(), o), walkSig, walk);
      used := used[o := []];
    }

    method PeerFree(o: PeerId)
      requires Valid() && o in used
      modifies this
      ensures Valid() && View() == PeerLeaves(old(View()), maxPeerGroups, o)
      ensures walkSig == old(walkSig) && walk == AfterLeave(old(View()), maxPeerGroups, o, old(walk))
    {
      hide Inv, RemoveGroup, Standing;
      ghost var goal := PeerLeaves(View(), maxPeerGroups, o);
      ghost var left := AfterLeave(View(), maxPeerGroups, o, walk);
      LeaveWalk(View(), maxPeerGroups, o, walkSig, walk);
      while used[o] != []
        invariant Valid() && o in used && goal == PeerLeaves(View(), maxPeerGroups, o) && walkSig == old(walkSig)
        invariant left == AfterLeave(View(), maxPeerGroups, o, walk)
        decreases |used[o]|
      {
        var e := Membership(o, used[o][0]);
        RemoveGroupKeeps(View(), maxPeerGroups, e);
        RemoveGroupEntry(e);
      }
      NobodyLeaves(View(), maxPeerGroups, o);
      used := used - {o};
    }

    /** An iterator is put at the first node of the list of a signature. */
    method StartWalk(sig: Sig)
      requires Valid() && sig in multicastTree
      modifies this`walkSig, this`walk
      ensures Valid() && sig in chains && walk == chains[sig]
    {
      TreeIsChains(View(), maxPeerGroups);
      StandingAtStart(View(), sig);
      hide Inv;
      walkSig, walk := sig, chains[sig];
    }

    method EndWalk()
      requires Valid()
      modifies this`walk
      ensures Valid() && walk == []
    {
      walk := [];
    }

    /** LinkedList3Iterator_Next */
    method NextInWalk() returns (next: Option<PeerId>)
      requires Valid()
      modifies this`walk
      ensures Valid()
      ensures old(walk) == [] ==> next == None && walk == []
      ensures old(walk) != [] ==> next == Some(old(walk)[0].peer) && walk == old(walk)[1..]
    {
      hide Inv, Standing;
      if walk == [] {
        return None;
      }
      StandingNext(View(), walkSig, walk);
      next := Some(walk[0].peer);
      walk := walk[1..];
    }
  }

  lemma MasterListed(x: Index, max: nat, e: Membership)
    requires Pending(x, max, e)
    ensures x.tree.Keys == x.chains.Keys
    ensures SigOf(e.group) in x.tree ==> x.tree[SigOf(e.group)] in x.masters
  {
  }

  lemma StandingAnyTimes(x: Index, s: Sig, rest: seq<Membership>)
    requires Standing(x, s, rest)
    ensures forall times :: Standing(x.(endtime := times), s, rest)
  {
  }

  lemma StillTimed(x: Index, x1: Index, e: Membership)
    requires Timed(x) && x.endtime.Keys <= x1.endtime.Keys
    requires forall y :: Has(x1, y) ==> Has(x, y) || (y == e && e in x1.endtime)
    ensures Timed(x1)
  {
  }

  // ---- deciding ----

  const BROADCAST_MAC: seq<Byte> := [0xFF, 0xFF, 0xFF, 0xFF, 0xFF, 0xFF]
  const MULTICAST_HEADER: seq<Byte> := [0x01, 0x00, 0x5E]

  /**
   * What the decider makes of a frame: too short, or a destination address, whether it is IGMP, and the group it is a
   * query for, if any.
   */
  datatype FrameInfo = Short | Frame(dest: seq<Byte>, igmp: bool, query: Option<Group>)

  ghost predicate FrameOk(f: FrameInfo) {
    f.Frame? ==> |f.dest| == 6 && (f.query.Some? ==> f.igmp)
  }

  /** The timer of a membership after a frame: a query for its group brings it down to `limit`. */
  function TimeAfter(f: FrameInfo, e: Membership, time: int, limit: int): int {
    if f.Frame? && f.query == Some(e.group) then Min(time, limit) else time
  }

  function MacKey(mac: seq<Byte>): MacTable.Mac { GetBE(mac) }

  /** Addresses are the same exactly when their keys are. */
  lemma MacKeyUnique(a: seq<Byte>, b: seq<Byte>)
    requires |a| == |b| == 6
    ensures MacKey(a) == MacKey(b) <==> a == b
  {
    if MacKey(a) == MacKey(b) {
      GetBEUnique(a, b);
    }
  }

  /** Where a frame is to go: to everybody, to the members of the group, to the owner of the address, or nowhere. */
  function Targets(f: FrameInfo, peers: seq<PeerId>, t: MacTable.Table, x: Index): seq<PeerId>
    requires FrameOk(f)
  {
    match f
    case Short => []
    case Frame(dest, igmp, _) =>
      if igmp || dest == BROADCAST_MAC then peers
      else if dest[..3] == MULTICAST_HEADER then Destinations(x, SigForMac(dest))
      else if MacKey(dest) in t.owner then [t.owner[MacKey(dest)]]
      else peers
  }

  /** The frame is one to flood: IGMP, broadcast, or for an address nobody is known to have. */
  predicate Floods(f: FrameInfo, t: MacTable.Table)
    requires FrameOk(f)
  {
    f.Frame? && (f.igmp || f.dest == BROADCAST_MAC || (f.dest[..3] != MULTICAST_HEADER && MacKey(f.dest) !in t.owner))
  }

  /** The peer list and the two tables are about the same peers. */
  ghost predicate SamePeers(peers: seq<PeerId>, t: MacTable.Table, x: Index) {
    && NoDup(peers)
    && (forall p :: p in peers <==> p in t.lru)
    && (forall p :: p in peers <==> p in x.used)
  }

  /** A frame only ever goes to peers that are present. */
  lemma TargetsPresent(f: FrameInfo, peers: seq<PeerId>, t: MacTable.Table, x: Index, maxMacs: nat, maxGroups: nat,
                       p: PeerId)
    requires FrameOk(f) && SamePeers(peers, t, x) && MacTable.Consistent(t, maxMacs) && Inv(x, maxGroups)
    ensures p in Targets(f, peers, t, x) ==> p in peers
  {
    if f.Frame? {
      DestinationsExact(x, maxGroups, SigForMac(f.dest), p);
      assert p in Destinations(x, SigForMac(f.dest)) <==> p in multiset(Destinations(x, SigForMac(f.dest)));
    }
  }

  /** A flooded frame goes to every present peer exactly once. */
  lemma FloodReachesAll(f: FrameInfo, peers: seq<PeerId>, t: MacTable.Table, x: Index, p: PeerId)
    requires FrameOk(f) && SamePeers(peers, t, x) && Floods(f, t)
    ensures multiset(Targets(f, peers, t, x))[p] == if p in peers then 1 else 0
  {
    NoDupOnce(peers, p);
  }

  /** Neither flooded to all nor sent to a group's members. */
  predicate IsUnicast(f: FrameInfo)
    requires FrameOk(f)
  {
    f.Frame? && !f.igmp && f.dest != BROADCAST_MAC && f.dest[..3] != MULTICAST_HEADER
  }

  /**
   * A frame to one address goes to the peer that sent with that address last, and to that peer only, as long as it is
   * there and has used fewer than `max` others since; before anybody has sent with it, it goes to all.
   */
  lemma UnicastFollowsSender(f: FrameInfo, peers: seq<PeerId>, max: nat, h: seq<MacTable.Event>, x: Index, p: PeerId)
    requires FrameOk(f) && IsUnicast(f) && max > 0 && MacTable.History(max, h)
    ensures var to := Targets(f, peers, MacTable.After(max, h), x); var m := MacKey(f.dest);
      && (MacTable.Latest(h, m) == Some(p) && |MacTable.Since(h, p, m)| < max ==> to == [p])
      && (MacTable.Latest(h, m) == None ==> to == peers)
      && (to == peers || (to != [] && MacTable.Latest(h, m) == Some(to[0]) && to == [to[0]]))
  {
    var m := MacKey(f.dest);
    MacTable.OwnerIsLatest(max, h, m);
    if MacTable.Latest(h, m) == Some(p) && |MacTable.Since(h, p, m)| < max {
      MacTable.LatestIsOwner(max, h, p, m);
    }
  }

  lemma {:induction false} NoDupOnce(l: seq<PeerId>, p: PeerId)
    requires NoDup(l)
    ensures multiset(l)[p] == if p in l then 1 else 0
    decreases |l|
  {
    if l != [] {
      NoDupOnce(l[1..], p);
      assert l == [l[0]] + l[1..] && l[0] !in l[1..];
      assert multiset(l) == multiset{l[0]} + multiset(l[1..]);
    }
  }

  /**
   * A frame for the Ethernet address of group `g` reaches every peer once for each of its memberships with that
   * address.
   */
  lemma MulticastTargets(g: Group, peers: seq<PeerId>, t: MacTable.Table, x: Index, max: nat, p: PeerId)
    requires Inv(x, max)
    ensures multiset(Targets(Frame(GroupMac(g), false, None), peers, t, x))[p]
         == if p in x.used then MatchCount(x.used[p], SigOf(g)) else 0
  {
    SignaturesAgree(g);
    DestinationsExact(x, max, SigOf(g), p);
    assert GroupMac(g)[..3] == MULTICAST_HEADER;
    assert GroupMac(g)[0] != BROADCAST_MAC[0];
  }

  // ---- walking the peer list ----

  /** The peers from `at` to the end of the list. */
  function From(l: seq<PeerId>, at: Option<PeerId>): (r: seq<PeerId>)
    ensures forall p :: p in r ==> p in l
  {
    if at.None? || l == [] then [] else if l[0] == at.value then l else From(l[1..], at)
  }

  function First(l: seq<PeerId>): Option<PeerId> {
    if l == [] then None else Some(l[0])
  }

  /** LinkedList1Node_Next */
  function Next(l: seq<PeerId>, p: PeerId): (r: Option<PeerId>)
    ensures r.Some? ==> r.value in l
  {
    var r := From(l, Some(p));
    if |r| > 1 then Some(r[1]) else None
  }

  lemma {:induction false} FromNext(l: seq<PeerId>, p: PeerId)
    requires NoDup(l) && p in l
    ensures From(l, Some(p)) == [p] + From(l, Next(l, p)) && Next(l, p) != Some(p)
    decreases |l|
  {
    assert l == [l[0]] + l[1..];
    if l[0] == p {
      if |l| > 1 {
        assert l[1..][0] == l[1] && From(l[1..], Some(l[1])) == l[1..];
      }
    } else {
      FromNext(l[1..], p);
      var n := Next(l[1..], p);
      assert n.Some? ==> n.value != l[0];
    }
  }

  lemma {:induction false} FromWithout(l: seq<PeerId>, at: Option<PeerId>, o: PeerId)
    requires NoDup(l) && at != Some(o)
    ensures From(Without(l, o), at) == Without(From(l, at), o)
    decreases |l|
  {
    if at.Some? && l != [] {
      FromWithout(l[1..], at, o);
    }
  }

  lemma {:induction false} FromAppend(l: seq<PeerId>, at: Option<PeerId>, o: PeerId)
    requires at.Some? ==> at.value in l
    ensures From(l + [o], at) == From(l, at) + if at.Some? then [o] else []
    decreases |l|
  {
    if at.Some? && l[0] != at.value {
      assert (l + [o])[1..] == l[1..] + [o];
      FromAppend(l[1..], at, o);
    }
  }

  /** In `Stale` the iterator of an unfinished multicast decision has been freed. */
  datatype Decision = Nothing | Unicast(peer: PeerId) | Flood | Multicast | Stale

  class FrameDecider {
    const macs: MacTableObject.MacTables
    const groups: GroupTables
    var peersList: seq<PeerId>
    var decideState: Decision
    var decideFloodCurrent: Option<PeerId>

    /** The destinations still to be handed out. */
    ghost function Left(): seq<PeerId>
      reads this, groups
    {
      match decideState
      case Nothing => []
      case Unicast(p) => [p]
      case Flood => From(peersList, decideFloodCurrent)
      case Multicast => Peers(groups.walk)
      case Stale => []
    }

    ghost predicate DecisionOk()
      reads this, groups
    {
      && (decideFloodCurrent.Some? ==> decideFloodCurrent.value in peersList)
      && (forall p :: p in Left() ==> p in peersList)
    }

    ghost predicate Valid()
      reads this, macs, groups
    {
      macs.Valid() && groups.Valid() && SamePeers(peersList, macs.model, groups.View()) && DecisionOk()
    }

    constructor (maxPeerMacs: nat, maxPeerGroups: nat)
      requires maxPeerMacs > 0 && maxPeerGroups > 0
      ensures Valid() && fresh(macs) && fresh(groups) && peersList == [] && decideState == Nothing
    {
      macs := new MacTableObject.MacTables(maxPeerMacs);
      groups := new GroupTables(maxPeerGroups);
      peersList, decideState, decideFloodCurrent := [], Nothing, None;
    }

    /** A new peer is in the list and in both tables; if a flood is under way it gets the frame as well. */
    method PeerInit(o: PeerId)
      requires Valid() && o !in peersList
      modifies this, macs, groups
      ensures Valid() && peersList == old(peersList) + [o]
      ensures macs.model == MacTable.Join(old(macs.model), o) && groups.View() == PeerJoins(old(groups.View()), o)
      ensures Left() == old(Left()) + if old(decideState).Flood? && old(decideFloodCurrent).Some? then [o] else []
    {
      hide From, Inv, Timed, SamePeers, MacTableObject.Stands, MacTable.Join, PeerJoins;
      MacPeers(macs);
      AppendPeer(peersList, macs.model, groups.View(), o);
      FromAppend(peersList, decideFloodCurrent, o);
      peersList := peersList + [o];
      macs.PeerInit(o);
      groups.PeerInit(o);
    }

    /** A peer that leaves is gone from the list and from both tables, and from the destinations still to come. */
    method PeerFree(o: PeerId)
      requires Valid() && o in peersList
      modifies this, macs, groups
      ensures Valid() && peersList == Without(old(peersList), o)
      ensures macs.model == MacTable.Leave(old(macs.model), o)
      ensures groups.View() == PeerLeaves(old(groups.View()), groups.maxPeerGroups, o)
      ensures Left() == Without(old(Left()), o)
    {
      hide From, Inv, Timed, Without, PeerLeaves, SamePeers, MacTableObject.Stands, MacTable.Leave, Next;
      MacPeers(macs);
      OnceEach(peersList, macs.model, groups.View());
      RemovePeer(peersList, macs.model, groups.View(), groups.maxPeerGroups, o);
      LeaveWalk(groups.View(), groups.maxPeerGroups, o, groups.walkSig, groups.walk);
      ForgetPeer(o);
      groups.PeerFree(o);
      macs.PeerFree(o);
      WithoutAll(old(Left()), old(peersList), o);
    }

    /** The peer is no destination any more, and a flood that stands at it moves on. */
    method ForgetPeer(o: PeerId)
      requires NoDup(peersList) && o in peersList && DecisionOk()
      modifies this`peersList, this`decideState, this`decideFloodCurrent
      ensures peersList == Without(old(peersList), o)
      ensures decideFloodCurrent.Some? ==> decideFloodCurrent.value in peersList
      ensures decideState.Multicast? <==> old(decideState).Multicast?
      ensures !decideState.Multicast? ==> Left() == Without(old(Left()), o)
    {
      hide From, Without, Next, NoDup;
      SmallWithout(o);
      FloodWithout(peersList, decideFloodCurrent, o);
      if decideState == Unicast(o) {
        decideState := Nothing;
      }
      if decideState.Unicast? {
        WithoutAbsent([decideState.peer], o);
      }
      if decideFloodCurrent == Some(o) {
        decideFloodCurrent := Next(peersList, o);
      }
      peersList := Without(peersList, o);
    }

    /** FrameDeciderPeer_Analyze, for the source address of a frame from peer `o`. */
    method LearnMac(o: PeerId, mac: seq<Byte>)
      requires Valid() && o in peersList && |mac| == 6
      modifies macs
      ensures Valid() && macs.model == MacTable.Learn(old(macs.model), macs.maxPeerMacs, o, MacKey(mac))
    {
      hide Inv, Timed, SamePeers, MacTableObject.Stands, MacTable.Learn, GetBE, From;
      MacPeers(macs);
      InBoth(peersList, macs.model, groups.View(), o);
      ghost var t := macs.model;
      macs.AddMacToPeer(o, MacKey(mac));
      MacPeers(macs);
      SamePeersStill(peersList, t, macs.model, groups.View(), groups.View());
    }

    /** FrameDeciderPeer_Analyze, for a membership report, also in the middle of a multicast enumeration. */
    method JoinsGroup(o: PeerId, group: Group, until: int)
      requires Valid() && o in peersList
      modifies groups
      ensures Valid() && o in old(groups.used)
      ensures groups.View() == JoinGroup(old(groups.View()), groups.maxPeerGroups, o, group, until)
      ensures groups.walk == AfterJoin(old(groups.View()), groups.maxPeerGroups, o, group, groups.walkSig,
                old(groups.walk))
    {
      hide Inv, Timed, SamePeers, MacTableObject.Stands, JoinGroup, From, AfterJoin, Standing;
      ghost var x := groups.View();
      InBoth(peersList, macs.model, x, o);
      JoinGroupKeeps(x, groups.maxPeerGroups, o, group, until);
      groups.AddGroupToPeer(o, group, until);
      WalkPresent(groups.View(), groups.maxPeerGroups, groups.walkSig, groups.walk);
      SamePeersStill(peersList, macs.model, macs.model, x, groups.View());
    }

    /** group_entry_timer_handler */
    method GroupExpires(e: Membership)
      requires Valid() && Has(groups.View(), e)
      modifies groups
      ensures Valid() && forall y :: Has(groups.View(), y) <==> Has(old(groups.View()), y) && y != e
      ensures groups.walk == Without(old(groups.walk), e)
    {
      hide Inv, Timed, SamePeers, MacTableObject.Stands, RemoveGroup, From, Standing, Without;
      ghost var x := groups.View();
      RemoveGroupKeeps(x, groups.maxPeerGroups, e);
      groups.RemoveGroupEntry(e);
      WalkPresent(groups.View(), groups.maxPeerGroups, groups.walkSig, groups.walk);
      SamePeersStill(peersList, macs.model, macs.model, x, groups.View());
    }

    /**
     * Decides on a frame, unless a multicast decision was left unfinished; in that case the iterator of that decision
     * is freed and nothing else happens.
     */
    method AnalyzeAndDecide(f: FrameInfo, limit: int)
      requires Valid() && FrameOk(f) && !decideState.Stale?
      modifies this`decideState, this`decideFloodCurrent, groups`walk, groups`walkSig, groups`endtime
      ensures Valid() && (decideState.Stale? <==> old(decideState).Multicast?)
      ensures decideState.Stale? ==> groups.View() == old(groups.View())
      ensures !decideState.Stale? ==> Left() == Targets(f, peersList, macs.model, groups.View())
      ensures !decideState.Stale? ==> forall e :: Has(groups.View(), e) ==>
                e in groups.endtime && e in old(groups.endtime)
                && groups.endtime[e] == TimeAfter(f, e, old(groups.endtime)[e], limit)
    {
      hide Inv, MacTableObject.Stands, GetBE, SigForMac, SamePeers, From, Targets, Standing, Timed, Has, TimeAfter,
        Peers, First, MacTable.Consistent;
      if decideState.Multicast? {
        decideState := Stale;
        groups.EndWalk();
        return;
      }
      ghost var x := groups.View();
      HandleQuery(f, limit);
      SamePeersStill(peersList, macs.model, macs.model, x, groups.View());
      MacConsistent(macs);
      TargetsAllPresent(f, peersList, macs.model, groups.View(), macs.maxPeerMacs, groups.maxPeerGroups);
      FirstListed(peersList);
      decideState := Decide(f);
      decideFloodCurrent := if decideState.Flood? then First(peersList) else None;
    }

    /** A query for a group lowers the timers of its members. */
    method HandleQuery(f: FrameInfo, limit: int)
      requires groups.Valid()
      modifies groups`endtime
      ensures groups.Valid()
      ensures forall e :: Has(groups.View(), e) ==>
                e in groups.endtime && e in old(groups.endtime)
                && groups.endtime[e] == TimeAfter(f, e, old(groups.endtime)[e], limit)
    {
      hide Inv, Standing;
      if f.Frame? && f.query.Some? {
        groups.LowerGroupTimers(f.query.value, limit);
      }
    }

    /** The kind of decision a frame calls for; for a multicast frame the iterator is set up. */
    method Decide(f: FrameInfo) returns (d: Decision)
      requires macs.Valid() && groups.Valid() && FrameOk(f)
      modifies groups`walk, groups`walkSig
      ensures groups.Valid() && !d.Stale?
      ensures d.Flood? ==> peersList == Targets(f, peersList, macs.model, groups.View())
      ensures d.Nothing? ==> Targets(f, peersList, macs.model, groups.View()) == []
      ensures d.Unicast? ==> Targets(f, peersList, macs.model, groups.View()) == [d.peer]
      ensures d.Multicast? ==> Targets(f, peersList, macs.model, groups.View()) == Peers(groups.walk)
    {
      hide Inv, Timed, MacTableObject.Stands, GetBE, SigForMac, SamePeers, From, Standing;
      TreeIsChains(groups.View(), groups.maxPeerGroups);
      if f.Short? {
        return Nothing;
      }
      if f.igmp || f.dest == BROADCAST_MAC {
        return Flood;
      }
      if f.dest[..3] == MULTICAST_HEADER {
        var sig := SigForMac(f.dest);
        if sig in groups.multicastTree {
          groups.StartWalk(sig);
          return Multicast;
        }
        return Nothing;
      }
      var owner := macs.Lookup(MacKey(f.dest));
      if owner.Some? {
        return Unicast(owner.value);
      }
      return Flood;
    }

    /** Hands out the next destination, and none once all have been. */
    method NextDestination() returns (next: Option<PeerId>)
      requires Valid() && !decideState.Stale?
      modifies this`decideState, this`decideFloodCurrent, groups`walk
      ensures Valid() && !decideState.Stale?
      ensures old(Left()) == [] ==> next == None && decideState == Nothing
      ensures old(Left()) != [] ==> next == Some(old(Left())[0]) && Left() == old(Left())[1..]
    {
      hide From, Inv, Has, MacTableObject.Stands, Standing;
      match decideState {
        case Nothing => next := None;
        case Unicast(p) => decideState := Nothing; next := Some(p);
        case Flood =>
          if decideFloodCurrent == None {
            FromNone(peersList);
            decideState := Nothing;
            next := None;
          } else {
            next := decideFloodCurrent;
            FromNext(peersList, next.value);
            decideFloodCurrent := Next(peersList, next.value);
          }
        case Multicast =>
          next := groups.NextInWalk();
          if next == None {
            decideState := Nothing;
          }
      }
    }

    /**
     * device_dpsource_handler: the frame is routed to its targets in order, each but the last flagged that more
     * follow, and the decision is left drained, so the next frame is decided on in turn.
     */
    method Forward(f: FrameInfo, limit: int) returns (routed: seq<(PeerId, bool)>)
      requires Valid() && FrameOk(f) && !decideState.Stale? && !decideState.Multicast?
      modifies this`decideState, this`decideFloodCurrent, groups`walk, groups`walkSig, groups`endtime
      ensures Valid() && decideState == Nothing
      ensures var ts := Targets(f, peersList, macs.model, groups.View());
        |routed| == |ts| && forall k :: 0 <= k < |ts| ==> routed[k] == (ts[k], k + 1 < |ts|)
    {
      hide Targets, Inv, Has, MacTableObject.Stands, SamePeers, From, Standing, Timed, TimeAfter, Left, DecisionOk;
      AnalyzeAndDecide(f, limit);
      ghost var x := groups.View();
      ghost var ts := Left();
      routed := [];
      var peer := NextDestination();
      while peer.Some?
        invariant Valid() && !decideState.Stale? && groups.View() == x
        invariant |routed| <= |ts| && (peer == None <==> |routed| == |ts|)
        invariant peer == None ==> decideState == Nothing
        invariant peer.Some? ==> peer.value == ts[|routed|] && Left() == ts[|routed| + 1..]
        invariant forall k :: 0 <= k < |routed| ==> routed[k] == (ts[k], k + 1 < |ts|)
        decreases |ts| - |routed|
      {
        var next := NextDestination();
        routed := routed + [(peer.value, next.Some?)];
        peer := next;
      }
    }
  }

  // ---- facts for the object ----

  lemma FromFirst(l: seq<PeerId>)
    ensures From(l, First(l)) == l
  {
  }

  lemma FirstListed(l: seq<PeerId>)
    ensures From(l, First(l)) == l && (First(l).Some? ==> First(l).value in l)
  {
    FromFirst(l);
  }

  lemma FromNone(l: seq<PeerId>)
    ensures From(l, None) == []
  {
  }

  /** What remains of a flood when a peer leaves, with the position moved on if it was at that peer. */
  lemma FloodWithout(l: seq<PeerId>, at: Option<PeerId>, o: PeerId)
    requires NoDup(l) && o in l && (at.Some? ==> at.value in l)
    ensures var at1 := if at == Some(o) then Next(l, o) else at;
      From(Without(l, o), at1) == Without(From(l, at), o) && (at1.Some? ==> at1.value in Without(l, o))
  {
    hide From;
    if at == Some(o) {
      FromNext(l, o);
      var n := Next(l, o);
      FromWithout(l, n, o);
      WithoutAppend([o], From(l, n), o);
      SmallWithout(o);
      assert [] + Without(From(l, n), o) == Without(From(l, n), o);
    } else {
      FromWithout(l, at, o);
    }
  }

  lemma WithoutAll(a: seq<PeerId>, b: seq<PeerId>, o: PeerId)
    requires forall p :: p in a ==> p in b
    ensures forall p :: p in Without(a, o) ==> p in Without(b, o)
  {
  }

  lemma SmallWithout(o: PeerId)
    ensures Without([o], o) == [] && Without<PeerId>([], o) == []
  {
  }

  lemma WalkPresent(x: Index, max: nat, s: Sig, rest: seq<Membership>)
    requires Inv(x, max) && Standing(x, s, rest)
    ensures forall p :: p in Peers(rest) ==> p in x.used
  {
    StandingFacts(x, max, s, rest);
    hide Inv, Standing;
    forall p | p in Peers(rest) ensures p in x.used {
      var i :| 0 <= i < |rest| && Peers(rest)[i] == p;
      assert rest[i] in rest;
    }
  }

  lemma MacPeers(macs: MacTableObject.MacTables)
    requires macs.Valid()
    ensures macs.peers.Keys == macs.model.lru.Keys
  {
  }

  lemma MacConsistent(macs: MacTableObject.MacTables)
    requires macs.Valid()
    ensures MacTable.Consistent(macs.model, macs.maxPeerMacs)
  {
  }

  lemma OnceEach(peers: seq<PeerId>, t: MacTable.Table, x: Index)
    requires SamePeers(peers, t, x)
    ensures NoDup(peers)
  {
  }

  lemma InBoth(peers: seq<PeerId>, t: MacTable.Table, x: Index, o: PeerId)
    requires SamePeers(peers, t, x) && o in peers
    ensures o in t.lru && o in x.used
  {
  }

  lemma SamePeersStill(peers: seq<PeerId>, t: MacTable.Table, t1: MacTable.Table, x: Index, x1: Index)
    requires SamePeers(peers, t, x) && t1.lru.Keys == t.lru.Keys && x1.used.Keys == x.used.Keys
    ensures SamePeers(peers, t1, x1)
  {
    forall p ensures p in peers <==> p in t1.lru {
      assert p in t.lru <==> p in t.lru.Keys;
    }
    forall p ensures p in peers <==> p in x1.used {
      assert p in x.used <==> p in x.used.Keys;
    }
  }

  lemma AppendPeer(peers: seq<PeerId>, t: MacTable.Table, x: Index, o: PeerId)
    requires SamePeers(peers, t, x) && o !in peers
    ensures SamePeers(peers + [o], MacTable.Join(t, o), PeerJoins(x, o)) && o !in t.lru && o !in x.used
  {
  }

  lemma RemovePeer(peers: seq<PeerId>, t: MacTable.Table, x: Index, max: nat, o: PeerId)
    requires SamePeers(peers, t, x) && o in peers && Inv(x, max)
    ensures o in t.lru && o in x.used
    ensures SamePeers(Without(peers, o), MacTable.Leave(t, o), PeerLeaves(x, max, o))
  {
    hide Inv, PeerLeaves;
    PeerLeavesKeeps(x, max, o);
    WithoutNoDup(peers, o);
  }

  lemma TargetsAllPresent(f: FrameInfo, peers: seq<PeerId>, t: MacTable.Table, x: Index, maxMacs: nat, maxGroups: nat)
    requires FrameOk(f) && SamePeers(peers, t, x) && MacTable.Consistent(t, maxMacs) && Inv(x, maxGroups)
    ensures forall p :: p in Targets(f, peers, t, x) ==> p in peers
  {
    hide Targets, SamePeers, MacTable.Consistent, Inv;
    forall p | p in Targets(f, peers, t, x)
      ensures p in peers
    {
      TargetsPresent(f, peers, t, x, maxMacs, maxGroups, p);
    }
  }

  lemma TreeIsChains(x: Index, max: nat)
    requires Inv(x, max)
    ensures x.tree.Keys == x.chains.Keys
  {
  }
}
