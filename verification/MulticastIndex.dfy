/**
 * The multicast index of client/FrameDecider.c. Every peer has a bounded list of the groups it joined. All memberships
 * whose groups share the low 23 bits are linked in one list without a head; one of them, the master, stands in the
 * tree for the list, and when it goes another one is elected.
 */
module MulticastIndex {
  import opened Common

  type PeerId = nat
  type Group = nat
  type Sig = nat

  const SIG_RANGE: nat := 0x80_0000

  /** compute_sig_for_group: the low 23 bits of the group address. */
  function SigOf(g: Group): (s: Sig)
    ensures s < SIG_RANGE
  {
    g % SIG_RANGE
  }

  /** A used group entry of a peer. */
  datatype Membership = Membership(peer: PeerId, group: Group)

  /**
   * `used` are the used lists of the peers, oldest first; `chains` the sig lists; `tree` the multicast tree; `masters`
   * the entries whose master flag is set, which is only meaningful for used entries; `endtime` the timers.
   */
  datatype Index = Index(used: map<PeerId, seq<Group>>, chains: map<Sig, seq<Membership>>, tree: map<Sig, Membership>,
                         masters: set<Membership>, endtime: map<Membership, int>)

  const IndexInit := Index(map[], map[], map[], {}, map[])

  predicate Has(x: Index, e: Membership) {
    e.peer in x.used && e.group in x.used[e.peer]
  }

  /** The chain of a signature is exactly the memberships with that signature, each once. */
  ghost predicate ChainsOk(x: Index) {
    && (forall s :: s in x.chains ==> x.chains[s] != [] && NoDup(x.chains[s]))
    && (forall s, e :: s in x.chains && e in x.chains[s] ==> Has(x, e) && SigOf(e.group) == s)
    && (forall e :: Has(x, e) ==> SigOf(e.group) in x.chains && e in x.chains[SigOf(e.group)])
  }

  /** Every chain has exactly one master, which is the one the tree names. */
  ghost predicate MastersOk(x: Index) {
    && x.tree.Keys == x.chains.Keys
    && (forall s :: s in x.chains ==> x.tree[s] in x.chains[s])
    && (forall s, e :: s in x.chains && e in x.chains[s] ==> (e in x.masters <==> x.tree[s] == e))
  }

  ghost predicate ListsOk(x: Index, max: nat) {
    forall p :: p in x.used ==> NoDup(x.used[p]) && |x.used[p]| <= max
  }

  ghost predicate Inv(x: Index, max: nat) {
    max > 0 && ListsOk(x, max) && ChainsOk(x) && MastersOk(x)
  }

  // ---- list operations ----

  function IndexOf(c: seq<Membership>, e: Membership): (i: nat)
    requires e in c
    ensures i < |c| && c[i] == e
  {
    if c[0] == e then 0 else 1 + IndexOf(c[1..], e)
  }

  /** LinkedList3Node_InitAfter */
  function InsertAfter(c: seq<Membership>, at: Membership, e: Membership): seq<Membership>
    requires at in c
  {
    var i := IndexOf(c, at);
    c[..i + 1] + [e] + c[i + 1..]
  }

  /** LinkedList3Node_NextOrPrev */
  function NextOrPrev(c: seq<Membership>, e: Membership): Membership
    requires e in c && |c| > 1
  {
    var i := IndexOf(c, e);
    if i + 1 < |c| then c[i + 1] else c[i - 1]
  }

  // ---- operations ----

  /** What the tree names for a signature is on its chain. */
  ghost predicate AddReady(x: Index, e: Membership) {
    SigOf(e.group) in x.tree ==> SigOf(e.group) in x.chains && x.tree[SigOf(e.group)] in x.chains[SigOf(e.group)]
  }

  /** add_to_multicast */
  function AddToMulticast(x: Index, e: Membership): Index
    requires AddReady(x, e)
  {
    var s := SigOf(e.group);
    if s in x.tree then
      x.(masters := x.masters - {e}, chains := x.chains[s := InsertAfter(x.chains[s], x.tree[s], e)])
    else
      x.(masters := x.masters + {e}, tree := x.tree[s := e], chains := x.chains[s := [e]])
  }

  /** remove_from_multicast */
  function RemoveFromMulticast(x: Index, e: Membership): Index
    requires SigOf(e.group) in x.chains && e in x.chains[SigOf(e.group)]
  {
    var s := SigOf(e.group);
    var c := x.chains[s];
    var x1 :=
      if e !in x.masters then x
      else if |c| > 1 then
        var m := NextOrPrev(c, e);
        x.(masters := x.masters + {m}, tree := (x.tree - {s})[s := m])
      else x.(tree := x.tree - {s});
    var rest := Without(c, e);
    x1.(chains := if rest == [] then x1.chains - {s} else x1.chains[s := rest])
  }

  function Unlist(x: Index, e: Membership): Index
    requires e.peer in x.used
  {
    x.(used := x.used[e.peer := Without(x.used[e.peer], e.group)])
  }

  function List(x: Index, e: Membership): Index
    requires e.peer in x.used
  {
    x.(used := x.used[e.peer := x.used[e.peer] + [e.group]])
  }

  /** remove_group_entry, as the group timer calls it. */
  function RemoveGroup(x: Index, e: Membership): Index
    requires Has(x, e) && SigOf(e.group) in x.chains && e in x.chains[SigOf(e.group)]
  {
    Unlist(RemoveFromMulticast(x, e), e)
  }

  /** The index without the peer's oldest membership, if its list is full. */
  function MakeRoom(x: Index, max: nat, p: PeerId): Index
    requires p in x.used && ChainsOk(x)
  {
    if |x.used[p]| >= max && x.used[p] != [] then
      assert Has(x, Membership(p, x.used[p][0]));
      RemoveGroup(x, Membership(p, x.used[p][0]))
    else x
  }

  /** A membership already listed moves to the end of the used list. */
  function Touch(x: Index, e: Membership): Index
    requires e.peer in x.used
  {
    x.(used := x.used[e.peer := Without(x.used[e.peer], e.group) + [e.group]])
  }

  function Admit(x: Index, max: nat, e: Membership): Index
    requires e.peer in x.used && Inv(x, max) && !Has(x, e)
  {
    MakeRoomKeeps(x, max, e.peer);
    AddToMulticast(List(MakeRoom(x, max, e.peer), e), e)
  }

  /** add_group_to_peer */
  function JoinGroup(x: Index, max: nat, p: PeerId, g: Group, until: int): Index
    requires p in x.used && Inv(x, max)
  {
    var e := Membership(p, g);
    var x1 := if g in x.used[p] then Touch(x, e) else Admit(x, max, e);
    x1.(endtime := x1.endtime[e := until])
  }

  function PeerJoins(x: Index, p: PeerId): Index {
    x.(used := x.used[p := []])
  }

  // ---- each operation keeps the index ----

  lemma InsertAfterFacts(c: seq<Membership>, at: Membership, e: Membership)
    requires at in c && NoDup(c) && e !in c
    ensures NoDup(InsertAfter(c, at, e))
    ensures forall y :: y in InsertAfter(c, at, e) <==> y in c || y == e
  {
    var i := IndexOf(c, at);
    var r := InsertAfter(c, at, e);
    assert c == c[..i + 1] + c[i + 1..];
    forall j | 0 <= j < |r| ensures r[j] == if j <= i then c[j] else if j == i + 1 then e else c[j - 1] {
    }
  }

  /** A listed membership that is not yet in the index. */
  ghost predicate Pending(x: Index, max: nat, e: Membership) {
    && max > 0 && ListsOk(x, max) && Has(x, e) && MastersOk(x)
    && (forall s :: s in x.chains ==> x.chains[s] != [] && NoDup(x.chains[s]))
    && (forall s, y :: s in x.chains && y in x.chains[s] ==> Has(x, y) && SigOf(y.group) == s && y != e)
    && (forall y :: Has(x, y) && y != e ==> SigOf(y.group) in x.chains && y in x.chains[SigOf(y.group)])
  }

  lemma PendingFacts(x: Index, max: nat, e: Membership, s: Sig)
    requires Pending(x, max, e) && s in x.chains
    ensures s in x.tree && x.tree[s] in x.chains[s] && x.tree[s] in x.masters && x.chains[s] != [] && NoDup(x.chains[s])
    ensures e !in x.chains[s]
  {
  }

  lemma AddChain(x: Index, max: nat, e: Membership)
    requires Pending(x, max, e)
    ensures AddReady(x, e)
    ensures var s := SigOf(e.group); var x1 := AddToMulticast(x, e);
      && x1.chains.Keys == x.chains.Keys + {s} && x1.chains[s] != [] && NoDup(x1.chains[s])
      && (forall y :: y in x1.chains[s] <==> y == e || (s in x.chains && y in x.chains[s]))
      && (forall r :: r in x.chains && r != s ==> x1.chains[r] == x.chains[r])
  {
    hide NoDup, InsertAfter, Has;
    var s := SigOf(e.group);
    if s in x.tree {
      PendingFacts(x, max, e, s);
      InsertAfterFacts(x.chains[s], x.tree[s], e);
    } else {
      OneNoDup(e);
    }
  }

  lemma OneNoDup(e: Membership)
    ensures NoDup([e])
  {
  }

  lemma AddChains(x: Index, max: nat, e: Membership)
    requires Pending(x, max, e)
    ensures AddReady(x, e) && ChainsOk(AddToMulticast(x, e))
  {
    hide NoDup, AddToMulticast, MastersOk;
    AddChain(x, max, e);
    AddSame(x, e);
    var x1 := AddToMulticast(x, e);
    forall r, y | r in x1.chains && y in x1.chains[r] ensures Has(x1, y) && SigOf(y.group) == r {
      assert Has(x, y) && SigOf(y.group) == r;
    }
    forall y | Has(x1, y) ensures SigOf(y.group) in x1.chains && y in x1.chains[SigOf(y.group)] {
      assert Has(x, y);
    }
  }

  lemma AddSame(x: Index, e: Membership)
    requires AddReady(x, e)
    ensures AddToMulticast(x, e).used == x.used && (forall y :: Has(AddToMulticast(x, e), y) <==> Has(x, y))
  {
  }

  lemma AddMasters(x: Index, max: nat, e: Membership)
    requires Pending(x, max, e)
    ensures AddReady(x, e) && MastersOk(AddToMulticast(x, e))
  {
    hide NoDup, InsertAfter, Has;
    AddChain(x, max, e);
    var s := SigOf(e.group);
    if s in x.chains {
      PendingFacts(x, max, e, s);
    }
  }

  lemma AddKeeps(x: Index, max: nat, e: Membership)
    requires Pending(x, max, e)
    ensures AddReady(x, e) && Inv(AddToMulticast(x, e), max)
  {
    hide NoDup, AddToMulticast, ChainsOk, MastersOk;
    AddChains(x, max, e);
    AddMasters(x, max, e);
    AddSame(x, e);
  }

  /** The new entry is master exactly if it is the first of its signature; otherwise the one in the tree still is. */
  lemma AddMaster(x: Index, max: nat, e: Membership)
    requires Pending(x, max, e)
    ensures AddReady(x, e) && (e in AddToMulticast(x, e).masters <==> SigOf(e.group) !in x.chains)
    ensures SigOf(e.group) in x.tree ==> x.tree[SigOf(e.group)] in x.masters
  {
    hide NoDup, InsertAfter, Has;
    var s := SigOf(e.group);
    if s in x.chains {
      PendingFacts(x, max, e, s);
    }
  }

  /** A master that goes is the one in the tree, and the one elected was none. */
  lemma ElectedIsNew(x: Index, max: nat, e: Membership)
    requires Inv(x, max) && Has(x, e) && e in x.masters
    ensures var s := SigOf(e.group);
      && s in x.chains && e in x.chains[s] && s in x.tree && x.tree[s] == e
      && (|x.chains[s]| > 1 ==> NextOrPrev(x.chains[s], e) !in x.masters)
  {
    var c := x.chains[SigOf(e.group)];
    if |c| > 1 {
      NextOrPrevFacts(c, e);
    }
  }

  lemma NextOrPrevFacts(c: seq<Membership>, e: Membership)
    requires e in c && NoDup(c) && |c| > 1
    ensures NextOrPrev(c, e) in c && NextOrPrev(c, e) != e
  {
  }

  lemma RemoveChain(x: Index, max: nat, e: Membership)
    requires Inv(x, max) && Has(x, e)
    ensures var s := SigOf(e.group); s in x.chains && e in x.chains[s]
    ensures var s := SigOf(e.group); var x1 := RemoveFromMulticast(x, e);
      && x1.used == x.used
      && (forall r :: r in x1.chains ==> r in x.chains && x1.chains[r] != [] && NoDup(x1.chains[r]))
      && (forall r, y :: r in x1.chains ==> (y in x1.chains[r] <==> y in x.chains[r] && (r == s ==> y != e)))
      && (forall r, y :: r in x.chains && y in x.chains[r] && (r == s ==> y != e) ==> r in x1.chains)
  {
    hide ListsOk, NextOrPrev;
    var s := SigOf(e.group);
    var c := x.chains[s];
    WithoutNoDup(c, e);
  }

  /** Removing leaves the entry listed but out of the index; a new master is elected if it was the master. */
  lemma RemoveLeavesPending(x: Index, max: nat, e: Membership)
    requires Inv(x, max) && Has(x, e)
    ensures SigOf(e.group) in x.chains && e in x.chains[SigOf(e.group)]
    ensures Pending(RemoveFromMulticast(x, e), max, e) && RemoveFromMulticast(x, e).used == x.used
  {
    hide RemoveFromMulticast, MastersOk, NoDup;
    RemoveChain(x, max, e);
    RemoveMasters(x, max, e);
    var x1 := RemoveFromMulticast(x, e);
    forall r, y | r in x1.chains && y in x1.chains[r] ensures Has(x1, y) && SigOf(y.group) == r && y != e {
      assert y in x.chains[r];
    }
    forall y | Has(x1, y) && y != e ensures SigOf(y.group) in x1.chains && y in x1.chains[SigOf(y.group)] {
      assert Has(x, y);
    }
  }

  lemma RemoveMasters(x: Index, max: nat, e: Membership)
    requires Inv(x, max) && Has(x, e)
    ensures MastersOk(RemoveFromMulticast(x, e))
  {
    hide ListsOk, Without, NextOrPrev, SigOf;
    var s := SigOf(e.group);
    var c := x.chains[s];
    var x1 := RemoveFromMulticast(x, e);
    WithoutNoDup(c, e);
    if |c| > 1 {
      NextOrPrevFacts(c, e);
    }
    assert Without(c, e) == [] <==> |c| == 1;
    forall r, y | r in x1.chains && y in x1.chains[r] ensures y in x1.masters <==> x1.tree[r] == y {
      assert y in x.chains[r];
    }
  }

  lemma UnlistKeeps(x: Index, max: nat, e: Membership)
    requires Pending(x, max, e)
    ensures Inv(Unlist(x, e), max) && !Has(Unlist(x, e), e)
    ensures |Unlist(x, e).used[e.peer]| == |x.used[e.peer]| - 1
    ensures forall y :: Has(Unlist(x, e), y) <==> Has(x, y) && y != e
  {
    WithoutNoDup(x.used[e.peer], e.group);
    var x1 := Unlist(x, e);
    forall y ensures Has(x1, y) <==> Has(x, y) && y != e {
    }
  }

  /** Leaving a group removes exactly that membership. */
  lemma RemoveGroupKeeps(x: Index, max: nat, e: Membership)
    requires Inv(x, max) && Has(x, e)
    ensures SigOf(e.group) in x.chains && e in x.chains[SigOf(e.group)]
    ensures Inv(RemoveGroup(x, e), max)
    ensures forall y :: Has(RemoveGroup(x, e), y) <==> Has(x, y) && y != e
    ensures |RemoveGroup(x, e).used[e.peer]| == |x.used[e.peer]| - 1 && RemoveGroup(x, e).used.Keys == x.used.Keys
  {
    hide Inv, Pending, RemoveFromMulticast;
    RemoveLeavesPending(x, max, e);
    UnlistKeeps(RemoveFromMulticast(x, e), max, e);
  }

  lemma MakeRoomKeeps(x: Index, max: nat, p: PeerId)
    requires Inv(x, max) && p in x.used
    ensures ChainsOk(x)
    ensures Inv(MakeRoom(x, max, p), max) && p in MakeRoom(x, max, p).used && |MakeRoom(x, max, p).used[p]| < max
    ensures forall y :: Has(MakeRoom(x, max, p), y) ==> Has(x, y)
    ensures forall g :: g !in x.used[p] ==> AddReady(List(MakeRoom(x, max, p), Membership(p, g)), Membership(p, g))
  {
    if |x.used[p]| >= max {
      RemoveGroupKeeps(x, max, Membership(p, x.used[p][0]));
    }
    var x1 := MakeRoom(x, max, p);
    forall g | g !in x.used[p] ensures AddReady(List(x1, Membership(p, g)), Membership(p, g)) {
    }
  }

  lemma ListPending(x: Index, max: nat, e: Membership)
    requires Inv(x, max) && e.peer in x.used && !Has(x, e) && |x.used[e.peer]| < max
    ensures Pending(List(x, e), max, e)
    ensures forall y :: Has(List(x, e), y) <==> Has(x, y) || y == e
  {
    var x1 := List(x, e);
    forall y ensures Has(x1, y) <==> Has(x, y) || y == e {
    }
  }

  /** A membership to be admitted is, once listed, just not in the index yet. */
  lemma ReadyToAdmit(x: Index, max: nat, e: Membership)
    requires Inv(x, max) && e.peer in x.used && !Has(x, e)
    ensures ChainsOk(x) && e.peer in MakeRoom(x, max, e.peer).used
    ensures Pending(List(MakeRoom(x, max, e.peer), e), max, e)
  {
    hide Inv, Pending, MakeRoom;
    MakeRoomKeeps(x, max, e.peer);
    ListPending(MakeRoom(x, max, e.peer), max, e);
  }

  lemma TouchKeeps(x: Index, max: nat, p: PeerId, g: Group)
    requires Inv(x, max) && p in x.used && g in x.used[p]
    ensures var x1 := Touch(x, Membership(p, g));
      Inv(x1, max) && forall y :: Has(x1, y) <==> Has(x, y)
  {
    var l := Without(x.used[p], g) + [g];
    var x1 := Touch(x, Membership(p, g));
    WithoutNoDup(x.used[p], g);
    assert forall h :: h in l <==> h in x.used[p];
    forall y ensures Has(x1, y) <==> Has(x, y) {
    }
  }

  /** The membership that a newly joined group displaces. */
  ghost predicate Displaced(x: Index, max: nat, p: PeerId, y: Membership) {
    p in x.used && |x.used[p]| >= max && x.used[p] != [] && y == Membership(p, x.used[p][0])
  }

  lemma MakeRoomMembers(x: Index, max: nat, p: PeerId)
    requires Inv(x, max) && p in x.used
    ensures Inv(MakeRoom(x, max, p), max) && MakeRoom(x, max, p).used.Keys == x.used.Keys
    ensures |MakeRoom(x, max, p).used[p]| < max
    ensures forall y :: Has(MakeRoom(x, max, p), y) <==> Has(x, y) && !Displaced(x, max, p, y)
  {
    if |x.used[p]| >= max {
      RemoveGroupKeeps(x, max, Membership(p, x.used[p][0]));
    }
  }

  lemma AdmitKeeps(x: Index, max: nat, e: Membership)
    requires Inv(x, max) && e.peer in x.used && !Has(x, e)
    ensures var x1 := Admit(x, max, e);
      && Inv(x1, max) && Has(x1, e) && x1.used.Keys == x.used.Keys
      && forall y :: y != e ==> (Has(x1, y) <==> Has(x, y) && !Displaced(x, max, e.peer, y))
  {
    hide Inv, Pending, Has, MakeRoom, Displaced;
    MakeRoomKeeps(x, max, e.peer);
    MakeRoomMembers(x, max, e.peer);
    var x1 := MakeRoom(x, max, e.peer);
    ListPending(x1, max, e);
    var x2 := List(x1, e);
    AddKeeps(x2, max, e);
    SameMembers(x2, AddToMulticast(x2, e));
  }

  lemma SameMembers(x: Index, x1: Index)
    requires x.used == x1.used
    ensures forall y :: Has(x, y) <==> Has(x1, y)
  {
  }

  /**
   * Joining adds exactly that membership; only the peer's oldest membership can be displaced, when its list is full.
   */
  lemma JoinGroupKeeps(x: Index, max: nat, p: PeerId, g: Group, until: int)
    requires Inv(x, max) && p in x.used
    ensures var x1 := JoinGroup(x, max, p, g, until);
      && Inv(x1, max) && Has(x1, Membership(p, g)) && x1.used.Keys == x.used.Keys
      && forall y :: y != Membership(p, g) ==>
          (Has(x1, y) <==> Has(x, y) && (g in x.used[p] || !Displaced(x, max, p, y)))
  {
    hide Inv, Admit, Displaced;
    var e := Membership(p, g);
    if g in x.used[p] {
      TouchKeeps(x, max, p, g);
      EndtimeOnly(Touch(x, e), max, x.endtime[e := until]);
    } else {
      AdmitKeeps(x, max, e);
      EndtimeOnly(Admit(x, max, e), max, Admit(x, max, e).endtime[e := until]);
    }
  }

  lemma EndtimeOnly(x: Index, max: nat, endtime: map<Membership, int>)
    requires Inv(x, max)
    ensures Inv(x.(endtime := endtime), max) && forall y :: Has(x.(endtime := endtime), y) <==> Has(x, y)
  {
  }

  lemma PeerJoinsKeeps(x: Index, max: nat, p: PeerId)
    requires Inv(x, max) && p !in x.used
    ensures Inv(PeerJoins(x, p), max) && forall y :: Has(PeerJoins(x, p), y) <==> Has(x, y)
  {
    var x1 := PeerJoins(x, p);
    forall y ensures Has(x1, y) <==> Has(x, y) {
    }
  }

  /** FrameDeciderPeer_Free: the peer goes away with all its memberships. */
  function PeerLeaves(x: Index, max: nat, p: PeerId): Index
    requires Inv(x, max) && p in x.used
    decreases |x.used[p]|
  {
    if x.used[p] == [] then x.(used := x.used - {p})
    else
      var e := Membership(p, x.used[p][0]);
      assert Has(x, e);
      RemoveGroupKeeps(x, max, e);
      PeerLeaves(RemoveGroup(x, e), max, p)
  }

  lemma {:induction false} PeerLeavesKeeps(x: Index, max: nat, p: PeerId)
    requires Inv(x, max) && p in x.used
    ensures var x1 := PeerLeaves(x, max, p);
      && Inv(x1, max) && x1.used.Keys == x.used.Keys - {p}
      && forall y :: Has(x1, y) <==> Has(x, y) && y.peer != p
    decreases |x.used[p]|
  {
    if x.used[p] == [] {
      NobodyLeaves(x, max, p);
    } else {
      var e := Membership(p, x.used[p][0]);
      assert Has(x, e);
      RemoveGroupKeeps(x, max, e);
      hide Inv, RemoveGroup, Has;
      PeerLeavesKeeps(RemoveGroup(x, e), max, p);
    }
  }

  lemma NobodyLeaves(x: Index, max: nat, p: PeerId)
    requires Inv(x, max) && p in x.used && x.used[p] == []
    ensures var x1 := x.(used := x.used - {p}); Inv(x1, max) && forall y :: Has(x1, y) <==> Has(x, y) && y.peer != p
  {
    var x1 := x.(used := x.used - {p});
    forall y ensures Has(x1, y) <==> Has(x, y) && y.peer != p {
    }
  }

  // ---- reachable states ----

  datatype Event =
    | PeerJoined(p: PeerId)
    | PeerLeft(p: PeerId)
    | Report(p: PeerId, g: Group, until: int)
    | Expired(e: Membership)

  ghost predicate Enabled(x: Index, ev: Event) {
    match ev
    case PeerJoined(p) => p !in x.used
    case PeerLeft(p) => p in x.used
    case Report(p, _, _) => p in x.used
    case Expired(e) => Has(x, e)
  }

  ghost function Step(x: Index, max: nat, ev: Event): Index
    requires Inv(x, max) && Enabled(x, ev)
  {
    match ev
    case PeerJoined(p) => PeerJoins(x, p)
    case PeerLeft(p) => PeerLeaves(x, max, p)
    case Report(p, g, until) => JoinGroup(x, max, p, g, until)
    case Expired(e) => RemoveGroupKeeps(x, max, e); RemoveGroup(x, e)
  }

  lemma StepKeeps(x: Index, max: nat, ev: Event)
    requires Inv(x, max) && Enabled(x, ev)
    ensures Inv(Step(x, max, ev), max)
  {
    hide Inv, PeerLeaves, JoinGroup, PeerJoins, RemoveGroup;
    match ev {
      case PeerJoined(p) => PeerJoinsKeeps(x, max, p);
      case PeerLeft(p) => PeerLeavesKeeps(x, max, p);
      case Report(p, g, until) => JoinGroupKeeps(x, max, p, g, until);
      case Expired(e) => RemoveGroupKeeps(x, max, e);
    }
  }

  /** States reached from the initial one by a sequence of events. */
  ghost predicate Reaches(max: nat, x0: Index, evs: seq<Event>, x1: Index)
    requires Inv(x0, max)
    decreases |evs|
  {
    if evs == [] then x1 == x0
    else Enabled(x0, evs[0]) && (StepKeeps(x0, max, evs[0]); Reaches(max, Step(x0, max, evs[0]), evs[1..], x1))
  }

  lemma {:induction false} ReachedInv(max: nat, x0: Index, evs: seq<Event>, x1: Index)
    requires Inv(x0, max) && Reaches(max, x0, evs, x1)
    ensures Inv(x1, max)
    decreases |evs|
  {
    if evs != [] {
      StepKeeps(x0, max, evs[0]);
      ReachedInv(max, Step(x0, max, evs[0]), evs[1..], x1);
    }
  }

  /** A signature has a master exactly when some membership has that signature, and then exactly one. */
  lemma OneMasterPerSignature(x: Index, max: nat, s: Sig)
    requires Inv(x, max)
    ensures s in x.tree <==> exists e :: Has(x, e) && SigOf(e.group) == s
    ensures s in x.tree ==> Has(x, x.tree[s]) && SigOf(x.tree[s].group) == s && x.tree[s] in x.masters
    ensures forall e :: Has(x, e) && SigOf(e.group) == s && e in x.masters ==> s in x.tree && x.tree[s] == e
  {
    if s in x.tree {
      assert x.tree[s] in x.chains[s];
      assert Has(x, x.tree[s]) && SigOf(x.tree[s].group) == s;
    }
  }

  // ---- the destinations of a multicast frame ----

  /** The peers that iterating over the chain of a signature yields, in order. */
  function Destinations(x: Index, s: Sig): seq<PeerId> {
    if s in x.tree && s in x.chains then Peers(x.chains[s]) else []
  }

  function Peers(c: seq<Membership>): (r: seq<PeerId>)
    ensures |r| == |c| && forall i :: 0 <= i < |c| ==> r[i] == c[i].peer
  {
    seq(|c|, i requires 0 <= i < |c| => c[i].peer)
  }

  /** How many of a peer's groups have the signature. */
  function MatchCount(l: seq<Group>, s: Sig): nat {
    if l == [] then 0 else (if SigOf(l[0]) == s then 1 else 0) + MatchCount(l[1..], s)
  }

  ghost function Matching(l: seq<Group>, p: PeerId, s: Sig): set<Membership> {
    set g | g in l && SigOf(g) == s :: Membership(p, g)
  }

  ghost function Of(c: seq<Membership>, p: PeerId): set<Membership> {
    set e | e in c && e.peer == p
  }

  lemma {:induction false} MatchingSize(l: seq<Group>, p: PeerId, s: Sig)
    requires NoDup(l)
    ensures |Matching(l, p, s)| == MatchCount(l, s)
    decreases |l|
  {
    if l == [] {
      assert Matching(l, p, s) == {};
    } else {
      MatchingSize(l[1..], p, s);
      assert l == [l[0]] + l[1..];
      assert Matching(l, p, s) == Matching(l[1..], p, s) + if SigOf(l[0]) == s then {Membership(p, l[0])} else {};
    }
  }

  lemma OfCons(c: seq<Membership>, p: PeerId)
    requires NoDup(c) && c != []
    ensures |Of(c, p)| == |Of(c[1..], p)| + if c[0].peer == p then 1 else 0
  {
    assert c == [c[0]] + c[1..] && c[0] !in c[1..];
    if c[0].peer == p {
      assert Of(c, p) == Of(c[1..], p) + {c[0]};
    } else {
      assert Of(c, p) == Of(c[1..], p);
    }
  }

  lemma {:induction false} OfSize(c: seq<Membership>, p: PeerId)
    requires NoDup(c)
    ensures |Of(c, p)| == multiset(Peers(c))[p]
    decreases |c|
  {
    if c == [] {
      assert Of(c, p) == {};
    } else {
      OfSize(c[1..], p);
      OfCons(c, p);
      assert Peers(c) == [c[0].peer] + Peers(c[1..]);
      assert multiset(Peers(c)) == multiset{c[0].peer} + multiset(Peers(c[1..]));
    }
  }

  /**
   * A frame for signature `s` goes to every peer exactly as often as the peer has memberships with that signature:
   * to nobody without one, and to nobody that left.
   */
  lemma DestinationsExact(x: Index, max: nat, s: Sig, p: PeerId)
    requires Inv(x, max)
    ensures multiset(Destinations(x, s))[p] == if p in x.used then MatchCount(x.used[p], s) else 0
  {
    if s in x.chains {
      var c := x.chains[s];
      OfSize(c, p);
      if p in x.used {
        MatchingSize(x.used[p], p, s);
        forall e ensures e in Of(c, p) <==> e in Matching(x.used[p], p, s) {
          if e in Matching(x.used[p], p, s) {
            assert Has(x, e);
          }
        }
        assert Of(c, p) == Matching(x.used[p], p, s);
      } else {
        assert Of(c, p) == {};
      }
    } else if p in x.used {
      MatchingSize(x.used[p], p, s);
      forall e | e in Matching(x.used[p], p, s) ensures false {
        assert Has(x, e);
      }
      assert Matching(x.used[p], p, s) == {};
    }
  }

  // ---- group addresses and MAC addresses ----

  /** Big-endian value of bytes. */
  function GetBE(s: seq<Byte>): nat {
    if s == [] then 0 else GetBE(s[..|s| - 1]) * 256 + s[|s| - 1]
  }

  lemma {:induction false} GetBEUnique(a: seq<Byte>, b: seq<Byte>)
    requires |a| == |b| && GetBE(a) == GetBE(b)
    ensures a == b
    decreases |a|
  {
    if a != [] {
      var n := |a| - 1;
      var x: int, y: int := a[n], b[n];
      assert GetBE(a) == GetBE(a[..n]) * 256 + x && GetBE(b) == GetBE(b[..n]) * 256 + y;
      GetBEUnique(a[..n], b[..n]);
      assert a == a[..n] + [a[n]] && b == b[..n] + [b[n]];
    }
  }

  /** compute_sig_for_mac: the low 23 bits of the last four bytes. */
  function SigForMac(mac: seq<Byte>): Sig
    requires |mac| == 6
  {
    GetBE(mac[2..6]) % SIG_RANGE
  }

  /** The Ethernet address of an IP multicast group (section 6.4 of RFC 1112). */
  function GroupMac(g: Group): (mac: seq<Byte>)
    ensures |mac| == 6
  {
    [0x01, 0x00, 0x5E, (g / 0x1_0000) % 0x80, (g / 0x100) % 0x100, g % 0x100]
  }

  /** The signature taken from the frame is that of the group the frame is for. */
  lemma SignaturesAgree(g: Group)
    ensures SigForMac(GroupMac(g)) == SigOf(g)
  {
    var mac := GroupMac(g);
    var b3: int, b4: int, b5: int := mac[3], mac[4], mac[5];
    var w := mac[2..6];
    var w1, w2, w3 := w[..1], w[..2], w[..3];
    assert w1[..0] == [] && w2[..1] == w1 && w3[..2] == w2 && w[..3] == w3;
    assert GetBE(w1) == GetBE([]) * 256 + 0x5E;
    assert GetBE(w2) == GetBE(w1) * 256 + b3;
    assert GetBE(w3) == GetBE(w2) * 256 + b4;
    assert GetBE(w) == ((0x5E * 256 + b3) * 256 + b4) * 256 + b5;
    LowBits(g, b3, b4, b5);
  }

  lemma LowBits(g: nat, b3: nat, b4: nat, b5: nat)
    requires b3 == (g / 0x1_0000) % 0x80 && b4 == (g / 0x100) % 0x100 && b5 == g % 0x100
    ensures (((0x5E * 256 + b3) * 256 + b4) * 256 + b5) % SIG_RANGE == g % SIG_RANGE
  {
    var low := b3 * 0x1_0000 + b4 * 0x100 + b5;
    assert g == g / 0x1_0000 * 0x1_0000 + b4 * 0x100 + b5;
    assert g / 0x1_0000 == (g / 0x1_0000) / 0x80 * 0x80 + b3;
    assert g == (g / 0x1_0000) / 0x80 * SIG_RANGE + low;
    assert low < SIG_RANGE;
    assert ((0x5E * 256 + b3) * 256 + b4) * 256 + b5 == 0x5E * 2 * SIG_RANGE + low;
    ModUnique(g, (g / 0x1_0000) / 0x80, low);
    ModUnique(0x5E * 2 * SIG_RANGE + low, 0x5E * 2, low);
  }

  lemma ModUnique(n: nat, k: nat, r: nat)
    requires n == k * SIG_RANGE + r && r < SIG_RANGE
    ensures n % SIG_RANGE == r
  {
  }
}
