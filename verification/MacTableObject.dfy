/**
 * The MAC tables as the source holds them: for every peer an array of entries on a free and a used list, and one tree
 * from address to entry. Every operation is proved to do what the model of `MacTable` does.
 */
module MacTableObject {
  import opened Common
  import opened MacTable

  /** The entries of one peer. */
  datatype PeerMacs = PeerMacs(entries: seq<Mac>, free: seq<nat>, used: seq<nat>)

  datatype EntryRef = EntryRef(peer: PeerId, slot: nat)

  /** The entries stand for the address list `l`: free and used list partition them, the used list spells `l`. */
  ghost predicate PeerStands(max: nat, pm: PeerMacs, l: seq<Mac>) {
    |pm.entries| == max && Pool(max, pm.free, pm.used) && l == Pick(pm.entries, pm.used)
  }

  /** A used entry holding address `m`. */
  ghost predicate EntryOk(pm: PeerMacs, slot: nat, m: Mac) {
    slot in pm.used && slot < |pm.entries| && pm.entries[slot] == m
  }

  /** The tree holds exactly the used entries, each under its address. */
  ghost predicate TreeStands(peers: map<PeerId, PeerMacs>, tree: map<Mac, EntryRef>, t: Table) {
    && tree.Keys == t.owner.Keys
    && forall m :: m in tree ==>
         tree[m].peer == t.owner[m] && tree[m].peer in peers && EntryOk(peers[tree[m].peer], tree[m].slot, m)
  }

  ghost predicate Stands(max: nat, peers: map<PeerId, PeerMacs>, tree: map<Mac, EntryRef>, t: Table) {
    && Consistent(t, max)
    && peers.Keys == t.lru.Keys
    && (forall p :: p in peers ==> PeerStands(max, peers[p], t.lru[p]))
    && TreeStands(peers, tree, t)
  }

  // ---- one peer ----

  lemma {:induction false} UsedDistinct(max: nat, pm: PeerMacs, l: seq<Mac>, i: nat)
    requires PeerStands(max, pm, l) && NoDup(l) && i in pm.used
    ensures i < max && pm.entries[i] in l
    ensures forall k :: 0 <= k < |pm.used| && pm.entries[pm.used[k]] == pm.entries[i] ==> pm.used[k] == i
  {
    var n :| 0 <= n < |pm.used| && pm.used[n] == i;
    assert l[n] == pm.entries[i];
    forall k | 0 <= k < |pm.used| && pm.entries[pm.used[k]] == pm.entries[i] ensures pm.used[k] == i {
      assert l[k] == l[n];
    }
  }

  function Unlinked(pm: PeerMacs, i: nat): PeerMacs {
    pm.(used := Without<nat>(pm.used, i), free := pm.free + [i])
  }

  function Relinked(pm: PeerMacs, i: nat): PeerMacs {
    pm.(used := Without<nat>(pm.used, i) + [i])
  }

  function Taken(pm: PeerMacs, m: Mac): PeerMacs
    requires pm.free != [] && pm.free[0] < |pm.entries|
  {
    PeerMacs(pm.entries[pm.free[0] := m], Without<nat>(pm.free, pm.free[0]), pm.used + [pm.free[0]])
  }

  function Reused(pm: PeerMacs, m: Mac): PeerMacs
    requires pm.used != [] && pm.used[0] < |pm.entries|
  {
    PeerMacs(pm.entries[pm.used[0] := m], pm.free, Without<nat>(pm.used, pm.used[0]) + [pm.used[0]])
  }

  lemma UnlinkPeer(max: nat, pm: PeerMacs, l: seq<Mac>, i: nat, m: Mac)
    requires PeerStands(max, pm, l) && NoDup(l) && EntryOk(pm, i, m)
    ensures PeerStands(max, Unlinked(pm, i), Without(l, m))
    ensures forall s, x :: EntryOk(pm, s, x) && x != m ==> EntryOk(Unlinked(pm, i), s, x)
  {
    UsedDistinct(max, pm, l, i);
    FreePool(max, pm.free, pm.used, i);
    PickWithout(pm.entries, pm.used, i);
  }

  lemma RelinkPeer(max: nat, pm: PeerMacs, l: seq<Mac>, i: nat, m: Mac)
    requires PeerStands(max, pm, l) && NoDup(l) && EntryOk(pm, i, m)
    ensures PeerStands(max, Relinked(pm, i), Without(l, m) + [m])
    ensures forall s, x :: EntryOk(pm, s, x) ==> EntryOk(Relinked(pm, i), s, x)
  {
    UsedDistinct(max, pm, l, i);
    RelinkPool(max, pm.free, pm.used, i);
    PickWithout(pm.entries, pm.used, i);
    PickAppend(pm.entries, Without<nat>(pm.used, i), i);
    var used1 := Without<nat>(pm.used, i) + [i];
    assert used1[|used1| - 1] == i;
    forall s | s in pm.used ensures s in used1 {
      assert s == i || s in Without<nat>(pm.used, i);
    }
  }

  /** Moving an entry to the end of its list. */
  lemma RelinkPool(n: nat, free: seq<nat>, used: seq<nat>, i: nat)
    requires Pool(n, free, used) && i in used
    ensures Pool(n, free, Without<nat>(used, i) + [i])
  {
    WithoutNoDup(used, i);
    FreePool(n, free, used, i);
    var used1 := Without<nat>(used, i);
    forall k | k in free ensures k !in used1 + [i] {
      assert k !in used;
    }
  }

  lemma TakePeer(max: nat, pm: PeerMacs, l: seq<Mac>, m: Mac)
    requires PeerStands(max, pm, l) && pm.free != []
    ensures pm.free[0] < max == |pm.entries| && |l| < max
    ensures PeerStands(max, Taken(pm, m), l + [m]) && EntryOk(Taken(pm, m), pm.free[0], m)
    ensures forall s, x :: EntryOk(pm, s, x) ==> EntryOk(Taken(pm, m), s, x)
  {
    var i := pm.free[0];
    TakePool(max, pm.free, pm.used);
    assert i in pm.free && i !in pm.used;
    PickUpdate(pm.entries, pm.used, i, m);
    PickAppend(pm.entries[i := m], pm.used, i);
    assert (pm.used + [i])[|pm.used|] == i;
  }

  lemma ReusePeer(max: nat, pm: PeerMacs, l: seq<Mac>, m: Mac)
    requires PeerStands(max, pm, l) && NoDup(l) && pm.free == [] && max > 0
    ensures pm.used != [] && pm.used[0] < max == |pm.entries| && |l| == max && l[0] == pm.entries[pm.used[0]]
    ensures PeerStands(max, Reused(pm, m), l[1..] + [m]) && EntryOk(Reused(pm, m), pm.used[0], m)
    ensures forall s, x :: EntryOk(pm, s, x) && x != l[0] ==> EntryOk(Reused(pm, m), s, x)
  {
    var i := pm.used[0];
    assert i in pm.used;
    RelinkPool(max, pm.free, pm.used, i);
    WithoutFirst(pm.used);
    var rest := pm.used[1..];
    assert i !in rest;
    PickUpdate(pm.entries, rest, i, m);
    PickAppend(pm.entries[i := m], rest, i);
    assert Pick(pm.entries, rest) == l[1..];
    assert (rest + [i])[|rest|] == i;
    forall s, x | EntryOk(pm, s, x) && x != l[0] ensures EntryOk(Reused(pm, m), s, x) {
      assert s != i && s in rest + [i];
    }
  }

  // ---- all peers ----

  /** Changing one peer and the tree in step with the model. */
  lemma UpdateStands(max: nat, peers: map<PeerId, PeerMacs>, tree: map<Mac, EntryRef>, t: Table,
                     p: PeerId, pm: PeerMacs, tree1: map<Mac, EntryRef>, t1: Table)
    requires Stands(max, peers, tree, t) && Consistent(t1, max) && p in t.lru
    requires t1.lru.Keys == t.lru.Keys && forall q :: q in t.lru && q != p ==> t1.lru[q] == t.lru[q]
    requires PeerStands(max, pm, t1.lru[p]) && tree1.Keys == t1.owner.Keys
    requires forall m :: m in tree1 ==> tree1[m].peer == t1.owner[m]
    requires forall m :: m in tree1 && tree1[m].peer == p ==> EntryOk(pm, tree1[m].slot, m)
    requires forall m :: m in tree1 && tree1[m].peer != p ==> m in tree && tree[m] == tree1[m]
    ensures Stands(max, peers[p := pm], tree1, t1)
  {
    hide Consistent, PeerStands, EntryOk;
  }

  lemma ListFacts(t: Table, max: nat, p: PeerId)
    requires Consistent(t, max) && p in t.lru
    ensures max > 0 && NoDup(t.lru[p]) && |t.lru[p]| <= max
    ensures t.lru[p] != [] ==> t.lru[p][0] in t.owner && t.owner[t.lru[p][0]] == p
    ensures forall m :: m in t.owner ==> (t.owner[m] == p <==> m in t.lru[p])
  {
    if t.lru[p] != [] {
      assert t.lru[p][0] in t.lru[p];
    }
  }

  lemma StealStands(max: nat, peers: map<PeerId, PeerMacs>, tree: map<Mac, EntryRef>, t: Table, m: Mac)
    requires Stands(max, peers, tree, t) && m in tree
    ensures tree[m].peer in peers
    ensures Stands(max, peers[tree[m].peer := Unlinked(peers[tree[m].peer], tree[m].slot)], tree - {m}, Steal(t, m))
  {
    hide Consistent, PeerStands, EntryOk, Unlinked;
    var p := tree[m].peer;
    ListFacts(t, max, p);
    UnlinkPeer(max, peers[p], t.lru[p], tree[m].slot, m);
    StealKeeps(t, max, m);
    UpdateStands(max, peers, tree, t, p, Unlinked(peers[p], tree[m].slot), tree - {m}, Steal(t, m));
  }

  /** The peer's own address: its entry moves to the end of the used list. */
  lemma TouchStands(max: nat, peers: map<PeerId, PeerMacs>, tree: map<Mac, EntryRef>, t: Table, m: Mac)
    requires Stands(max, peers, tree, t) && m in tree
    ensures tree[m].peer in peers
    ensures Stands(max, peers[tree[m].peer := Relinked(peers[tree[m].peer], tree[m].slot)], tree,
              Learn(t, max, tree[m].peer, m))
  {
    hide Consistent, PeerStands, EntryOk, Relinked;
    var p := tree[m].peer;
    ListFacts(t, max, p);
    RelinkPeer(max, peers[p], t.lru[p], tree[m].slot, m);
    LearnKeeps(t, max, p, m);
    UpdateStands(max, peers, tree, t, p, Relinked(peers[p], tree[m].slot), tree, Learn(t, max, p, m));
  }

  /** A free entry takes the new address. */
  lemma TakeStands(max: nat, peers: map<PeerId, PeerMacs>, tree: map<Mac, EntryRef>, t: Table, p: PeerId, m: Mac)
    requires Stands(max, peers, tree, t) && p in peers && m !in tree && peers[p].free != []
    ensures var pm := peers[p];
      && pm.free[0] < max == |pm.entries|
      && Stands(max, peers[p := Taken(pm, m)], tree[m := EntryRef(p, pm.free[0])], Grant(t, max, p, m))
  {
    hide Consistent, PeerStands, EntryOk, Taken;
    var pm := peers[p];
    TakePeer(max, pm, t.lru[p], m);
    GrantKeeps(t, max, p, m);
    UpdateStands(max, peers, tree, t, p, Taken(pm, m), tree[m := EntryRef(p, pm.free[0])], Grant(t, max, p, m));
  }

  /** The oldest used entry is unlinked and takes the new address. */
  lemma ReuseStands(max: nat, peers: map<PeerId, PeerMacs>, tree: map<Mac, EntryRef>, t: Table, p: PeerId, m: Mac)
    requires Stands(max, peers, tree, t) && p in peers && m !in tree && peers[p].free == []
    ensures var pm := peers[p];
      && pm.used != [] && pm.used[0] < max == |pm.entries|
      && Stands(max, peers[p := Reused(pm, m)], (tree - {pm.entries[pm.used[0]]})[m := EntryRef(p, pm.used[0])],
                Grant(t, max, p, m))
  {
    hide Consistent, PeerStands, EntryOk, Reused;
    var pm, l := peers[p], t.lru[p];
    ListFacts(t, max, p);
    ReusePeer(max, pm, l, m);
    GrantKeeps(t, max, p, m);
    UpdateStands(max, peers, tree, t, p, Reused(pm, m), (tree - {l[0]})[m := EntryRef(p, pm.used[0])],
                 Grant(t, max, p, m));
  }

  lemma StandsFacts(max: nat, peers: map<PeerId, PeerMacs>, tree: map<Mac, EntryRef>, t: Table)
    requires Stands(max, peers, tree, t)
    ensures peers.Keys == t.lru.Keys && tree.Keys == t.owner.Keys
    ensures forall m :: m in tree ==> tree[m].peer == t.owner[m] && tree[m].peer in peers
  {
  }

  lemma JoinStands(max: nat, peers: map<PeerId, PeerMacs>, tree: map<Mac, EntryRef>, t: Table, p: PeerId)
    requires Stands(max, peers, tree, t) && p !in peers
    ensures Stands(max, peers[p := PeerMacs(seq(max, _ => 0), seq(max, i => i), [])], tree, Join(t, p))
  {
    hide Consistent, PeerStands, EntryOk;
    JoinLeaveKeep(t, max, p);
    FreshStands(max);
  }

  lemma FreshStands(max: nat)
    ensures PeerStands(max, PeerMacs(seq(max, _ => 0), seq(max, i => i), []), [])
  {
  }

  /** The address list of a peer, spelled out by its used list. */
  ghost function PeerList(max: nat, peers: map<PeerId, PeerMacs>, tree: map<Mac, EntryRef>, t: Table,
                          p: PeerId): (l: seq<Mac>)
    requires Stands(max, peers, tree, t) && p in peers
    ensures p in t.lru && l == t.lru[p] && |l| == |peers[p].used|
    ensures forall k :: 0 <= k < |l| ==>
              peers[p].used[k] < |peers[p].entries| && l[k] == peers[p].entries[peers[p].used[k]]
  {
    assert PeerStands(max, peers[p], t.lru[p]);
    t.lru[p]
  }

  lemma LeaveStands(max: nat, peers: map<PeerId, PeerMacs>, tree: map<Mac, EntryRef>, t: Table, p: PeerId,
                    tree1: map<Mac, EntryRef>)
    requires Stands(max, peers, tree, t) && p in peers
    requires tree1 == map m | m in tree && m !in t.lru[p] :: tree[m]
    ensures Stands(max, peers - {p}, tree1, Leave(t, p))
  {
    hide Consistent, PeerStands, EntryOk;
    JoinLeaveKeep(t, max, p);
    ListFacts(t, max, p);
  }

  class MacTables {
    const maxPeerMacs: nat
    var peers: map<PeerId, PeerMacs>
    var macsTree: map<Mac, EntryRef>
    ghost var model: Table

    ghost predicate Valid()
      reads this
    {
      Stands(maxPeerMacs, peers, macsTree, model)
    }

    constructor (maxPeerMacs: nat)
      requires maxPeerMacs > 0
      ensures Valid() && model == TableInit && this.maxPeerMacs == maxPeerMacs
    {
      this.maxPeerMacs := maxPeerMacs;
      peers, macsTree := map[], map[];
      model := TableInit;
    }

    method AddMacToPeer(o: PeerId, mac: Mac)
      requires Valid() && o in peers
      modifies this
      ensures Valid() && peers.Keys == old(peers.Keys)
      ensures model == Learn(old(model), maxPeerMacs, o, mac)
    {
      hide Stands, Grant, Without;
      StandsFacts(maxPeerMacs, peers, macsTree, model);
      if mac in macsTree {
        var e := macsTree[mac];
        var pm := peers[e.peer];
        if e.peer == o {
          TouchStands(maxPeerMacs, peers, macsTree, model, mac);
          peers := peers[o := Relinked(pm, e.slot)];
          model := Learn(model, maxPeerMacs, o, mac);
          return;
        }
        StealStands(maxPeerMacs, peers, macsTree, model, mac);
        macsTree := macsTree - {mac};
        peers := peers[e.peer := Unlinked(pm, e.slot)];
        model := Steal(model, mac);
      }
      StandsFacts(maxPeerMacs, peers, macsTree, model);
      var pm := peers[o];
      var slot: nat;
      if pm.free != [] {
        TakeStands(maxPeerMacs, peers, macsTree, model, o, mac);
        slot := pm.free[0];
        peers := peers[o := Taken(pm, mac)];
      } else {
        ReuseStands(maxPeerMacs, peers, macsTree, model, o, mac);
        slot := pm.used[0];
        macsTree := macsTree - {pm.entries[slot]};
        peers := peers[o := Reused(pm, mac)];
      }
      macsTree := macsTree[mac := EntryRef(o, slot)];
      model := Grant(model, maxPeerMacs, o, mac);
    }

    /** The unicast decision: the peer the address was last seen at. */
    method Lookup(mac: Mac) returns (peer: Option<PeerId>)
      requires Valid()
      ensures peer == if mac in model.owner then Some(model.owner[mac]) else None
    {
      if mac in macsTree {
        return Some(macsTree[mac].peer);
      }
      return None;
    }

    method PeerInit(o: PeerId)
      requires Valid() && o !in peers
      modifies this
      ensures Valid() && model == Join(old(model), o)
    {
      hide Stands;
      JoinStands(maxPeerMacs, peers, macsTree, model, o);
      peers := peers[o := PeerMacs(seq(maxPeerMacs, _ => 0), seq(maxPeerMacs, i => i), [])];
      model := Join(model, o);
    }

    method PeerFree(o: PeerId)
      requires Valid() && o in peers
      modifies this
      ensures Valid() && model == Leave(old(model), o)
    {
      hide Stands;
      var pm := peers[o];
      ghost var tree0, l := macsTree, PeerList(maxPeerMacs, peers, macsTree, model, o);
      var k: nat := 0;
      while k < |pm.used|
        invariant k <= |pm.used| && peers == old(peers) && model == old(model)
        invariant macsTree == map m | m in tree0 && m !in l[..k] :: tree0[m]
      {
        assert l[..k + 1] == l[..k] + [pm.entries[pm.used[k]]];
        macsTree := macsTree - {pm.entries[pm.used[k]]};
        k := k + 1;
      }
      assert l[..k] == l;
      LeaveStands(maxPeerMacs, peers, tree0, model, o, macsTree);
      peers := peers - {o};
      model := Leave(model, o);
    }
  }
}
