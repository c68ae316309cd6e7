/**
 * An iterator on the list of a signature (structure/LinkedList3.h) while memberships come and go: a node that is freed
 * moves the iterators at it on, and a node put in after another is met exactly if that other one is still to come.
 */
module MulticastWalk {
  import opened Common
  import opened MulticastIndex

  ghost predicate SuffixOf(c: seq<Membership>, rest: seq<Membership>) {
    |rest| <= |c| && c[|c| - |rest|..] == rest
  }

  /** `rest` is what an iterator on the list of `s` has still to give: the list from some node on. */
  ghost predicate Standing(x: Index, s: Sig, rest: seq<Membership>) {
    rest != [] ==> s in x.chains && SuffixOf(x.chains[s], rest)
  }

  /** The new node goes in after the master. */
  function AfterAdd(tree: map<Sig, Membership>, s: Sig, rest: seq<Membership>, e: Membership): seq<Membership> {
    if SigOf(e.group) == s && s in tree && tree[s] in rest then InsertAfter(rest, tree[s], e) else rest
  }

  /** add_group_to_peer */
  ghost function AfterJoin(x: Index, max: nat, p: PeerId, g: Group, s: Sig, rest: seq<Membership>): seq<Membership>
    requires p in x.used && Inv(x, max)
  {
    if g in x.used[p] then rest
    else
      var full := |x.used[p]| >= max && x.used[p] != [];
      AfterAdd(MakeRoom(x, max, p).tree, s, if full then Without(rest, Membership(p, x.used[p][0])) else rest,
               Membership(p, g))
  }

  /** All memberships of a peer go. */
  ghost function AfterLeave(x: Index, max: nat, p: PeerId, rest: seq<Membership>): seq<Membership>
    requires Inv(x, max) && p in x.used
    decreases |x.used[p]|
  {
    if x.used[p] == [] then rest
    else
      var e := Membership(p, x.used[p][0]);
      assert Has(x, e);
      RemoveGroupKeeps(x, max, e);
      AfterLeave(RemoveGroup(x, e), max, p, Without(rest, e))
  }

  // ---- what is still to come are memberships, each once ----

  lemma StandingFacts(x: Index, max: nat, s: Sig, rest: seq<Membership>)
    requires Inv(x, max) && Standing(x, s, rest)
    ensures NoDup(rest) && forall y :: y in rest ==> Has(x, y) && SigOf(y.group) == s
  {
    if rest != [] {
      var c := x.chains[s];
      forall i | 0 <= i < |rest| ensures rest[i] == c[|c| - |rest| + i] && rest[i] in c {
      }
    }
  }

  /** From the first node on everything is to come. */
  lemma StandingAtStart(x: Index, s: Sig)
    requires s in x.chains
    ensures Standing(x, s, x.chains[s])
  {
  }

  lemma StandingNext(x: Index, s: Sig, rest: seq<Membership>)
    requires Standing(x, s, rest) && rest != []
    ensures Standing(x, s, rest[1..])
  {
    var c := x.chains[s];
    assert c[|c| - |rest|..][1..] == c[|c| - (|rest| - 1)..];
  }

  /** The timers and the order of the used lists play no part. */
  lemma StandingSame(x: Index, y: Index, s: Sig, rest: seq<Membership>)
    requires Standing(x, s, rest) && y.chains == x.chains
    ensures Standing(y, s, rest)
  {
  }

  // ---- removal ----

  lemma SuffixWithout(c: seq<Membership>, rest: seq<Membership>, e: Membership)
    requires SuffixOf(c, rest)
    ensures SuffixOf(Without(c, e), Without(rest, e))
  {
    var front := c[..|c| - |rest|];
    assert c == front + rest;
    WithoutAppend(front, rest, e);
  }

  lemma RemovedChains(x: Index, e: Membership, s: Sig)
    requires SigOf(e.group) in x.chains && e in x.chains[SigOf(e.group)] && Has(x, e) && s in x.chains
    ensures var y := RemoveGroup(x, e);
      && (s != SigOf(e.group) ==> s in y.chains && y.chains[s] == x.chains[s])
      && (s == SigOf(e.group) ==> if Without(x.chains[s], e) == [] then s !in y.chains
                                  else s in y.chains && y.chains[s] == Without(x.chains[s], e))
  {
    hide NextOrPrev, Without;
  }

  /** A membership that goes is no longer to come; the others stay, in their order. */
  lemma RemoveWalk(x: Index, max: nat, e: Membership, s: Sig, rest: seq<Membership>)
    requires Inv(x, max) && Has(x, e) && Standing(x, s, rest)
    ensures SigOf(e.group) in x.chains && e in x.chains[SigOf(e.group)]
    ensures Standing(RemoveGroup(x, e), s, Without(rest, e))
  {
    StandingFacts(x, max, s, rest);
    hide Inv, RemoveGroup, Without;
    RemoveGroupKeeps(x, max, e);
    if rest != [] {
      RemovedChains(x, e, s);
      if s == SigOf(e.group) {
        SuffixWithout(x.chains[s], rest, e);
      } else {
        WithoutAbsent(rest, e);
      }
    } else {
      WithoutAbsent(rest, e);
    }
  }

  // ---- addition ----

  lemma {:induction false} IndexFirst(c: seq<Membership>, e: Membership, i: nat)
    requires i < |c| && c[i] == e && forall k :: 0 <= k < i ==> c[k] != e
    ensures IndexOf(c, e) == i
    decreases i
  {
    if i > 0 {
      IndexFirst(c[1..], e, i - 1);
    }
  }

  lemma InsertFront(front: seq<Membership>, rest: seq<Membership>, at: Membership, e: Membership)
    requires at in front
    ensures at in front + rest && InsertAfter(front + rest, at, e) == InsertAfter(front, at, e) + rest
  {
    var i := FirstIndex(front, at);
    IndexFirst(front, at, i);
    IndexFirst(front + rest, at, i);
    assert (front + rest)[..i + 1] == front[..i + 1] && (front + rest)[i + 1..] == front[i + 1..] + rest;
  }

  lemma InsertRest(front: seq<Membership>, rest: seq<Membership>, at: Membership, e: Membership)
    requires at !in front && at in rest
    ensures at in front + rest && InsertAfter(front + rest, at, e) == front + InsertAfter(rest, at, e)
  {
    hide IndexOf;
    var i := FirstIndex(rest, at);
    IndexFirst(rest, at, i);
    var c := front + rest;
    FirstBehind(front, rest, at, i);
    IndexFirst(c, at, |front| + i);
    assert c[..|front| + i + 1] == front + rest[..i + 1];
    assert c[|front| + i + 1..] == rest[i + 1..];
    assert front + rest[..i + 1] + [e] + rest[i + 1..] == front + (rest[..i + 1] + [e] + rest[i + 1..]);
  }

  lemma FirstBehind(front: seq<Membership>, rest: seq<Membership>, at: Membership, i: nat)
    requires at !in front && i < |rest| && rest[i] == at && forall k :: 0 <= k < i ==> rest[k] != at
    ensures var c := front + rest; c[|front| + i] == at && forall k :: 0 <= k < |front| + i ==> c[k] != at
  {
    var c := front + rest;
    forall k | 0 <= k < |front| + i ensures c[k] != at {
      if k < |front| {
        assert c[k] == front[k];
      } else {
        assert c[k] == rest[k - |front|];
      }
    }
  }

  lemma {:induction false} FirstIndex(c: seq<Membership>, e: Membership) returns (i: nat)
    requires e in c
    ensures i < |c| && c[i] == e && forall k :: 0 <= k < i ==> c[k] != e
    decreases |c|
  {
    if c[0] == e {
      i := 0;
    } else {
      i := FirstIndex(c[1..], e);
      i := i + 1;
    }
  }

  lemma SuffixInsert(c: seq<Membership>, rest: seq<Membership>, at: Membership, e: Membership)
    requires SuffixOf(c, rest) && NoDup(c) && at in c
    ensures SuffixOf(InsertAfter(c, at, e), if at in rest then InsertAfter(rest, at, e) else rest)
  {
    hide InsertAfter;
    var front := c[..|c| - |rest|];
    assert c == front + rest;
    if at in rest {
      NotInFront(front, rest, at);
      InsertRest(front, rest, at, e);
    } else {
      InsertFront(front, rest, at, e);
    }
  }

  lemma NotInFront(front: seq<Membership>, rest: seq<Membership>, at: Membership)
    requires NoDup(front + rest) && at in rest
    ensures at !in front
  {
    var j :| 0 <= j < |rest| && rest[j] == at;
    forall i | 0 <= i < |front| ensures front[i] != at {
      assert (front + rest)[i] == front[i] && (front + rest)[|front| + j] == at;
    }
  }

  lemma AddWalk(x: Index, max: nat, e: Membership, s: Sig, rest: seq<Membership>)
    requires Pending(x, max, e) && AddReady(x, e) && Standing(x, s, rest)
    ensures Standing(AddToMulticast(x, e), s, AfterAdd(x.tree, s, rest, e))
  {
    hide InsertAfter;
    if rest != [] && SigOf(e.group) == s && s in x.tree {
      SuffixInsert(x.chains[s], rest, x.tree[s], e);
    }
  }

  // ---- joining ----

  lemma MakeRoomWalk(x: Index, max: nat, p: PeerId, s: Sig, rest: seq<Membership>)
    requires Inv(x, max) && p in x.used && Standing(x, s, rest)
    ensures var full := |x.used[p]| >= max && x.used[p] != [];
      Standing(MakeRoom(x, max, p), s, if full then Without(rest, Membership(p, x.used[p][0])) else rest)
  {
    hide RemoveGroup, Without, Inv;
    InvChains(x, max);
    if |x.used[p]| >= max && x.used[p] != [] {
      assert Has(x, Membership(p, x.used[p][0]));
      RemoveWalk(x, max, Membership(p, x.used[p][0]), s, rest);
    }
  }

  lemma InvChains(x: Index, max: nat)
    requires Inv(x, max)
    ensures ChainsOk(x) && x.tree.Keys == x.chains.Keys
  {
  }

  lemma JoinWalk(x: Index, max: nat, p: PeerId, g: Group, until: int, s: Sig, rest: seq<Membership>)
    requires Inv(x, max) && p in x.used && Standing(x, s, rest)
    ensures Standing(JoinGroup(x, max, p, g, until), s, AfterJoin(x, max, p, g, s, rest))
  {
    hide Inv, AddToMulticast, AfterAdd, MakeRoom, Standing, Without, Pending;
    InvChains(x, max);
    var e := Membership(p, g);
    if g in x.used[p] {
      StandingSame(x, JoinGroup(x, max, p, g, until), s, rest);
    } else {
      MakeRoomWalk(x, max, p, s, rest);
      ReadyToAdmit(x, max, e);
      MakeRoomKeeps(x, max, p);
      var x1 := MakeRoom(x, max, p);
      var full := |x.used[p]| >= max && x.used[p] != [];
      var rest1 := if full then Without(rest, Membership(p, x.used[p][0])) else rest;
      StandingSame(x1, List(x1, e), s, rest1);
      AddWalk(List(x1, e), max, e, s, rest1);
      StandingSame(AddToMulticast(List(x1, e), e), JoinGroup(x, max, p, g, until), s, AfterJoin(x, max, p, g, s, rest));
    }
  }

  /**
   * A join in the middle of an enumeration: whoever is still a member and was still to come still is, nobody comes
   * twice, and nobody but the new member is added.
   */
  lemma JoinWalkExact(x: Index, max: nat, p: PeerId, g: Group, until: int, s: Sig, rest: seq<Membership>, y: Membership)
    requires Inv(x, max) && p in x.used && Standing(x, s, rest)
    ensures var x1, rest1 := JoinGroup(x, max, p, g, until), AfterJoin(x, max, p, g, s, rest);
      && NoDup(rest1) && (y in rest && Has(x1, y) ==> y in rest1)
      && (y in rest1 ==> Has(x1, y) && SigOf(y.group) == s && (y in rest || y == Membership(p, g)))
  {
    hide Inv, JoinGroup, Standing, AfterAdd, NoDup;
    InvChains(x, max);
    JoinGroupKeeps(x, max, p, g, until);
    JoinWalk(x, max, p, g, until, s, rest);
    StandingFacts(x, max, s, rest);
    StandingFacts(JoinGroup(x, max, p, g, until), max, s, AfterJoin(x, max, p, g, s, rest));
    if g !in x.used[p] {
      AddedRest(MakeRoom(x, max, p).tree, s, rest, Membership(p, g), y);
      if |x.used[p]| >= max && x.used[p] != [] {
        var first := Membership(p, x.used[p][0]);
        assert Has(x, first) && Displaced(x, max, p, first);
        AddedRest(MakeRoom(x, max, p).tree, s, Without(rest, first), Membership(p, g), y);
      }
    }
  }

  lemma AddedRest(tree: map<Sig, Membership>, s: Sig, rest: seq<Membership>, e: Membership, y: Membership)
    ensures y in rest ==> y in AfterAdd(tree, s, rest, e)
    ensures y in AfterAdd(tree, s, rest, e) ==> y in rest || y == e
  {
    if tree.Keys >= {s} && tree[s] in rest {
      var i := IndexOf(rest, tree[s]);
      assert rest == rest[..i + 1] + rest[i + 1..];
    }
  }

  // ---- leaving ----

  lemma {:induction false} PeersWithout(rest: seq<Membership>, e: Membership)
    ensures Without(Peers(Without(rest, e)), e.peer) == Without(Peers(rest), e.peer)
    decreases |rest|
  {
    if rest != [] {
      PeersWithout(rest[1..], e);
      assert Peers(rest) == [rest[0].peer] + Peers(rest[1..]);
      if rest[0] != e {
        assert Peers(Without(rest, e)) == [rest[0].peer] + Peers(Without(rest[1..], e));
      }
    }
  }

  /** A peer that leaves is no longer to come; the others are, in their order. */
  lemma {:induction false} LeaveWalk(x: Index, max: nat, p: PeerId, s: Sig, rest: seq<Membership>)
    requires Inv(x, max) && p in x.used && Standing(x, s, rest)
    ensures Standing(PeerLeaves(x, max, p), s, AfterLeave(x, max, p, rest))
    ensures Peers(AfterLeave(x, max, p, rest)) == Without(Peers(rest), p)
    decreases |x.used[p]|
  {
    if x.used[p] == [] {
      StandingFacts(x, max, s, rest);
      assert p !in Peers(rest);
      WithoutAbsent(Peers(rest), p);
    } else {
      var e := Membership(p, x.used[p][0]);
      assert Has(x, e);
      RemoveGroupKeeps(x, max, e);
      RemoveWalk(x, max, e, s, rest);
      hide Inv, RemoveGroup, Standing, Without;
      LeaveWalk(RemoveGroup(x, e), max, p, s, Without(rest, e));
      PeersWithout(rest, e);
    }
  }
}
