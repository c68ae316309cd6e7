/**
 * MAC learning of client/FrameDecider.c. The simple model: every MAC address has at most one owner, and every peer
 * has a bounded list of the addresses it owns, least recently seen first.
 */
module MacTable {
  import opened Common

  type PeerId = nat
  type Mac = nat

  /** `lru[p]` are the addresses of peer p, least recently seen first; `owner` is the index over all peers. */
  datatype Table = Table(lru: map<PeerId, seq<Mac>>, owner: map<Mac, PeerId>)

  const TableInit := Table(map[], map[])

  ghost predicate Consistent(t: Table, max: nat) {
    && max > 0
    && (forall p :: p in t.lru ==> NoDup(t.lru[p]) && |t.lru[p]| <= max)
    && (forall p, m :: p in t.lru && m in t.lru[p] ==> m in t.owner && t.owner[m] == p)
    && (forall m :: m in t.owner ==> t.owner[m] in t.lru && m in t.lru[t.owner[m]])
  }

  /** Take an address from whoever owns it. */
  function Steal(t: Table, m: Mac): Table
    requires m in t.owner ==> t.owner[m] in t.lru
  {
    if m in t.owner then Table(t.lru[t.owner[m] := Without(t.lru[t.owner[m]], m)], t.owner - {m}) else t
  }

  /** Give a peer an address nobody owns; when its list is full the oldest entry makes room. */
  function Grant(t: Table, max: nat, p: PeerId, m: Mac): Table
    requires p in t.lru
  {
    var l := t.lru[p];
    if |l| >= max && l != [] then Table(t.lru[p := l[1..] + [m]], (t.owner - {l[0]})[m := p])
    else Table(t.lru[p := l + [m]], t.owner[m := p])
  }

  /** add_mac_to_peer */
  function Learn(t: Table, max: nat, p: PeerId, m: Mac): Table
    requires p in t.lru && (m in t.owner ==> t.owner[m] in t.lru)
  {
    if m in t.owner && t.owner[m] == p then t.(lru := t.lru[p := Without(t.lru[p], m) + [m]])
    else Grant(Steal(t, m), max, p, m)
  }

  function Join(t: Table, p: PeerId): Table {
    t.(lru := t.lru[p := []])
  }

  /** The peer goes away with all its addresses. */
  function Leave(t: Table, p: PeerId): Table {
    Table(t.lru - {p}, map m | m in t.owner && t.owner[m] != p :: t.owner[m])
  }

  /** Stealing unlinks the address from every list, as only its owner lists it. */
  lemma StealLists(t: Table, max: nat, m: Mac)
    requires Consistent(t, max)
    ensures m !in Steal(t, m).owner && Steal(t, m).lru.Keys == t.lru.Keys
    ensures forall q :: q in t.lru ==> Steal(t, m).lru[q] == Without(t.lru[q], m) && NoDup(Without(t.lru[q], m))
  {
    forall q | q in t.lru
      ensures Steal(t, m).lru[q] == Without(t.lru[q], m) && NoDup(Without(t.lru[q], m))
    {
      WithoutNoDup(t.lru[q], m);
      if !(m in t.owner && t.owner[m] == q) {
        WithoutAbsent(t.lru[q], m);
      }
    }
  }

  /** Who owns what after stealing. */
  lemma StealOwners(t: Table, max: nat, m: Mac)
    requires Consistent(t, max)
    ensures Steal(t, m).owner.Keys == t.owner.Keys - {m}
    ensures forall x :: x in t.owner && x != m ==> Steal(t, m).owner[x] == t.owner[x]
  {
  }

  lemma ListOf(t: Table, max: nat, q: PeerId)
    requires Consistent(t, max) && q in t.lru
    ensures max > 0 && NoDup(t.lru[q]) && |t.lru[q]| <= max
  {
  }

  lemma OwnerOf(t: Table, max: nat, q: PeerId, x: Mac)
    requires Consistent(t, max) && q in t.lru && x in t.lru[q]
    ensures x in t.owner && t.owner[x] == q
  {
  }

  lemma ListedAt(t: Table, max: nat, x: Mac)
    requires Consistent(t, max) && x in t.owner
    ensures t.owner[x] in t.lru && x in t.lru[t.owner[x]]
  {
  }

  lemma StealKeeps(t: Table, max: nat, m: Mac)
    requires Consistent(t, max)
    ensures m in t.owner ==> t.owner[m] in t.lru
    ensures Consistent(Steal(t, m), max) && m !in Steal(t, m).owner && Steal(t, m).lru.Keys == t.lru.Keys
    ensures forall q :: q in t.lru ==> Steal(t, m).lru[q] == Without(t.lru[q], m)
  {
    hide Consistent, NoDup, Without;
    if m in t.owner {
      ListedAt(t, max, m);
    }
    StealLists(t, max, m);
    StealOwners(t, max, m);
    hide Steal;
    var t1 := Steal(t, m);
    forall q | q in t1.lru ensures NoDup(t1.lru[q]) && |t1.lru[q]| <= max {
      ListOf(t, max, q);
    }
    forall q, x | q in t1.lru && x in t1.lru[q] ensures x in t1.owner && t1.owner[x] == q {
      OwnerOf(t, max, q, x);
    }
    forall x | x in t1.owner ensures t1.owner[x] in t1.lru && x in t1.lru[t1.owner[x]] {
      ListedAt(t, max, x);
    }
    SomeRoom(t, max);
    ConsistentIf(t1, max);
  }

  lemma SomeRoom(t: Table, max: nat)
    requires Consistent(t, max)
    ensures max > 0
  {
  }

  lemma ConsistentIf(t: Table, max: nat)
    requires max > 0
    requires forall p :: p in t.lru ==> NoDup(t.lru[p]) && |t.lru[p]| <= max
    requires forall p, m :: p in t.lru && m in t.lru[p] ==> m in t.owner && t.owner[m] == p
    requires forall m :: m in t.owner ==> t.owner[m] in t.lru && m in t.lru[t.owner[m]]
    ensures Consistent(t, max)
  {
  }

  /** The list of the peer after a grant. */
  lemma GrantList(l: seq<Mac>, m: Mac, full: bool)
    requires NoDup(l) && m !in l && (full ==> l != [])
    ensures var l1 := (if full then l[1..] else l) + [m];
      NoDup(l1) && forall x :: x in l1 <==> x == m || (x in l && (full ==> x != l[0]))
  {
    if full {
      assert l == [l[0]] + l[1..];
    }
  }

  /** The oldest address makes room. */
  predicate Full(t: Table, max: nat, p: PeerId)
    requires p in t.lru
  {
    |t.lru[p]| >= max && t.lru[p] != []
  }

  lemma GrantFacts(t: Table, max: nat, p: PeerId, m: Mac)
    requires Consistent(t, max) && p in t.lru && m !in t.owner
    ensures var t1 := Grant(t, max, p, m);
      && t1.lru.Keys == t.lru.Keys && NoDup(t1.lru[p]) && |t1.lru[p]| <= max
      && (forall q :: q in t.lru && q != p ==> t1.lru[q] == t.lru[q])
      && (forall x :: x in t1.lru[p] <==> x == m || (x in t.lru[p] && !(Full(t, max, p) && x == t.lru[p][0])))
  {
    GrantList(t.lru[p], m, Full(t, max, p));
  }

  lemma GrantOwners(t: Table, max: nat, p: PeerId, m: Mac)
    requires Consistent(t, max) && p in t.lru && m !in t.owner
    ensures var t1 := Grant(t, max, p, m);
      && (forall x :: x in t1.owner <==> x == m || (x in t.owner && !(Full(t, max, p) && x == t.lru[p][0])))
      && (forall x :: x in t1.owner ==> t1.owner[x] == if x == m then p else t.owner[x])
  {
    hide NoDup;
  }

  lemma GrantKeeps(t: Table, max: nat, p: PeerId, m: Mac)
    requires Consistent(t, max) && p in t.lru && m !in t.owner
    ensures Consistent(Grant(t, max, p, m), max)
  {
    GrantFacts(t, max, p, m);
    GrantOwners(t, max, p, m);
    hide Grant, NoDup;
    var t1 := Grant(t, max, p, m);
    assert Full(t, max, p) ==> t.lru[p][0] in t.lru[p];
    forall q, x | q in t1.lru && x in t1.lru[q] ensures x in t1.owner && t1.owner[x] == q {
      assert x == m || (x in t.lru[q] && x in t.owner);
    }
    forall x | x in t1.owner ensures t1.owner[x] in t1.lru && x in t1.lru[t1.owner[x]] {
      assert x == m || x in t.owner;
    }
  }

  lemma TouchKeeps(t: Table, max: nat, p: PeerId, m: Mac)
    requires Consistent(t, max) && m in t.owner && t.owner[m] == p
    ensures p in t.lru && Consistent(t.(lru := t.lru[p := Without(t.lru[p], m) + [m]]), max)
  {
    hide Without;
    var l := Without(t.lru[p], m);
    WithoutNoDup(t.lru[p], m);
    GrantList(l, m, false);
  }

  /** Learning keeps one owner per address and every list within its bound. */
  lemma LearnKeeps(t: Table, max: nat, p: PeerId, m: Mac)
    requires Consistent(t, max) && p in t.lru
    ensures m in t.owner ==> t.owner[m] in t.lru
    ensures Consistent(Learn(t, max, p, m), max) && m in Learn(t, max, p, m).owner && Learn(t, max, p, m).owner[m] == p
  {
    StealKeeps(t, max, m);
    hide Consistent, Steal, NoDup, Without;
    if m in t.owner && t.owner[m] == p {
      TouchKeeps(t, max, p, m);
    } else {
      GrantKeeps(Steal(t, m), max, p, m);
    }
  }

  /** Only the learned address changes hands, and only the learner's oldest address can be forgotten, when full. */
  lemma OnlyOldestDisplaced(t: Table, max: nat, p: PeerId, m: Mac, x: Mac)
    requires Consistent(t, max) && p in t.lru && x != m && x in t.owner
    ensures var t1 := Learn(t, max, p, m);
      if x in t1.owner then t1.owner[x] == t.owner[x]
      else m !in t.lru[p] && |t.lru[p]| == max && x == t.lru[p][0]
  {
    if m !in t.lru[p] {
      StealKeeps(t, max, m);
      WithoutAbsent(t.lru[p], m);
    }
  }

  lemma OthersKept(t: Table, max: nat, p: PeerId, m: Mac, x: Mac)
    requires Consistent(t, max) && p in t.lru && x != m
    ensures x in Learn(t, max, p, m).owner ==> x in t.owner && Learn(t, max, p, m).owner[x] == t.owner[x]
  {
  }

  lemma JoinLeaveKeep(t: Table, max: nat, p: PeerId)
    requires Consistent(t, max)
    ensures p !in t.lru ==> Consistent(Join(t, p), max)
    ensures Consistent(Leave(t, p), max)
  {
    if p !in t.lru {
      JoinKeeps(t, max, p);
    }
    LeaveKeeps(t, max, p);
  }

  lemma JoinKeeps(t: Table, max: nat, p: PeerId)
    requires Consistent(t, max) && p !in t.lru
    ensures Consistent(Join(t, p), max)
  {
    hide NoDup;
    assert NoDup<Mac>([]) by { NoDupEmpty(); }
  }

  lemma NoDupEmpty()
    ensures NoDup<Mac>([])
  {
  }

  lemma LeaveKeeps(t: Table, max: nat, p: PeerId)
    requires Consistent(t, max)
    ensures Consistent(Leave(t, p), max)
  {
    hide NoDup;
  }

  // ---- whole runs ----

  datatype Event = Learned(p: PeerId, m: Mac) | Joined(p: PeerId) | Left(p: PeerId)

  function Apply(t: Table, max: nat, e: Event): Table {
    match e
    case Learned(p, m) => if p in t.lru && (m in t.owner ==> t.owner[m] in t.lru) then Learn(t, max, p, m) else t
    case Joined(p) => Join(t, p)
    case Left(p) => Leave(t, p)
  }

  ghost predicate Allowed(t: Table, e: Event) {
    match e
    case Learned(p, _) => p in t.lru
    case Joined(p) => p !in t.lru
    case Left(p) => p in t.lru
  }

  /** The table after the events of `h`, oldest first. */
  function After(max: nat, h: seq<Event>): Table
    decreases |h|
  {
    if h == [] then TableInit else Apply(After(max, h[..|h| - 1]), max, h[|h| - 1])
  }

  /** Frames and departures are those of peers that are there. */
  ghost predicate History(max: nat, h: seq<Event>)
    decreases |h|
  {
    h != [] ==> History(max, h[..|h| - 1]) && Allowed(After(max, h[..|h| - 1]), h[|h| - 1])
  }

  /** The peer that last sent with address `m` and has not left since. */
  function Latest(h: seq<Event>, m: Mac): Option<PeerId>
    decreases |h|
  {
    if h == [] then None
    else
      var e, before := h[|h| - 1], Latest(h[..|h| - 1], m);
      match e
      case Learned(p, x) => if x == m then Some(p) else before
      case Joined(_) => before
      case Left(p) => if before == Some(p) then None else before
  }

  /** The other addresses peer `p` has used since address `m` was last seen. */
  function Since(h: seq<Event>, p: PeerId, m: Mac): set<Mac>
    decreases |h|
  {
    if h == [] then {}
    else
      var e := h[|h| - 1];
      if e.Learned? && e.m == m then {}
      else Since(h[..|h| - 1], p, m) + if e.Learned? && e.p == p then {e.m} else {}
  }

  lemma {:induction false} HistoryConsistent(max: nat, h: seq<Event>)
    requires History(max, h) && max > 0
    ensures Consistent(After(max, h), max)
    decreases |h|
  {
    if h != [] {
      hide Consistent, Learn, Leave;
      HistoryConsistent(max, h[..|h| - 1]);
      var t, e := After(max, h[..|h| - 1]), h[|h| - 1];
      OwnersListed(t, max);
      match e
      case Learned(p, m) => LearnKeeps(t, max, p, m);
      case Joined(p) => JoinLeaveKeep(t, max, p);
      case Left(p) => JoinLeaveKeep(t, max, p);
    }
  }

  lemma OwnersListed(t: Table, max: nat)
    requires Consistent(t, max)
    ensures forall m :: m in t.owner ==> t.owner[m] in t.lru
  {
  }

  /** An address is only ever mapped to the peer that sent with it last. */
  lemma {:induction false} OwnerIsLatest(max: nat, h: seq<Event>, m: Mac)
    requires History(max, h) && max > 0
    ensures m in After(max, h).owner ==> Latest(h, m) == Some(After(max, h).owner[m])
    decreases |h|
  {
    if h != [] {
      var before, e := h[..|h| - 1], h[|h| - 1];
      OwnerIsLatest(max, before, m);
      HistoryConsistent(max, before);
      var t := After(max, before);
      hide Consistent;
      OwnersListed(t, max);
      match e
      case Learned(p, x) => {
        hide Learn;
        LearnKeeps(t, max, p, x);
        if x != m {
          OthersKept(t, max, p, x, m);
        }
      }
      case Joined(_) =>
      case Left(_) =>
    }
  }

  /** Everything listed after `m` was used by the peer since `m` was seen. */
  ghost predicate Recent(l: seq<Mac>, m: Mac, since: set<Mac>) {
    exists k :: 0 <= k < |l| && l[k] == m && forall j :: k < j < |l| ==> l[j] in since
  }

  lemma {:induction false} RecentWithout(l: seq<Mac>, m: Mac, since: set<Mac>, x: Mac)
    requires Recent(l, m, since) && x != m
    ensures Recent(Without(l, x), m, since)
    decreases |l|
  {
    var k :| 0 <= k < |l| && l[k] == m && forall j :: k < j < |l| ==> l[j] in since;
    var r := Without(l[1..], x);
    if k == 0 {
      var s := [m] + r;
      assert Without(l, x) == s && s[0] == m;
      forall j | 0 < j < |s| ensures s[j] in since {
        assert r[j - 1] in r;
        var i :| 0 <= i < |l[1..]| && l[1..][i] == r[j - 1];
        assert l[i + 1] in since;
      }
    } else {
      assert l[1..][k - 1] == m;
      assert Recent(l[1..], m, since);
      RecentWithout(l[1..], m, since, x);
      if l[0] != x {
        var i :| 0 <= i < |r| && r[i] == m && forall j :: i < j < |r| ==> r[j] in since;
        var s := [l[0]] + r;
        assert s[i + 1] == m && forall j :: i + 1 < j < |s| ==> s[j] == r[j - 1];
      }
    }
  }

  lemma RecentAppend(l: seq<Mac>, m: Mac, since: set<Mac>, x: Mac)
    requires Recent(l, m, since)
    ensures Recent(l + [x], m, since + {x})
  {
    var k :| 0 <= k < |l| && l[k] == m && forall j :: k < j < |l| ==> l[j] in since;
    assert (l + [x])[k] == m;
  }

  /** Dropping the oldest entry of a full list cannot hit `m` while fewer than `max` addresses were used since. */
  lemma RecentSurvives(l: seq<Mac>, m: Mac, since: set<Mac>, x: Mac, max: nat)
    requires Recent(l, m, since) && NoDup(l) && |l| >= max > 0 && x !in l && |since + {x}| < max
    ensures Recent(l[1..], m, since)
  {
    var k :| 0 <= k < |l| && l[k] == m && forall j :: k < j < |l| ==> l[j] in since;
    if k == 0 {
      var tail := l[1..] + [x];
      forall y | y in tail ensures y in since + {x} {
        var j :| 0 <= j < |tail| && tail[j] == y;
        if j < |l| - 1 {
          assert l[j + 1] == y;
        }
      }
      NoDupLength(tail, since + {x});
      assert false;
    }
    assert l[1..][k - 1] == m;
  }

  /** A newly granted address goes to the end; what was recent stays recent. */
  lemma GrantRecent(t: Table, max: nat, p: PeerId, x: Mac, m: Mac, since: set<Mac>)
    requires Consistent(t, max) && p in t.lru && x !in t.owner && Recent(t.lru[p], m, since) && |since + {x}| < max
    ensures Recent(Grant(t, max, p, x).lru[p], m, since + {x})
  {
    hide Recent;
    var l := t.lru[p];
    if |l| >= max {
      RecentSurvives(l, m, since, x, max);
      RecentAppend(l[1..], m, since, x);
    } else {
      RecentAppend(l, m, since, x);
    }
  }

  lemma LearnRecent(t: Table, max: nat, p: PeerId, x: Mac, q: PeerId, m: Mac, since: set<Mac>)
    requires Consistent(t, max) && p in t.lru && q in t.lru && x != m && Recent(t.lru[q], m, since)
    requires p == q ==> |since + {x}| < max
    ensures var t1 := Learn(t, max, p, x);
      q in t1.lru && Recent(t1.lru[q], m, if p == q then since + {x} else since)
  {
    if x in t.owner {
      ListedAt(t, max, x);
    }
    ListOf(t, max, q);
    RecentWithout(t.lru[q], m, since, x);
    hide Recent, Without, Consistent;
    if x in t.owner && t.owner[x] == p {
      RecentAppend(Without(t.lru[q], x), m, since, x);
    } else {
      StealKeeps(t, max, x);
      if p == q {
        GrantRecent(Steal(t, x), max, p, x, m, since);
      }
    }
  }

  lemma LearnedIsRecent(t: Table, max: nat, p: PeerId, m: Mac)
    requires Consistent(t, max) && p in t.lru
    ensures p in Learn(t, max, p, m).lru && Recent(Learn(t, max, p, m).lru[p], m, {})
  {
    hide Consistent, Recent, Without;
    if !(m in t.owner && t.owner[m] == p) {
      StealKeeps(t, max, m);
      hide Steal;
      RecentLast(Learn(t, max, p, m).lru[p], m);
    } else {
      RecentLast(Learn(t, max, p, m).lru[p], m);
    }
  }

  lemma RecentLast(l: seq<Mac>, m: Mac)
    requires l != [] && l[|l| - 1] == m
    ensures Recent(l, m, {})
  {
  }

  lemma {:induction false} StaysRecent(max: nat, h: seq<Event>, p: PeerId, m: Mac)
    requires History(max, h) && max > 0 && Latest(h, m) == Some(p) && |Since(h, p, m)| < max
    ensures p in After(max, h).lru && Recent(After(max, h).lru[p], m, Since(h, p, m))
    decreases |h|
  {
    var before, e := h[..|h| - 1], h[|h| - 1];
    var t := After(max, before);
    HistoryConsistent(max, before);
    OwnersListed(t, max);
    hide Consistent, Learn;
    if e.Learned? && e.m == m {
      LearnedIsRecent(t, max, p, m);
      assert After(max, h) == Learn(t, max, p, m) && Since(h, p, m) == {};
    } else {
      SizeGrows(Since(before, p, m), if e.Learned? && e.p == p then {e.m} else {});
      StaysRecent(max, before, p, m);
      if e.Learned? {
        LearnRecent(t, max, e.p, e.m, p, m, Since(before, p, m));
      } else {
        assert Since(h, p, m) == Since(before, p, m);
      }
    }
  }

  lemma SizeGrows(a: set<Mac>, b: set<Mac>)
    ensures |a| <= |a + b|
  {
    assert a + b == a + (b - a);
    assert a !! (b - a);
  }

  /**
   * Over any history of frames, arrivals and departures: an address is mapped to the peer that last sent with it, as
   * long as that peer is there and has used fewer than `max` other addresses since.
   */
  lemma LatestIsOwner(max: nat, h: seq<Event>, p: PeerId, m: Mac)
    requires History(max, h) && max > 0 && Latest(h, m) == Some(p) && |Since(h, p, m)| < max
    ensures m in After(max, h).owner && After(max, h).owner[m] == p
  {
    HistoryConsistent(max, h);
    StaysRecent(max, h, p, m);
  }
}
