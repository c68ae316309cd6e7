/**
 * Multicast memberships told from outside: what each peer reported, until when, and which of its other groups it
 * reported since. Reports and queries alone decide which memberships stand and when each times out.
 */
module MulticastRuns {
  import opened Common
  import opened MulticastIndex
  import MacTable

  /** The index changes, or a query for a group lowers the time its memberships have left. */
  datatype Happening = Change(ev: Event) | Queried(g: Group, limit: int)

  function Lowered(x: Index, g: Group, limit: int): Index {
    x.(endtime := map e | e in x.endtime :: if e.group == g then Min(x.endtime[e], limit) else x.endtime[e])
  }

  ghost predicate Possible(x: Index, h: Happening) {
    h.Change? ==> Enabled(x, h.ev)
  }

  ghost function Next(x: Index, max: nat, h: Happening): Index
    requires Inv(x, max) && Possible(x, h)
  {
    match h
    case Change(ev) => Step(x, max, ev)
    case Queried(g, limit) => Lowered(x, g, limit)
  }

  lemma NextKeeps(x: Index, max: nat, h: Happening)
    requires Inv(x, max) && Possible(x, h)
    ensures Inv(Next(x, max, h), max)
  {
    hide Inv, Step;
    match h {
      case Change(ev) => StepKeeps(x, max, ev);
      case Queried(g, limit) => EndtimeOnly(x, max, Lowered(x, g, limit).endtime);
    }
  }

  ghost predicate CanRun(x: Index, max: nat, hs: seq<Happening>)
    requires Inv(x, max)
    decreases |hs|
  {
    hs != [] ==> Possible(x, hs[0]) && (NextKeeps(x, max, hs[0]); CanRun(Next(x, max, hs[0]), max, hs[1..]))
  }

  ghost function Run(x: Index, max: nat, hs: seq<Happening>): (r: Index)
    requires Inv(x, max) && CanRun(x, max, hs)
    ensures Inv(r, max)
    decreases |hs|
  {
    if hs == [] then x
    else
      NextKeeps(x, max, hs[0]);
      Run(Next(x, max, hs[0]), max, hs[1..])
  }

  // ---- the account ----

  /** A group reported: when it times out, and the other groups its peer reported since. */
  datatype Reported = Reported(until: int, since: set<Group>)

  type Account = map<Membership, Reported>

  function RecordReport(a: Account, p: PeerId, g: Group, until: int): Account {
    (map e | e in a :: if e.peer == p then a[e].(since := a[e].since + {g}) else a[e])
      [Membership(p, g) := Reported(until, {})]
  }

  function Record(a: Account, h: Happening): Account {
    match h
    case Change(PeerJoined(p)) => a
    case Change(PeerLeft(p)) => map e | e in a && e.peer != p :: a[e]
    case Change(Report(p, g, until)) => RecordReport(a, p, g, until)
    case Change(Expired(e)) => a - {e}
    case Queried(g, limit) => map e | e in a :: if e.group == g then a[e].(until := Min(a[e].until, limit)) else a[e]
  }

  function RecordAll(a: Account, hs: seq<Happening>): Account
    decreases |hs|
  {
    if hs == [] then a else RecordAll(Record(a, hs[0]), hs[1..])
  }

  /**
   * What stands was reported and times out as told; what was reported stands while fewer than `max` others were
   * since.
   */
  ghost predicate Told(x: Index, max: nat, a: Account, e: Membership) {
    && (Has(x, e) ==> e in a && e in x.endtime && x.endtime[e] == a[e].until)
    && (e in a && |a[e].since| < max ==> e.peer in x.used && MacTable.Recent(x.used[e.peer], e.group, a[e].since))
    && (e in a ==> e.peer in x.used && e.group !in a[e].since)
  }

  ghost predicate Agree(x: Index, max: nat, a: Account) {
    forall e :: Told(x, max, a, e)
  }

  // ---- a report ----

  /** The list after a report: the group is now the newest, and if it is new to a full list the oldest went. */
  function AfterReport(l: seq<Group>, max: nat, g: Group): seq<Group> {
    (if g in l then Without(l, g) else if |l| >= max && l != [] then Without(l, l[0]) else l) + [g]
  }

  lemma ReportLists(x: Index, max: nat, p: PeerId, g: Group, until: int)
    requires Inv(x, max) && p in x.used
    ensures var x1 := JoinGroup(x, max, p, g, until);
      && x1.used == x.used[p := AfterReport(x.used[p], max, g)]
      && x1.endtime == x.endtime[Membership(p, g) := until]
  {
    hide Inv, RemoveFromMulticast, AddToMulticast;
    var e := Membership(p, g);
    if g !in x.used[p] {
      AdmitLists(x, max, e);
    }
  }

  lemma AdmitLists(x: Index, max: nat, e: Membership)
    requires Inv(x, max) && e.peer in x.used && !Has(x, e)
    ensures var x1 := Admit(x, max, e);
      && x1.used == x.used[e.peer := AfterReport(x.used[e.peer], max, e.group)] && x1.endtime == x.endtime
  {
    hide ListsOk, ChainsOk, MastersOk, RemoveFromMulticast, AddToMulticast;
    MakeRoomKeeps(x, max, e.peer);
    RoomLists(x, max, e.peer);
    var x1 := List(MakeRoom(x, max, e.peer), e);
    AddKeepsLists(x1, e);
    assert x1.used == x.used[e.peer := AfterReport(x.used[e.peer], max, e.group)];
  }

  lemma AddKeepsLists(x: Index, e: Membership)
    requires AddReady(x, e)
    ensures AddToMulticast(x, e).used == x.used && AddToMulticast(x, e).endtime == x.endtime
  {
  }

  lemma RemoveLists(x: Index, max: nat, e: Membership)
    requires Inv(x, max) && Has(x, e)
    ensures SigOf(e.group) in x.chains && e in x.chains[SigOf(e.group)]
    ensures var x1 := RemoveGroup(x, e);
      x1.used == x.used[e.peer := Without(x.used[e.peer], e.group)] && x1.endtime == x.endtime
  {
    hide Inv, NextOrPrev;
    RemoveGroupKeeps(x, max, e);
  }

  lemma RoomLists(x: Index, max: nat, p: PeerId)
    requires Inv(x, max) && p in x.used && ChainsOk(x)
    ensures var x1 := MakeRoom(x, max, p); var l := x.used[p];
      && x1.endtime == x.endtime
      && x1.used == x.used[p := if |l| >= max && l != [] then Without(l, l[0]) else l]
  {
    hide Inv, RemoveGroup;
    if |x.used[p]| >= max && x.used[p] != [] {
      RemoveLists(x, max, Membership(p, x.used[p][0]));
    }
  }

  lemma {:induction false} LeaveLists(x: Index, max: nat, p: PeerId)
    requires Inv(x, max) && p in x.used
    ensures var x1 := PeerLeaves(x, max, p); x1.used == x.used - {p} && x1.endtime == x.endtime
    decreases |x.used[p]|
  {
    hide Inv, RemoveGroup;
    if x.used[p] != [] {
      var e := Membership(p, x.used[p][0]);
      RemoveGroupKeeps(x, max, e);
      RemoveLists(x, max, e);
      LeaveLists(RemoveGroup(x, e), max, p);
    }
  }

  /** A reported group is the newest; another stays as recent as it was, as long as it is not displaced. */
  lemma ReportRecent(l: seq<Group>, max: nat, g: Group, m: Group, since: set<Group>)
    requires NoDup(l) && |l| <= max && max > 0 && m != g && MacTable.Recent(l, m, since) && |since + {g}| < max
    ensures MacTable.Recent(AfterReport(l, max, g), m, since + {g})
  {
    hide MacTable.Recent;
    if g in l {
      MacTable.RecentWithout(l, m, since, g);
      MacTable.RecentAppend(Without(l, g), m, since, g);
    } else if |l| >= max {
      MacTable.RecentSurvives(l, m, since, g, max);
      WithoutFirst(l);
      MacTable.RecentAppend(l[1..], m, since, g);
    } else {
      MacTable.RecentAppend(l, m, since, g);
    }
  }

  lemma ReportTold(x: Index, max: nat, a: Account, p: PeerId, g: Group, until: int, e: Membership)
    requires Inv(x, max) && p in x.used && Told(x, max, a, e)
    ensures Told(JoinGroup(x, max, p, g, until), max, RecordReport(a, p, g, until), e)
  {
    hide JoinGroup, MacTable.Recent, ChainsOk, MastersOk;
    ReportLists(x, max, p, g, until);
    var x1, a1 := JoinGroup(x, max, p, g, until), RecordReport(a, p, g, until);
    var l1 := AfterReport(x.used[p], max, g);
    if e == Membership(p, g) {
      MacTable.RecentLast(l1, g);
    } else if e.peer == p && e in a && |a1[e].since| < max {
      SmallerSince(a[e].since, g);
      ReportRecent(x.used[p], max, g, e.group, a[e].since);
    }
  }

  lemma SmallerSince(s: set<Group>, g: Group)
    ensures |s| <= |s + {g}|
  {
    if g !in s {
      assert |s + {g}| == |s| + 1;
    } else {
      assert s + {g} == s;
    }
  }

  lemma ExpiredTold(x: Index, max: nat, a: Account, y: Membership, e: Membership)
    requires Inv(x, max) && Has(x, y) && Told(x, max, a, e)
    ensures SigOf(y.group) in x.chains && y in x.chains[SigOf(y.group)]
    ensures Told(RemoveGroup(x, y), max, a - {y}, e)
  {
    hide MacTable.Recent, RemoveGroup;
    RemoveLists(x, max, y);
    if e.peer == y.peer && e != y && e in a && |a[e].since| < max {
      MacTable.RecentWithout(x.used[e.peer], e.group, a[e].since, y.group);
    }
  }

  lemma NextTold(x: Index, max: nat, a: Account, h: Happening, e: Membership)
    requires Inv(x, max) && Possible(x, h) && Told(x, max, a, e)
    ensures Told(Next(x, max, h), max, Record(a, h), e)
  {
    hide MacTable.Recent, JoinGroup, RemoveGroup, PeerLeaves, RecordReport, ListsOk, ChainsOk, MastersOk;
    match h {
      case Change(PeerJoined(p)) =>
      case Change(PeerLeft(p)) => LeaveLists(x, max, p);
      case Change(Report(p, g, until)) => ReportTold(x, max, a, p, g, until, e);
      case Change(Expired(y)) => ExpiredTold(x, max, a, y, e);
      case Queried(g, limit) =>
    }
  }

  lemma {:induction false} RunTold(x: Index, max: nat, a: Account, hs: seq<Happening>)
    requires Inv(x, max) && CanRun(x, max, hs) && Agree(x, max, a)
    ensures Agree(Run(x, max, hs), max, RecordAll(a, hs))
    decreases |hs|
  {
    hide Inv, Next, Record, Told, Possible;
    if hs != [] {
      var x1, a1 := Next(x, max, hs[0]), Record(a, hs[0]);
      NextKeeps(x, max, hs[0]);
      forall e ensures Told(x1, max, a1, e) {
        NextTold(x, max, a, hs[0], e);
      }
      RunTold(x1, max, a1, hs[1..]);
    }
  }

  /**
   * Over any history: a membership that stands was reported since its peer came and has not timed out since, and
   * times out when its last report says, or sooner if a query for the group said so; and one that was reported and
   * has not timed out stands as long as its peer reported fewer than `max` other groups since.
   */
  lemma EveryRun(max: nat, hs: seq<Happening>, e: Membership)
    requires max > 0 && CanRun(IndexInit, max, hs)
    ensures var x, a := Run(IndexInit, max, hs), RecordAll(map[], hs);
      && (Has(x, e) ==> e in a && e in x.endtime && x.endtime[e] == a[e].until)
      && (e in a && |a[e].since| < max ==> Has(x, e))
  {
    hide Run, CanRun, RecordAll;
    var x, a := Run(IndexInit, max, hs), RecordAll(map[], hs);
    RunTold(IndexInit, max, map[], hs);
    assert Told(x, max, a, e);
    if e in a && |a[e].since| < max {
      RecentListed(x.used[e.peer], e.group, a[e].since);
    }
  }

  lemma RecentListed(l: seq<Group>, g: Group, since: set<Group>)
    requires MacTable.Recent(l, g, since)
    ensures g in l
  {
  }

  /** Two groups share a list of memberships exactly if they share their Ethernet address. */
  lemma SameListSameMac(g: Group, h: Group)
    ensures SigOf(g) == SigOf(h) <==> GroupMac(g) == GroupMac(h)
  {
    SignaturesAgree(g);
    SignaturesAgree(h);
    if SigOf(g) == SigOf(h) {
      SameDigits(g, h);
    }
  }

  lemma SameDigits(g: nat, h: nat)
    requires g % 0x80_0000 == h % 0x80_0000
    ensures g % 0x100 == h % 0x100 && (g / 0x100) % 0x100 == (h / 0x100) % 0x100
    ensures (g / 0x1_0000) % 0x80 == (h / 0x1_0000) % 0x80
  {
    Digits(g, g / 0x80_0000, g % 0x80_0000);
    Digits(h, h / 0x80_0000, h % 0x80_0000);
  }

  lemma Digits(g: nat, k: nat, r: nat)
    requires g == k * 0x80_0000 + r && r < 0x80_0000
    ensures g % 0x100 == r % 0x100 && (g / 0x100) % 0x100 == (r / 0x100) % 0x100
    ensures (g / 0x1_0000) % 0x80 == (r / 0x1_0000) % 0x80
  {
    assert g / 0x100 == k * 0x8000 + r / 0x100;
    assert g / 0x1_0000 == k * 0x80 + r / 0x1_0000;
  }
}
