/**
 * One-time passwords at both ends: the checker of security/OTPChecker.c with a table for each of the last seeds, and
 * the generator of security/OTPGenerator.c, which hands out the passwords of its seed in random order.
 */
module OtpObjects {
  import opened Common
  import opened OtpTable

  // ---- one table, in place ----

  lemma UnusedOk(es: seq<Entry>)
    requires |es| > 0 && forall j :: 0 <= j < |es| ==> !Used(es[j])
    ensures TableOk(es, multiset{}) && |UsedAt(es)| == 0
  {
    assert UsedAt(es) == {};
  }

  method TableEmpty(a: array<Entry>)
    modifies a
    ensures forall j :: 0 <= j < a.Length ==> !Used(a[j])
  {
    var i := 0;
    while i < a.Length
      invariant i <= a.Length && forall j :: 0 <= j < i ==> !Used(a[j])
    {
      a[i] := a[i].(avail := -1);
      i := i + 1;
    }
  }

  /** The password may be used once more; the search never fails to find a place. */
  method TableAddOtp(a: array<Entry>, otp: nat, ghost bag: multiset<nat>)
    requires TableOk(a[..], bag) && |UsedAt(a[..])| < a.Length
    modifies a
    ensures TableOk(a[..], bag + multiset{otp}) && |UsedAt(a[..])| <= old(|UsedAt(a[..])|) + 1
  {
    hide TableOk, UsedAt;
    ghost var es := a[..];
    SomeUnused(es, otp);
    var i := 0;
    while i < a.Length
      invariant 0 <= i <= a.Length && a[..] == es && Passed(es, otp, i)
    {
      var index := Slot(otp, i, a.Length);
      if a[index].avail < 0 {
        TakeEntry(es, bag, otp, i);
        a[index] := Entry(otp, 1);
        assert a[..] == es[index := Entry(otp, 1)] && bag + multiset{otp} == bag[otp := 1];
        return;
      }
      if a[index].otp == otp {
        Counted(es, bag, index);
        Recount(es, bag, index, a[index].avail + 1);
        a[index] := a[index].(avail := a[index].avail + 1);
        assert a[..] == es[index := Entry(otp, es[index].avail + 1)];
        assert bag + multiset{otp} == bag[otp := es[index].avail + 1];
        return;
      }
      i := i + 1;
    }
  }

  lemma Counted(es: seq<Entry>, bag: multiset<nat>, j: nat)
    requires TableOk(es, bag) && j < |es| && Used(es[j])
    ensures bag[es[j].otp] == es[j].avail
  {
  }

  /** Accepts exactly the passwords still in the table, and takes one use of it away. */
  method TableCheckOtp(a: array<Entry>, otp: nat, ghost bag: multiset<nat>) returns (ok: bool)
    requires TableOk(a[..], bag) && |UsedAt(a[..])| < a.Length
    modifies a
    ensures ok <==> otp in bag
    ensures TableOk(a[..], bag - multiset{otp}) && UsedAt(a[..]) == old(UsedAt(a[..]))
  {
    hide TableOk, UsedAt;
    ghost var es := a[..];
    SomeUnused(es, otp);
    var i := 0;
    while i < a.Length
      invariant 0 <= i <= a.Length && a[..] == es && Passed(es, otp, i)
    {
      var index := Slot(otp, i, a.Length);
      if a[index].avail < 0 {
        NotThere(es, bag, otp, i);
        assert bag - multiset{otp} == bag;
        return false;
      }
      if a[index].otp == otp {
        Counted(es, bag, index);
        if a[index].avail > 0 {
          Recount(es, bag, index, a[index].avail - 1);
          a[index] := a[index].(avail := a[index].avail - 1);
          assert a[..] == es[index := Entry(otp, es[index].avail - 1)];
          assert bag - multiset{otp} == bag[otp := es[index].avail - 1];
          return true;
        }
        assert bag - multiset{otp} == bag;
        return false;
      }
      i := i + 1;
    }
    return false;
  }

  /** A table of a checker, in its array. */
  ghost predicate ArrayOk(a: array<Entry>, bag: multiset<nat>, numOtps: nat)
    reads a
  {
    TableOk(a[..], bag) && |UsedAt(a[..])| <= numOtps
  }

  /** The table then holds exactly the passwords given, each as often as it is among them. */
  method TableGenerate(a: array<Entry>, otps: seq<nat>)
    requires a.Length == 2 * |otps| && otps != []
    modifies a
    ensures ArrayOk(a, multiset(otps), |otps|)
  {
    hide TableOk, UsedAt;
    TableEmpty(a);
    UnusedOk(a[..]);
    var i := 0;
    assert otps[..0] == [];
    while i < |otps|
      invariant 0 <= i <= |otps| && TableOk(a[..], multiset(otps[..i])) && |UsedAt(a[..])| <= i
    {
      TableAddOtp(a, otps[i], multiset(otps[..i]));
      assert otps[..i + 1] == otps[..i] + [otps[i]];
      i := i + 1;
    }
    assert otps[..i] == otps;
  }

  // ---- the checker ----

  /** A seed the checker knows, with the passwords still unused. */
  datatype Seed = Seed(id: nat, bag: multiset<nat>)

  /** The passwords are looked up in the newest seed of that number. */
  function Find(seeds: seq<Seed>, id: nat): (r: Option<nat>)
    ensures r.Some? ==> r.value < |seeds| && seeds[r.value].id == id
    ensures r.Some? ==> forall i :: 0 <= i < r.value ==> seeds[i].id != id
    ensures r.None? ==> forall i :: 0 <= i < |seeds| ==> seeds[i].id != id
  {
    if seeds == [] then None
    else if seeds[0].id == id then Some(0)
    else
      var r := Find(seeds[1..], id);
      if r.Some? then Some(r.value + 1) else None
  }

  predicate Knows(seeds: seq<Seed>, id: nat, otp: nat) {
    var t := Find(seeds, id);
    t.Some? && otp in seeds[t.value].bag
  }

  /** The seeds once a password has been used. */
  function UseOtp(seeds: seq<Seed>, id: nat, otp: nat): seq<Seed> {
    var t := Find(seeds, id);
    if t.None? then seeds else seeds[t.value := seeds[t.value].(bag := seeds[t.value].bag - multiset{otp})]
  }

  /** bmodadd_int(next, n - i, n) */
  function Back(next: nat, i: nat, n: nat): (t: nat)
    requires next < n && 1 <= i <= n
    ensures t < n && (t == next <==> i == n)
  {
    if next >= i then next - i else next - i + n
  }

  lemma BackUnique(next: nat, i: nat, j: nat, n: nat)
    requires next < n && 1 <= i <= n && 1 <= j <= n && Back(next, i, n) == Back(next, j, n)
    ensures i == j
  {
  }

  function NextTable(next: nat, n: nat): nat
    requires next < n
  {
    if next + 1 < n then next + 1 else 0
  }

  lemma BackOne(next: nat, i: nat, n: nat)
    requires next < n && 1 <= i < n
    ensures Back(NextTable(next, n), 1, n) == next && Back(NextTable(next, n), i + 1, n) == Back(next, i, n)
  {
  }

  /** The seeds of the last `live` tables before `next`, newest first. */
  ghost function SeedsOf(ids: seq<nat>, bags: seq<multiset<nat>>, next: nat, live: nat): (r: seq<Seed>)
    requires next < |ids| == |bags| && live <= |ids|
    ensures |r| == live
    ensures forall i :: 0 <= i < live ==> r[i] == SeedAt(ids, bags, next, i)
    decreases live
  {
    if live == 0 then [] else SeedsOf(ids, bags, next, live - 1) + [SeedAt(ids, bags, next, live - 1)]
  }

  ghost function SeedAt(ids: seq<nat>, bags: seq<multiset<nat>>, next: nat, i: nat): Seed
    requires next < |ids| == |bags| && i < |ids|
  {
    var t := Back(next, i + 1, |ids|);
    Seed(ids[t], bags[t])
  }

  lemma SeedsSame(ids: seq<nat>, ids1: seq<nat>, bags: seq<multiset<nat>>, next: nat, live: nat)
    requires next < |ids| == |ids1| == |bags| && live < |ids|
    requires forall t :: 0 <= t < |ids| && t != next ==> ids1[t] == ids[t]
    ensures SeedsOf(ids1, bags, next, live) == SeedsOf(ids, bags, next, live)
    ensures live + 1 == |ids| ==> SeedsOf(ids, bags, next, live) == SeedsOf(ids, bags, next, live + 1)[..live]
  {
    forall i | 0 <= i < live ensures SeedAt(ids1, bags, next, i) == SeedAt(ids, bags, next, i) {
      assert Back(next, i + 1, |ids|) != next;
    }
  }

  lemma SeedsNext(ids: seq<nat>, bags: seq<multiset<nat>>, next: nat, live: nat, bag: multiset<nat>)
    requires next < |ids| == |bags| && live < |ids|
    ensures SeedsOf(ids, bags[next := bag], NextTable(next, |ids|), live + 1)
         == [Seed(ids[next], bag)] + SeedsOf(ids, bags, next, live)
  {
    var n := |ids|;
    var bags1, next1 := bags[next := bag], NextTable(next, n);
    var l, r := SeedsOf(ids, bags1, next1, live + 1), [Seed(ids[next], bag)] + SeedsOf(ids, bags, next, live);
    assert Back(next1, 1, n) == next;
    forall i | 0 <= i < live + 1 ensures l[i] == r[i] {
      if i > 0 {
        BackOne(next, i, n);
        assert Back(next, i, n) != next;
        assert l[i] == SeedAt(ids, bags1, next1, i) && r[i] == SeedAt(ids, bags, next, i - 1);
      } else {
        assert l[0] == SeedAt(ids, bags1, next1, 0);
      }
    }
  }

  lemma SeedsUse(ids: seq<nat>, bags: seq<multiset<nat>>, next: nat, live: nat, i: nat, bag: multiset<nat>)
    requires next < |ids| == |bags| && 1 <= i <= live <= |ids|
    ensures var t := Back(next, i, |ids|);
      SeedsOf(ids, bags[t := bag], next, live) == SeedsOf(ids, bags, next, live)[i - 1 := Seed(ids[t], bag)]
  {
    var t := Back(next, i, |ids|);
    var l, r := SeedsOf(ids, bags[t := bag], next, live), SeedsOf(ids, bags, next, live)[i - 1 := Seed(ids[t], bag)];
    forall j | 0 <= j < live ensures l[j] == r[j] {
      assert l[j] == SeedAt(ids, bags[t := bag], next, j);
      assert j != i - 1 ==> r[j] == SeedAt(ids, bags, next, j);
      if Back(next, j + 1, |ids|) == t {
        BackUnique(next, j + 1, i, |ids|);
      }
    }
  }

  /** The last `live` tables before `next` are in order. */
  ghost predicate LiveOk(tables: seq<array<Entry>>, bags: seq<multiset<nat>>, next: nat, live: nat, numOtps: nat)
    requires next < |tables| == |bags| && live <= |tables|
    reads tables
  {
    forall i :: 1 <= i <= live ==>
      ArrayOk(tables[Back(next, i, |tables|)], bags[Back(next, i, |tables|)], numOtps)
  }

  lemma LiveNext(tables: seq<array<Entry>>, bags: seq<multiset<nat>>, next: nat, live: nat, numOtps: nat)
    requires next < |tables| == |bags| && live < |tables| && LiveOk(tables, bags, next, live, numOtps)
    requires ArrayOk(tables[next], bags[next], numOtps)
    ensures LiveOk(tables, bags, NextTable(next, |tables|), live + 1, numOtps)
  {
    hide ArrayOk;
    var n := |tables|;
    forall i | 1 <= i <= live + 1
      ensures ArrayOk(tables[Back(NextTable(next, n), i, n)], bags[Back(NextTable(next, n), i, n)], numOtps)
    {
      if i > 1 {
        BackOne(next, i - 1, n);
      } else {
        assert Back(NextTable(next, n), 1, n) == next;
      }
    }
  }

  class OTPChecker {
    const numOtps: nat
    const tables: seq<array<Entry>>
    var ids: seq<nat>
    var tablesUsed: nat
    var nextTable: nat
    var twHave: bool
    ghost var bags: seq<multiset<nat>>

    /** How many tables can be used for checking; the one being generated cannot. */
    function Live(): nat
      reads this
    {
      if twHave && tablesUsed == |tables| && tablesUsed > 0 then tablesUsed - 1 else tablesUsed
    }

    ghost predicate Shape()
      reads this
    {
      && numOtps > 0 && 0 < |tables| == |ids| == |bags| && nextTable < |tables| && tablesUsed <= |tables|
      && (forall t :: 0 <= t < |tables| ==> tables[t].Length == 2 * numOtps)
      && (forall t, u :: 0 <= t < u < |tables| ==> tables[t] != tables[u])
    }

    ghost predicate Valid()
      reads this, tables
    {
      Shape() && LiveOk(tables, bags, nextTable, Live(), numOtps)
    }

    /** The seeds the checker knows, newest first. */
    ghost function View(): seq<Seed>
      requires Shape()
      reads this
    {
      SeedsOf(ids, bags, nextTable, Live())
    }

    constructor (numOtps: nat, tables: seq<array<Entry>>)
      requires numOtps > 0 && tables != [] && forall t :: 0 <= t < |tables| ==> tables[t].Length == 2 * numOtps
      requires forall t, u :: 0 <= t < u < |tables| ==> tables[t] != tables[u]
      ensures Valid() && this.numOtps == numOtps && this.tables == tables && View() == []
    {
      this.numOtps, this.tables := numOtps, tables;
      ids, bags := seq(|tables|, _ => 0), seq(|tables|, _ => multiset{});
      tablesUsed, nextTable, twHave := 0, 0, false;
    }

    /** Passwords of the seed are not recognized until they are generated; the oldest seed makes room if need be. */
    method AddSeed(id: nat)
      requires Valid()
      modifies this`ids, this`twHave
      ensures Valid() && twHave && ids[nextTable] == id
      ensures View() == if old(View()) != [] && |old(View())| == |tables| then old(View())[..|tables| - 1]
                else old(View())
    {
      hide SeedsOf, ArrayOk;
      ghost var l := if tablesUsed == |tables| then tablesUsed - 1 else tablesUsed;
      SeedsSame(ids, ids[nextTable := id], bags, nextTable, l);
      ids := ids[nextTable := id];
      twHave := true;
    }

    /** work_func: fills the table that is not used for checking. */
    method GenerateNext(otps: seq<nat>)
      requires Valid() && twHave && |otps| == numOtps
      modifies this`bags, tables[nextTable]
      ensures Valid() && ArrayOk(tables[nextTable], bags[nextTable], numOtps)
      ensures bags == old(bags)[nextTable := multiset(otps)]
    {
      hide ArrayOk, SeedsOf, SeedAt;
      TableGenerate(tables[nextTable], otps);
      bags := bags[nextTable := multiset(otps)];
      forall i | 1 <= i <= Live()
        ensures ArrayOk(tables[Back(nextTable, i, |tables|)], bags[Back(nextTable, i, |tables|)], numOtps)
      {
        ghost var t := Back(nextTable, i, |tables|);
        assert old(ArrayOk(tables[t], bags[t], numOtps)) && t != nextTable;
      }
    }

    /** The passwords are generated, and the seed is the newest one from now on. */
    method WorkDone(otps: seq<nat>)
      requires Valid() && twHave && |otps| == numOtps
      modifies this`twHave, this`nextTable, this`tablesUsed, this`bags, tables[nextTable]
      ensures Valid() && !twHave
      ensures View() == [Seed(old(ids[nextTable]), multiset(otps))] + old(View())
    {
      hide ArrayOk, LiveOk, SeedsOf, SeedAt;
      ghost var n, l := nextTable, Live();
      SeedsNext(ids, bags, nextTable, l, multiset(otps));
      GenerateNext(otps);
      twHave := false;
      nextTable := NextTable(nextTable, |tables|);
      if tablesUsed < |tables| {
        tablesUsed := tablesUsed + 1;
      }
      LiveNext(tables, bags, n, l, numOtps);
    }

    method RemoveSeeds()
      requires Valid()
      modifies this`twHave, this`tablesUsed, this`nextTable
      ensures Valid() && View() == [] && !twHave
    {
      twHave, tablesUsed, nextTable := false, 0, 0;
    }

    /** The newest seed of that number, counted backwards from the newest of all, or 0. */
    method FindSeed(id: nat) returns (i: nat)
      requires Valid()
      ensures i <= Live() && Find(View(), id) == if i == 0 then None else Some(i - 1)
    {
      hide ArrayOk;
      ghost var seeds := View();
      i := 1;
      while i <= tablesUsed
        invariant 1 <= i <= tablesUsed + 1
        invariant forall k :: 0 <= k < i - 1 && k < |seeds| ==> seeds[k].id != id
      {
        var t := Back(nextTable, i, |tables|);
        if !(t == nextTable && twHave) {
          assert seeds[i - 1] == SeedAt(ids, bags, nextTable, i - 1);
          if ids[t] == id {
            return;
          }
        }
        i := i + 1;
      }
      return 0;
    }

    /** Accepts exactly a password still unused under the newest seed of that number, and uses it. */
    method CheckOtp(id: nat, otp: nat) returns (ok: bool)
      requires Valid()
      modifies this`bags, tables
      ensures Valid() && ok == Knows(old(View()), id, otp) && View() == UseOtp(old(View()), id, otp)
    {
      hide ArrayOk, SeedsOf, Find;
      var i := FindSeed(id);
      if i == 0 {
        return false;
      }
      ok := CheckIn(Back(nextTable, i, |tables|), i, otp);
    }

    method CheckIn(t: nat, i: nat, otp: nat) returns (ok: bool)
      requires Valid() && 1 <= i <= Live() && t == Back(nextTable, i, |tables|)
      modifies this`bags, tables[t]
      ensures Valid() && ok == (otp in old(View())[i - 1].bag)
      ensures View() == old(View())[i - 1 := old(View())[i - 1].(bag := old(View())[i - 1].bag - multiset{otp})]
    {
      hide TableOk, UsedAt, SeedsOf;
      assert ArrayOk(tables[t], bags[t], numOtps);
      assert View()[i - 1] == SeedAt(ids, bags, nextTable, i - 1);
      SeedsUse(ids, bags, nextTable, Live(), i, bags[t] - multiset{otp});
      ok := TableCheckOtp(tables[t], otp, bags[t]);
      bags := bags[t := bags[t] - multiset{otp}];
      forall j | 1 <= j <= Live()
        ensures ArrayOk(tables[Back(nextTable, j, |tables|)], bags[Back(nextTable, j, |tables|)], numOtps)
      {
        ghost var u := Back(nextTable, j, |tables|);
        assert old(ArrayOk(tables[u], bags[u], numOtps));
      }
    }
  }

  // ---- the generator ----

  /** OTPCalculator_Generate with shuffling: the passwords in an order that the random numbers `draw` decide. */
  method Shuffle(data: array<nat>, draw: nat -> nat)
    modifies data
    ensures multiset(data[..]) == multiset(old(data[..]))
  {
    var i := 0;
    while i < data.Length
      invariant 0 <= i <= data.Length && multiset(data[..]) == multiset(old(data[..]))
      decreases data.Length - i
    {
      var j := 0;
      ghost var i0 := i;
      while j < 256 && i < data.Length
        invariant 0 <= i <= data.Length && i == i0 + j && j <= 256 && multiset(data[..]) == multiset(old(data[..]))
        decreases data.Length - i
      {
        var newIndex := i + draw(i) % (data.Length - i);
        var temp := data[i];
        data[i] := data[newIndex];
        data[newIndex] := temp;
        i, j := i + 1, j + 1;
      }
    }
  }

  class OTPGenerator {
    const numOtps: nat
    var otps: seq<nat>
    var position: nat

    ghost predicate Valid()
      reads this
    {
      position <= |otps| == numOtps
    }

    /** The passwords not handed out yet. */
    ghost function Remaining(): seq<nat>
      requires Valid()
      reads this
    {
      otps[position..]
    }

    constructor (numOtps: nat)
      ensures Valid() && this.numOtps == numOtps && Remaining() == []
    {
      this.numOtps := numOtps;
      otps, position := seq(numOtps, _ => 0), numOtps;
    }

    /** The passwords of a new seed, in some order, replace what was left. */
    method WorkDone(data: array<nat>, draw: nat -> nat)
      requires Valid() && data.Length == numOtps
      modifies this, data
      ensures Valid() && multiset(Remaining()) == multiset(old(data[..]))
    {
      Shuffle(data, draw);
      otps, position := data[..], 0;
      assert otps[0..] == otps;
    }

    method Reset()
      requires Valid()
      modifies this`position
      ensures Valid() && Remaining() == []
    {
      position := numOtps;
    }

    method GetOtp() returns (otp: nat)
      requires Valid() && Remaining() != []
      modifies this`position
      ensures Valid() && otp == old(Remaining())[0] && Remaining() == old(Remaining())[1..]
    {
      otp := otps[position];
      position := position + 1;
    }
  }
}
