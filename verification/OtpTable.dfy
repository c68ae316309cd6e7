/**
 * The table of one-time passwords of security/OTPChecker.c for one seed: a hash table with linear probing, in which an
 * entry counts how often its password may still be used. Seen from outside it is a multiset of passwords.
 */
module OtpTable {
  /** A negative `avail` marks an entry that was never used. */
  datatype Entry = Entry(otp: nat, avail: int)

  predicate Used(e: Entry) { e.avail >= 0 }

  /** The index tried at step `i` of the search for a password: bmodadd_int of the starting index and `i`. */
  function Slot(v: nat, i: nat, n: nat): (j: nat)
    requires n > 0 && i < n
    ensures j < n
  {
    var s := v % n;
    if s + i < n then s + i else s + i - n
  }

  /** The search comes by every index. */
  lemma SlotCovers(v: nat, j: nat, n: nat) returns (i: nat)
    requires j < n
    ensures i < n && Slot(v, i, n) == j
  {
    var s := v % n;
    i := if j >= s then j - s else j - s + n;
  }

  ghost predicate HasAt(es: seq<Entry>, j: nat, v: nat) {
    j < |es| && Used(es[j]) && es[j].otp == v
  }

  /** The search for the password of entry `j` reaches the entry without meeting an unused one. */
  ghost predicate Reached(es: seq<Entry>, j: nat, i: nat)
    requires j < |es|
  {
    i < |es| && Slot(es[j].otp, i, |es|) == j && forall k :: 0 <= k < i ==> Used(es[Slot(es[j].otp, k, |es|)])
  }

  ghost predicate Placed(es: seq<Entry>, j: nat)
    requires j < |es|
  {
    exists i: nat :: Reached(es, j, i)
  }

  /** The entries stand for the multiset `bag`: one entry per password, found by the search, with its count. */
  ghost predicate TableOk(es: seq<Entry>, bag: multiset<nat>) {
    && |es| > 0
    && (forall j, k :: 0 <= j < |es| && 0 <= k < |es| && Used(es[j]) && Used(es[k]) && es[j].otp == es[k].otp ==>
        j == k)
    && (forall j :: 0 <= j < |es| && Used(es[j]) ==> Placed(es, j) && bag[es[j].otp] == es[j].avail)
    && (forall v :: v in bag ==> exists j: nat :: HasAt(es, j, v))
  }

  ghost function UsedAt(es: seq<Entry>): set<nat> {
    set j | 0 <= j < |es| && Used(es[j])
  }

  /** Steps `0` to `i - 1` of the search for `v` met used entries with other passwords. */
  ghost predicate Passed(es: seq<Entry>, v: nat, i: nat) {
    i <= |es| && forall k :: 0 <= k < i ==> Used(es[Slot(v, k, |es|)]) && es[Slot(v, k, |es|)].otp != v
  }

  /** A search that meets an unused entry, or goes all the way round, has shown that the password is not there. */
  lemma NotThere(es: seq<Entry>, bag: multiset<nat>, v: nat, i: nat)
    requires TableOk(es, bag) && Passed(es, v, i) && (i < |es| ==> !Used(es[Slot(v, i, |es|)]))
    ensures bag[v] == 0 && forall j: nat :: !HasAt(es, j, v)
  {
    forall j: nat ensures !HasAt(es, j, v) {
      if HasAt(es, j, v) {
        assert Placed(es, j);
        var m: nat :| Reached(es, j, m);
      }
    }
  }

  /** While some entry is unused the search cannot go all the way round. */
  lemma SomeUnused(es: seq<Entry>, v: nat)
    requires |es| > 0 && |UsedAt(es)| < |es|
    ensures !Passed(es, v, |es|)
  {
    if Passed(es, v, |es|) {
      forall j | 0 <= j < |es| ensures Used(es[j]) {
        var i := SlotCovers(v, j, |es|);
      }
      AllBelow(es);
    }
  }

  lemma {:induction false} AllBelow(es: seq<Entry>)
    requires forall j :: 0 <= j < |es| ==> Used(es[j])
    ensures |UsedAt(es)| == |es|
    decreases |es|
  {
    if es == [] {
      assert UsedAt(es) == {};
    } else {
      var n := |es| - 1;
      AllBelow(es[..n]);
      assert UsedAt(es) == UsedAt(es[..n]) + {n};
    }
  }

  // ---- updates ----

  lemma PlacedStill(es: seq<Entry>, fs: seq<Entry>, j: nat)
    requires |fs| == |es| && j < |es| && Placed(es, j) && fs[j].otp == es[j].otp
    requires forall k :: 0 <= k < |es| && Used(es[k]) ==> Used(fs[k])
    ensures Placed(fs, j)
  {
    var i: nat :| Reached(es, j, i);
    assert Reached(fs, j, i);
  }

  /** Changing the count of a password that is there. */
  lemma Recount(es: seq<Entry>, bag: multiset<nat>, j: nat, n: nat)
    requires TableOk(es, bag) && j < |es| && Used(es[j])
    ensures TableOk(es[j := Entry(es[j].otp, n)], bag[es[j].otp := n])
    ensures UsedAt(es[j := Entry(es[j].otp, n)]) == UsedAt(es)
  {
    var v, fs := es[j].otp, es[j := Entry(es[j].otp, n)];
    var bag1 := bag[v := n];
    forall k | 0 <= k < |fs| && Used(fs[k]) ensures Placed(fs, k) && bag1[fs[k].otp] == fs[k].avail {
      PlacedStill(es, fs, k);
    }
    forall w | w in bag1 ensures exists k: nat :: HasAt(fs, k, w) {
      if w == v {
        assert HasAt(fs, j, v);
      } else {
        var k: nat :| HasAt(es, k, w);
        assert HasAt(fs, k, w);
      }
    }
  }

  /** Taking an unused entry for a password that is not there. */
  lemma TakeEntry(es: seq<Entry>, bag: multiset<nat>, v: nat, i: nat)
    requires TableOk(es, bag) && i < |es| && Passed(es, v, i) && !Used(es[Slot(v, i, |es|)])
    ensures var j := Slot(v, i, |es|);
      && TableOk(es[j := Entry(v, 1)], bag[v := 1]) && bag[v] == 0
      && UsedAt(es[j := Entry(v, 1)]) == UsedAt(es) + {j}
  {
    NotThere(es, bag, v, i);
    var j := Slot(v, i, |es|);
    var fs, bag1 := es[j := Entry(v, 1)], bag[v := 1];
    assert Reached(fs, j, i);
    forall k | 0 <= k < |fs| && Used(fs[k]) ensures Placed(fs, k) && bag1[fs[k].otp] == fs[k].avail {
      if k != j {
        PlacedStill(es, fs, k);
        assert HasAt(es, k, es[k].otp);
      }
    }
    forall k | 0 <= k < |fs| && k != j && Used(fs[k]) ensures fs[k].otp != v {
      assert !HasAt(es, k, v);
    }
    forall w | w in bag1 ensures exists k: nat :: HasAt(fs, k, w) {
      if w == v {
        assert HasAt(fs, j, v);
      } else {
        var k: nat :| HasAt(es, k, w);
        assert HasAt(fs, k, w);
      }
    }
  }

  // ---- what the passwords promise ----

  /** What a table makes of a series of passwords: which ones it accepts. */
  function Accepted(bag: multiset<nat>, vs: seq<nat>): (oks: seq<bool>)
    ensures |oks| == |vs|
    decreases |vs|
  {
    if vs == [] then [] else [vs[0] in bag] + Accepted(bag - multiset{vs[0]}, vs[1..])
  }

  /** A password is accepted exactly as long as it came up less often than it was generated: a replay is refused. */
  lemma {:induction false} AcceptedExactly(bag: multiset<nat>, vs: seq<nat>, i: nat)
    requires i < |vs|
    ensures Accepted(bag, vs)[i] <==> multiset(vs[..i])[vs[i]] < bag[vs[i]]
    decreases |vs|
  {
    if i > 0 {
      AcceptedExactly(bag - multiset{vs[0]}, vs[1..], i - 1);
      assert vs[1..][i - 1] == vs[i] && vs[..i] == [vs[0]] + vs[1..][..i - 1];
      assert multiset(vs[..i]) == multiset{vs[0]} + multiset(vs[1..][..i - 1]);
    } else {
      assert multiset(vs[..0]) == multiset{};
    }
  }

  /** The passwords a seed gives are all accepted, in whatever order they are used, if each is used once. */
  lemma {:induction false} AllAccepted(bag: multiset<nat>, vs: seq<nat>, i: nat)
    requires multiset(vs) <= bag && i < |vs|
    ensures Accepted(bag, vs)[i]
  {
    AcceptedExactly(bag, vs, i);
    assert vs == vs[..i] + [vs[i]] + vs[i + 1..];
    assert multiset(vs) == multiset(vs[..i]) + multiset{vs[i]} + multiset(vs[i + 1..]);
  }
}
