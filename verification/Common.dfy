/** Small shared vocabulary: bytes, little-endian integers, buffer writes and duplicate-free lists. */
module Common {

  datatype Option<+T> = None | Some(value: T)

  type Byte = x: int | 0 <= x < 256

  const TWO_16 := 0x1_0000
  const TWO_32 := 0x1_0000_0000
  const TWO_64 := 0x1_0000_0000_0000_0000

  function Min(a: int, b: int): (r: int)
    ensures r <= a && r <= b && (r == a || r == b)
  {
    if a < b then a else b
  }

  function Max(a: int, b: int): (r: int)
    ensures r >= a && r >= b && (r == a || r == b)
  {
    if a < b then b else a
  }

  // ---- little-endian integers ----

  /** `v` in `n` bytes, least significant first (the source's htol16, htol32 and htol64). */
  function PutLE(v: nat, n: nat): (s: seq<Byte>)
    ensures |s| == n
    decreases n
  {
    if n == 0 then [] else [v % 256] + PutLE(v / 256, n - 1)
  }

  function GetLE(s: seq<Byte>): nat
    decreases |s|
  {
    if s == [] then 0 else s[0] + 256 * GetLE(s[1..])
  }

  function Pow256(n: nat): (r: nat)
    ensures r > 0
  {
    if n == 0 then 1 else 256 * Pow256(n - 1)
  }

  lemma {:induction false} GetPutLE(v: nat, n: nat)
    requires v < Pow256(n)
    ensures GetLE(PutLE(v, n)) == v
    decreases n
  {
    if n > 0 {
      GetPutLE(v / 256, n - 1);
      assert PutLE(v, n)[1..] == PutLE(v / 256, n - 1);
    }
  }

  lemma {:induction false} PutGetLE(s: seq<Byte>)
    ensures GetLE(s) < Pow256(|s|)
    ensures PutLE(GetLE(s), |s|) == s
    decreases |s|
  {
    if s != [] {
      PutGetLE(s[1..]);
      var rest := GetLE(s[1..]);
      assert (s[0] + 256 * rest) / 256 == rest;
      assert (s[0] + 256 * rest) % 256 == s[0];
    }
  }

  lemma Pow256Values()
    ensures Pow256(1) == 256 && Pow256(2) == TWO_16 && Pow256(4) == TWO_32 && Pow256(8) == TWO_64
  {
    assert Pow256(3) == 256 * Pow256(2);
    assert Pow256(4) == 256 * Pow256(3);
    assert Pow256(5) == 256 * Pow256(4);
    assert Pow256(6) == 256 * Pow256(5);
    assert Pow256(7) == 256 * Pow256(6);
  }

  // ---- fixed-size buffers held as sequences ----

  /** `memcpy(buf + off, data, |data|)`. */
  function Splice<T>(buf: seq<T>, off: nat, data: seq<T>): (r: seq<T>)
    requires off + |data| <= |buf|
    ensures |r| == |buf|
    ensures forall k :: 0 <= k < |buf| ==>
      r[k] == if off <= k < off + |data| then data[k - off] else buf[k]
  {
    buf[..off] + data + buf[off + |data|..]
  }

  // ---- linked lists held as duplicate-free sequences ----

  ghost predicate NoDup<T>(s: seq<T>) {
    forall i, j :: 0 <= i < j < |s| ==> s[i] != s[j]
  }

  /** The list after unlinking `x`. */
  function Without<T(==, !new)>(s: seq<T>, x: T): (r: seq<T>)
    ensures forall y :: y in r <==> y in s && y != x
    ensures |r| <= |s|
    decreases |s|
  {
    if s == [] then []
    else if s[0] == x then Without(s[1..], x)
    else [s[0]] + Without(s[1..], x)
  }

  lemma {:induction false} WithoutNoDup<T(!new)>(s: seq<T>, x: T)
    requires NoDup(s)
    ensures NoDup(Without(s, x))
    ensures |Without(s, x)| == if x in s then |s| - 1 else |s|
    decreases |s|
  {
    if s != [] {
      WithoutNoDup(s[1..], x);
      assert s == [s[0]] + s[1..];
      var r := Without(s[1..], x);
      assert s[0] !in s[1..] && s[0] !in r;
      if s[0] != x {
        assert Without(s, x) == [s[0]] + r;
        assert forall j :: 0 <= j < |r| ==> r[j] in r;
      }
    }
  }

  lemma {:induction false} WithoutAbsent<T(!new)>(s: seq<T>, x: T)
    requires x !in s
    ensures Without(s, x) == s
    decreases |s|
  {
    if s != [] {
      WithoutAbsent(s[1..], x);
      assert s == [s[0]] + s[1..];
    }
  }

  lemma {:induction false} WithoutAppend<T(!new)>(s: seq<T>, t: seq<T>, x: T)
    ensures Without(s + t, x) == Without(s, x) + Without(t, x)
    decreases |s|
  {
    if s == [] {
      assert s + t == t;
    } else {
      WithoutAppend(s[1..], t, x);
      var st := s + t;
      assert st[0] == s[0] && st[1..] == s[1..] + t;
      if s[0] == x {
        assert Without(st, x) == Without(st[1..], x);
      } else {
        assert Without(st, x) == [s[0]] + Without(st[1..], x);
        assert Without(st, x) == [s[0]] + Without(s[1..], x) + Without(t, x);
      }
    }
  }

  /** Removing an element that sits at the front of a list is taking the tail. */
  lemma WithoutFirst<T(!new)>(s: seq<T>)
    requires s != [] && NoDup(s)
    ensures Without(s, s[0]) == s[1..]
  {
    WithoutAbsent(s[1..], s[0]);
  }

  /** A duplicate-free list of elements of a finite set is no longer than the set is large. */
  lemma {:induction false} NoDupLength<T>(s: seq<T>, u: set<T>)
    requires NoDup(s)
    requires forall x :: x in s ==> x in u
    ensures |s| <= |u|
    decreases |s|
  {
    if s != [] {
      NoDupLength(s[1..], u - {s[0]});
    }
  }

  // ---- pools of numbered entries on a free and a used list ----

  ghost predicate Below(s: seq<nat>, n: nat) {
    forall k :: 0 <= k < |s| ==> s[k] < n
  }

  /** The free and the used list partition the pool. */
  ghost predicate Pool(n: nat, free: seq<nat>, used: seq<nat>) {
    && NoDup(free) && NoDup(used)
    && |free| + |used| == n
    && Below(free, n) && Below(used, n)
    && (forall i :: i in free ==> i !in used)
  }

  lemma FreePool(n: nat, free: seq<nat>, used: seq<nat>, i: nat)
    requires Pool(n, free, used) && i in used
    ensures Pool(n, free + [i], Without(used, i))
  {
    var free', used' := free + [i], Without(used, i);
    WithoutNoDup(used, i);
    forall k | 0 <= k < |used'| ensures used'[k] < n {
      assert used'[k] in used';
    }
    forall k | 0 <= k < |free| ensures free[k] != i && free[k] !in used' {
      assert free[k] in free;
    }
    forall j | j in free' ensures j !in used' {
      assert j in free || j == i;
    }
  }

  lemma TakePool(n: nat, free: seq<nat>, used: seq<nat>)
    requires Pool(n, free, used) && free != []
    ensures Pool(n, Without(free, free[0]), used + [free[0]])
  {
    var free', used' := Without(free, free[0]), used + [free[0]];
    WithoutNoDup(free, free[0]);
    forall k | 0 <= k < |free'| ensures free'[k] in free {
      assert free'[k] in free';
    }
    forall k | 0 <= k < |used| ensures used[k] != free[0] {
      assert used[k] in used;
    }
  }

  /** The contents of the entries of a list, in list order. */
  ghost function Pick<T>(s: seq<T>, list: seq<nat>): (r: seq<T>)
    requires Below(list, |s|)
    ensures |r| == |list|
    ensures forall k :: 0 <= k < |list| ==> r[k] == s[list[k]]
  {
    if list == [] then [] else [s[list[0]]] + Pick(s, list[1..])
  }

  /** Unlinking an entry unlinks its content, when no other listed entry has the same. */
  lemma {:induction false} PickWithout<T(!new)>(s: seq<T>, list: seq<nat>, i: nat)
    requires Below(list, |s|) && i < |s|
    requires forall k :: 0 <= k < |list| && s[list[k]] == s[i] ==> list[k] == i
    ensures Below(Without(list, i), |s|)
    ensures Pick(s, Without(list, i)) == Without(Pick(s, list), s[i])
    decreases |list|
  {
    if list != [] {
      PickWithout(s, list[1..], i);
      var tail := Pick(s, list[1..]);
      assert Pick(s, list) == [s[list[0]]] + tail && ([s[list[0]]] + tail)[1..] == tail;
      if list[0] != i {
        var r := Without(list, i);
        assert r == [list[0]] + Without(list[1..], i) && r[1..] == Without(list[1..], i);
      }
    }
  }

  lemma PickAppend<T>(s: seq<T>, list: seq<nat>, i: nat)
    requires Below(list, |s|) && i < |s|
    ensures Below(list + [i], |s|) && Pick(s, list + [i]) == Pick(s, list) + [s[i]]
  {
  }

  /** Overwriting an entry that is not listed changes nothing listed. */
  lemma PickUpdate<T>(s: seq<T>, list: seq<nat>, i: nat, x: T)
    requires Below(list, |s|) && i < |s| && i !in list
    ensures Pick(s[i := x], list) == Pick(s, list)
  {
    forall k | 0 <= k < |list| ensures s[i := x][list[k]] == s[list[k]] {
      assert list[k] in list;
    }
  }
}
