/**
 * The assembler of client/FragmentProtoAssembler.c: a pool of frame entries on a free and a used list, an index
 * from frame id to used entry, per-frame counters and byte buffer, and a 32-bit packet clock that is renormalised
 * before it can wrap. Every operation is proved to do what the reference reassembler of `FragmentModel` does.
 */
module FragmentAssembler {
  import opened Common
  import opened FragmentModel

  /** Times are uint32_t in the source; the subset type makes every addition and subtraction prove it cannot wrap. */
  type Time = x: int | 0 <= x < TWO_32

  const MAX_TIME: Time := TWO_32 - 1

  datatype Extent = Extent(start: nat, len: nat)

  datatype Frame = Frame(id: FrameId, time: Time, chunks: seq<Extent>, sum: int, length: int, lengthSoFar: int,
                         buffer: seq<Byte>)

  predicate ChunksOverlap(c1Start: int, c1Len: int, c2Start: int, c2Len: int) {
    c1Start + c1Len > c2Start && c2Start + c2Len > c1Start
  }

  // ---- how the representation stands for the reference model ----

  /** The index holds exactly the used entries, each under its own id. */
  ghost predicate Index(fs: seq<Frame>, used: seq<nat>, tree: map<FrameId, nat>) {
    && Below(used, |fs|)
    && (forall k :: 0 <= k < |used| ==> fs[used[k]].id in tree && tree[fs[used[k]].id] == used[k])
    && (forall id :: id in tree ==> tree[id] in used && fs[tree[id]].id == id)
  }

  function MaxEnd(ps: seq<Piece>): nat {
    if ps == [] then 0 else Max(MaxEnd(ps[..|ps| - 1]), ps[|ps| - 1].End())
  }

  /** Entry `f` stands for the pieces of `p`: same extents, right counters, right bytes, same age. */
  ghost predicate Stands(f: Frame, p: Partial, time: Time, now: nat, mtu: nat) {
    && f.time <= time && p.stamp <= now && time - f.time == now - p.stamp
    && |f.chunks| == |p.pieces|
    && (forall i :: 0 <= i < |f.chunks| ==> f.chunks[i] == Extent(p.pieces[i].start, |p.pieces[i].data|))
    && f.sum == Sum(p.pieces)
    && f.length == Length(p.pieces)
    && (f.length < 0 ==> f.lengthSoFar == MaxEnd(p.pieces))
    && |f.buffer| == mtu
    && (forall k :: 0 <= k < mtu && Covered(p.pieces, k) ==> f.buffer[k] == ByteAt(p.pieces, k))
  }

  ghost function Ids(fs: seq<Frame>, used: seq<nat>): seq<FrameId>
    requires Below(used, |fs|)
  {
    if used == [] then [] else [fs[used[0]].id] + Ids(fs, used[1..])
  }

  ghost predicate Represents(fs: seq<Frame>, used: seq<nat>, tree: map<FrameId, nat>, time: Time, mtu: nat, m: Model) {
    && Index(fs, used, tree)
    && m.order == Ids(fs, used)
    && m.frames.Keys == tree.Keys
    && forall id :: id in tree ==> Stands(fs[tree[id]], m.frames[id], time, m.now, mtu)
  }

  lemma {:induction false} IdsAt(fs: seq<Frame>, used: seq<nat>, k: nat)
    requires Below(used, |fs|)
    requires k < |used|
    ensures |Ids(fs, used)| == |used| && Ids(fs, used)[k] == fs[used[k]].id
    decreases |used|
  {
    if |used| > 1 {
      IdsAt(fs, used[1..], if k > 0 then k - 1 else 0);
    }
  }

  lemma {:induction false} IdsAppend(fs: seq<Frame>, used: seq<nat>, i: nat)
    requires Below(used, |fs|) && i < |fs|
    ensures Ids(fs, used + [i]) == Ids(fs, used) + [fs[i].id]
    decreases |used|
  {
    if used == [] {
      assert used + [i] == [i];
    } else {
      var t := used + [i];
      assert t[0] == used[0] && t[1..] == used[1..] + [i];
      IdsAppend(fs, used[1..], i);
    }
  }

  /** Unlinking an entry unlinks its id, because ids of used entries are distinct. */
  lemma {:induction false} IdsWithout(fs: seq<Frame>, used: seq<nat>, i: nat)
    requires i < |fs| && Below(used, |fs|)
    requires forall k :: 0 <= k < |used| && fs[used[k]].id == fs[i].id ==> used[k] == i
    ensures Below(Without(used, i), |fs|)
    ensures Ids(fs, Without(used, i)) == Without(Ids(fs, used), fs[i].id)
    decreases |used|
  {
    if used != [] {
      IdsWithout(fs, used[1..], i);
      var id, tail := fs[used[0]].id, Ids(fs, used[1..]);
      assert Ids(fs, used) == [id] + tail && ([id] + tail)[1..] == tail;
      if used[0] != i {
        var r := Without(used, i);
        assert r == [used[0]] + Without(used[1..], i) && r[1..] == Without(used[1..], i);
      }
    }
  }

  lemma {:induction false} IdsUnchanged(fs: seq<Frame>, gs: seq<Frame>, used: seq<nat>)
    requires |fs| == |gs| && Below(used, |fs|)
    requires forall k :: 0 <= k < |used| ==> fs[used[k]].id == gs[used[k]].id
    ensures Ids(fs, used) == Ids(gs, used)
    decreases |used|
  {
    if used != [] {
      IdsUnchanged(fs, gs, used[1..]);
    }
  }

  lemma FreeIndex(fs: seq<Frame>, used: seq<nat>, tree: map<FrameId, nat>, i: nat)
    requires Index(fs, used, tree) && i in used
    ensures i < |fs| && Index(fs, Without(used, i), tree - {fs[i].id})
    ensures Ids(fs, Without(used, i)) == Without(Ids(fs, used), fs[i].id)
  {
    IdsWithout(fs, used, i);
    var used', tree' := Without(used, i), tree - {fs[i].id};
    forall k | 0 <= k < |used'| ensures fs[used'[k]].id in tree' && tree'[fs[used'[k]].id] == used'[k] {
      assert used'[k] in used' && used'[k] in used;
    }
  }

  lemma FreeRepresents(n: nat, fs: seq<Frame>, free: seq<nat>, used: seq<nat>, tree: map<FrameId, nat>,
                       time: Time, mtu: nat, m: Model, i: nat)
    requires |fs| == n && Pool(n, free, used) && Represents(fs, used, tree, time, mtu, m) && i in used
    ensures i < n && Pool(n, free + [i], Without(used, i))
    ensures Represents(fs, Without(used, i), tree - {fs[i].id}, time, mtu, Drop(m, fs[i].id))
  {
    hide Pool, Stands, Ids, Without;
    FreePool(n, free, used, i);
    FreeIndex(fs, used, tree, i);
  }

  lemma TakeIndex(n: nat, fs: seq<Frame>, free: seq<nat>, used: seq<nat>, tree: map<FrameId, nat>, f: Frame)
    requires |fs| == n && Pool(n, free, used) && Index(fs, used, tree) && free != [] && f.id !in tree
    ensures var i := free[0];
      && Index(fs[i := f], used + [i], tree[f.id := i])
      && Ids(fs[i := f], used + [i]) == Ids(fs, used) + [f.id]
  {
    var i := free[0];
    var fs', used' := fs[i := f], used + [i];
    forall k | 0 <= k < |used| ensures used[k] != i {
      assert used[k] in used;
    }
    IdsUnchanged(fs, fs', used);
    IdsAppend(fs', used, i);
    assert used'[|used|] == i;
    forall id | id in tree ensures tree[id] in used' {
      assert tree[id] in used;
    }
  }

  lemma TakeRepresents(n: nat, fs: seq<Frame>, free: seq<nat>, used: seq<nat>, tree: map<FrameId, nat>,
                       time: Time, mtu: nat, m: Model, f: Frame)
    requires |fs| == n && Pool(n, free, used) && Represents(fs, used, tree, time, mtu, m)
    requires free != [] && f.id !in tree && Stands(f, Partial(m.now, []), time, m.now, mtu)
    ensures var i := free[0];
      && Pool(n, Without(free, i), used + [i])
      && Represents(fs[i := f], used + [i], tree[f.id := i], time, mtu,
           Model(m.now, m.frames[f.id := Partial(m.now, [])], m.order + [f.id]))
  {
    hide Pool, Stands, Ids, Index;
    TakePool(n, free, used);
    TakeIndex(n, fs, free, used, tree, f);
    FreeUnused(n, free, used);
    TreeUsed(fs, used, tree);
    var i := free[0];
    forall id | id in tree ensures tree[id] < |fs| && tree[id] != i {
      assert tree[id] in used;
    }
  }

  lemma TreeUsed(fs: seq<Frame>, used: seq<nat>, tree: map<FrameId, nat>)
    requires Index(fs, used, tree)
    ensures forall id :: id in tree ==> tree[id] in used && tree[id] < |fs|
  {
  }

  lemma FreeUnused(n: nat, free: seq<nat>, used: seq<nat>)
    requires Pool(n, free, used) && free != []
    ensures free[0] < n && free[0] !in used
  {
  }

  /** An entry just taken stands for no pieces. */
  lemma FreshStands(id: FrameId, time: Time, buffer: seq<Byte>, now: nat, mtu: nat)
    requires |buffer| == mtu
    ensures Stands(Frame(id, time, [], 0, -1, 0, buffer), Partial(now, []), time, now, mtu)
  {
  }

  /** Changing a used entry and the pieces it stands for, in step. */
  lemma UpdateRepresents(fs: seq<Frame>, used: seq<nat>, tree: map<FrameId, nat>, time: Time, mtu: nat, m: Model,
                         i: nat, f: Frame, p: Partial)
    requires Represents(fs, used, tree, time, mtu, m) && i in used && f.id == fs[i].id
    requires Stands(f, p, time, m.now, mtu)
    ensures Represents(fs[i := f], used, tree, time, mtu, m.(frames := m.frames[f.id := p]))
  {
    hide Stands, Ids;
    IdsUnchanged(fs, fs[i := f], used);
  }

  lemma {:induction false} MaxEndFacts(ps: seq<Piece>, e: nat)
    ensures MaxEnd(ps) <= e <==> forall i :: 0 <= i < |ps| ==> ps[i].End() <= e
    decreases |ps|
  {
    if ps != [] {
      var init := ps[..|ps| - 1];
      MaxEndFacts(init, e);
      assert forall i :: 0 <= i < |init| ==> ps[i] == init[i];
    }
  }

  /** The entry after lines 232-256 of the source. */
  function Extended(f: Frame, time: Time, c: Piece): Frame
    requires c.End() <= |f.buffer|
  {
    f.(time := time,
       chunks := f.chunks + [Extent(c.start, |c.data|)],
       sum := f.sum + |c.data|,
       length := if c.last then c.End() else f.length,
       lengthSoFar := if !c.last && f.length < 0 && f.lengthSoFar < c.End() then c.End() else f.lengthSoFar,
       buffer := Splice(f.buffer, c.start, c.data))
  }

  lemma ExtendedStands(f: Frame, p: Partial, time: Time, now: nat, mtu: nat, c: Piece)
    requires Stands(f, p, time, now, mtu) && Accepted(p.pieces, mtu) && Fits(p.pieces, c) && c.End() <= mtu
    ensures Stands(Extended(f, time, c), Partial(now, p.pieces + [c]), time, now, mtu)
  {
    var qs, g := p.pieces + [c], Extended(f, time, c);
    assert qs[..|qs| - 1] == p.pieces;
    forall k | 0 <= k < mtu && Covered(qs, k) ensures g.buffer[k] == ByteAt(qs, k) {
      if !(c.start <= k < c.End()) {
        var i :| 0 <= i < |qs| && Covers(qs[i], k);
        assert Covers(p.pieces[i], k);
        assert Covered(p.pieces, k);
      }
    }
  }

  /** A complete frame's buffer holds the assembled bytes. */
  lemma BufferIsFrame(f: Frame, p: Partial, time: Time, now: nat, mtu: nat)
    requires Stands(f, p, time, now, mtu) && Complete(p.pieces) && f.length <= mtu
    ensures f.buffer[..f.length] == Assemble(p.pieces, Length(p.pieces))
  {
    forall k | 0 <= k < f.length ensures f.buffer[k] == ByteAt(p.pieces, k) {
      assert Covered(p.pieces, k);
    }
  }

  /** The used list entry by entry. */
  lemma UsedFacts(n: nat, fs: seq<Frame>, free: seq<nat>, used: seq<nat>, tree: map<FrameId, nat>, time: Time, mtu: nat,
                  m: Model)
    requires |fs| == n && Pool(n, free, used) && Represents(fs, used, tree, time, mtu, m)
    ensures NoDup(used) && |m.order| == |used|
    ensures forall k :: 0 <= k < |used| ==> used[k] < n && m.order[k] == fs[used[k]].id
  {
    forall k | 0 <= k < |used| ensures used[k] < n && |m.order| == |used| && m.order[k] == fs[used[k]].id {
      IdsAt(fs, used, k);
    }
  }

  lemma EntryFacts(n: nat, fs: seq<Frame>, free: seq<nat>, used: seq<nat>, tree: map<FrameId, nat>, time: Time,
                   mtu: nat, m: Model, i: nat)
    requires |fs| == n && Pool(n, free, used) && Represents(fs, used, tree, time, mtu, m) && i in used
    ensures i < n && fs[i].id in m.frames && fs[i].time <= time
    ensures time - fs[i].time == m.now - m.frames[fs[i].id].stamp
  {
    var k :| 0 <= k < |used| && used[k] == i;
    assert Stands(fs[tree[fs[i].id]], m.frames[fs[i].id], time, m.now, mtu);
  }

  lemma StandsFacts(f: Frame, p: Partial, time: Time, now: nat, mtu: nat)
    requires Stands(f, p, time, now, mtu)
    ensures |f.chunks| == |p.pieces| && f.sum == Sum(p.pieces) && f.length == Length(p.pieces) && |f.buffer| == mtu
  {
  }

  lemma LengthWithin(ps: seq<Piece>, mtu: nat)
    requires Accepted(ps, mtu)
    ensures Length(ps) <= mtu
  {
    LengthNegative(ps);
    if Length(ps) >= 0 {
      var i :| 0 <= i < |ps| && ps[i].last;
      assert ps[i].End() <= mtu;
    }
  }

  /** What the counters of the extended entry say about the pieces it stands for. */
  lemma ExtendedFacts(f: Frame, p: Partial, time: Time, now: nat, mtu: nat, c: Piece)
    requires Stands(f, p, time, now, mtu) && Accepted(p.pieces, mtu) && Fits(p.pieces, c) && c.End() <= mtu
    ensures var g, qs := Extended(f, time, c), p.pieces + [c];
      && |g.chunks| == |qs|
      && (g.length < 0 || g.sum < g.length <==> !Complete(qs))
      && (g.length >= 0 ==> g.sum <= g.length <= |g.buffer|)
      && (Complete(qs) ==> g.length == Length(qs) && g.buffer[..g.length] == Assemble(qs, Length(qs)))
  {
    StandsFacts(f, p, time, now, mtu);
    hide Stands, Accepted, Complete, Fits, Length, Sum, Assemble;
    var g, qs := Extended(f, time, c), p.pieces + [c];
    ExtendedStands(f, p, time, now, mtu, c);
    StandsFacts(g, Partial(now, qs), time, now, mtu);
    AcceptedExtend(p.pieces, c, mtu);
    CountingIsCovering(qs, mtu);
    LengthWithin(qs, mtu);
    if Complete(qs) {
      BufferIsFrame(g, Partial(now, qs), time, now, mtu);
    }
  }

  /** The facts about a represented model that the operations look at. */
  lemma RepresentsFacts(n: nat, fs: seq<Frame>, free: seq<nat>, used: seq<nat>, tree: map<FrameId, nat>, time: Time,
                        mtu: nat, m: Model)
    requires |fs| == n && Pool(n, free, used) && Represents(fs, used, tree, time, mtu, m)
    ensures m.frames.Keys == tree.Keys
    ensures |free| + |m.order| == n && |m.order| == |used|
    ensures used != [] ==> used[0] < n && m.order[0] == fs[used[0]].id
    ensures free != [] ==> free[0] < n
    ensures forall id :: id in tree ==> tree[id] < n && tree[id] in used && fs[tree[id]].id == id
    ensures forall id :: id in tree ==> Stands(fs[tree[id]], m.frames[id], time, m.now, mtu)
  {
    if used != [] {
      IdsAt(fs, used, 0);
    }
  }

  /** Subtracting the same amount from the clock and from every used entry keeps all ages. */
  lemma ShiftRepresents(fs: seq<Frame>, gs: seq<Frame>, used: seq<nat>, tree: map<FrameId, nat>, time: Time,
                        delta: Time, mtu: nat, m: Model)
    requires Represents(fs, used, tree, time, mtu, m) && |gs| == |fs| && delta <= time
    requires forall i :: i in used && i < |fs| ==> delta <= fs[i].time && gs[i] == fs[i].(time := fs[i].time - delta)
    ensures Represents(gs, used, tree, time - delta, mtu, m)
  {
    forall k | 0 <= k < |used| ensures gs[used[k]].id == fs[used[k]].id {
      assert used[k] in used;
    }
    IdsUnchanged(fs, gs, used);
    forall id | id in tree ensures Stands(gs[tree[id]], m.frames[id], time - delta, m.now, mtu) {
      assert tree[id] in used;
      assert Stands(fs[tree[id]], m.frames[id], time, m.now, mtu);
    }
  }

  /** The clock and the packet count advance together. */
  lemma TickRepresents(fs: seq<Frame>, used: seq<nat>, tree: map<FrameId, nat>, time: Time, mtu: nat, m: Model)
    requires Represents(fs, used, tree, time, mtu, m) && time < MAX_TIME
    ensures Represents(fs, used, tree, time + 1, mtu, m.(now := m.now + 1))
  {
    forall id | id in tree ensures Stands(fs[tree[id]], m.frames[id], time + 1, m.now + 1, mtu) {
      assert Stands(fs[tree[id]], m.frames[id], time, m.now, mtu);
    }
  }

  /** With no entry in use any clock will do. */
  lemma EmptyRepresents(fs: seq<Frame>, tree: map<FrameId, nat>, time: Time, mtu: nat, m: Model, time': Time, now': nat)
    requires Represents(fs, [], tree, time, mtu, m)
    ensures Represents(fs, [], tree, time', mtu, m.(now := now'))
  {
  }

  /** The model part of the first loop of reduce_times after it has seen the first `k` used entries. */
  ghost predicate PurgedUpTo(cfg: Config, m0: Model, m: Model, k: nat)
    requires k <= |m0.order|
  {
    && m.now == m0.now
    && m.order == Select(m0.order[..k], Alive(cfg, m0)) + m0.order[k..]
    && (forall id :: id in m.frames <==> id in m0.frames && (id in Alive(cfg, m0) || id !in m0.order[..k]))
    && (forall id :: id in m.frames ==> m.frames[id] == m0.frames[id])
  }

  lemma {:induction false} SelectAppend(s: seq<FrameId>, x: FrameId, keep: set<FrameId>)
    ensures Select(s + [x], keep) == Select(s, keep) + if x in keep then [x] else []
    decreases |s|
  {
    if s == [] {
      assert [x][1..] == [];
    } else {
      SelectAppend(s[1..], x, keep);
      assert (s + [x])[1..] == s[1..] + [x];
    }
  }

  lemma PurgedOrderStep(o: seq<FrameId>, alive: set<FrameId>, k: nat)
    requires NoDup(o) && k < |o|
    ensures var before := Select(o[..k], alive) + o[k..]; var after := Select(o[..k + 1], alive) + o[k + 1..];
      after == if o[k] in alive then before else Without(before, o[k])
  {
    hide Select, Without;
    var id, pre := o[k], Select(o[..k], alive);
    SelectAppend(o[..k], id, alive);
    assert o[..k] + [id] == o[..k + 1];
    if id in alive {
      assert o[k..] == [id] + o[k + 1..];
      assert pre + [id] + o[k + 1..] == pre + ([id] + o[k + 1..]);
    } else {
      SelectFacts(o[..k], alive);
      assert id !in pre;
      WithoutAppend(pre, o[k..], id);
      WithoutAbsent(pre, id);
      WithoutFirst(o[k..]);
      assert o[k..][1..] == o[k + 1..];
      assert pre + [] == pre;
    }
  }

  lemma PurgedStep(cfg: Config, m0: Model, m: Model, k: nat)
    requires TableOk(cfg, m0) && k < |m0.order| && PurgedUpTo(cfg, m0, m, k)
    ensures var id := m0.order[k];
      && id in m.frames && id in m0.frames && m.frames[id] == m0.frames[id] && m.now == m0.now
      && PurgedUpTo(cfg, m0, if id in Alive(cfg, m0) then m else Drop(m, id), k + 1)
  {
    hide Select, Without;
    var id, alive := m0.order[k], Alive(cfg, m0);
    PurgedOrderStep(m0.order, alive, k);
    assert m0.order[..k] + [id] == m0.order[..k + 1];
    assert id !in m0.order[..k];
  }

  lemma PurgedNone(cfg: Config, m: Model)
    ensures PurgedUpTo(cfg, m, m, 0)
  {
    assert m.order[..0] == [] && m.order[0..] == m.order;
  }

  lemma PurgedAll(cfg: Config, m0: Model, m: Model)
    requires TableOk(cfg, m0) && PurgedUpTo(cfg, m0, m, |m0.order|)
    ensures m == Purge(cfg, m0)
  {
    assert m0.order[..|m0.order|] == m0.order;
    assert m.frames == Purge(cfg, m0).frames;
  }

  /** The age test of the source decides whether the next entry is purged. */
  lemma PurgeEntry(cfg: Config, fs: seq<Frame>, free: seq<nat>, used: seq<nat>, tree: map<FrameId, nat>, time: Time,
                   mtu: nat, m0: Model, m: Model, k: nat, i: nat)
    requires |fs| == cfg.numFrames && Pool(cfg.numFrames, free, used) && Represents(fs, used, tree, time, mtu, m)
    requires i in used
    requires TableOk(cfg, m0) && k < |m0.order| && PurgedUpTo(cfg, m0, m, k) && i < |fs| && m0.order[k] == fs[i].id
    ensures fs[i].time <= time
    ensures time - fs[i].time > cfg.numFrames ==> PurgedUpTo(cfg, m0, Drop(m, fs[i].id), k + 1)
    ensures time - fs[i].time <= cfg.numFrames ==> PurgedUpTo(cfg, m0, m, k + 1)
  {
    hide Pool, Represents, TableOk, PurgedUpTo, Drop;
    PurgedStep(cfg, m0, m, k);
    EntryFacts(cfg.numFrames, fs, free, used, tree, time, mtu, m, i);
  }

  /** The first loop of reduce_times after `k` of the `nodes` it walks: `least` bounds the times of those still used. */
  ghost predicate Walked(cfg: Config, fs: seq<Frame>, nodes: seq<nat>, k: nat, used: seq<nat>, time: Time,
                         least: Option<Time>, m0: Model, m: Model) {
    && k <= |nodes| == |m0.order| && NoDup(nodes) && TableOk(cfg, m0)
    && PurgedUpTo(cfg, m0, m, k)
    && (forall j :: 0 <= j < |nodes| ==> nodes[j] < |fs| && m0.order[j] == fs[nodes[j]].id)
    && (forall i :: i in used ==> i in nodes)
    && (forall j :: k <= j < |nodes| ==> nodes[j] in used)
    && (forall j :: 0 <= j < k && nodes[j] in used ==> least.Some? && least.value <= fs[nodes[j]].time)
    && (least.Some? ==> time - least.value <= cfg.numFrames && least.value <= time)
    && (least.Some? ==> exists j :: 0 <= j < k && nodes[j] in used)
  }

  lemma WalkedNone(cfg: Config, fs: seq<Frame>, free: seq<nat>, used: seq<nat>, tree: map<FrameId, nat>, time: Time,
                   mtu: nat, m: Model)
    requires |fs| == cfg.numFrames && Pool(|fs|, free, used) && Represents(fs, used, tree, time, mtu, m)
    requires TableOk(cfg, m)
    ensures Walked(cfg, fs, used, 0, used, time, None, m, m)
  {
    hide Represents, Pool, PurgedUpTo, TableOk;
    UsedFacts(|fs|, fs, free, used, tree, time, mtu, m);
    PurgedNone(cfg, m);
  }

  lemma WalkedNext(cfg: Config, fs: seq<Frame>, free: seq<nat>, nodes: seq<nat>, k: nat, used: seq<nat>,
                   tree: map<FrameId, nat>, time: Time, mtu: nat, least: Option<Time>, m0: Model, m: Model)
    requires |fs| == cfg.numFrames && Pool(|fs|, free, used) && Represents(fs, used, tree, time, mtu, m)
    requires Walked(cfg, fs, nodes, k, used, time, least, m0, m) && k < |nodes|
    ensures nodes[k] in used && nodes[k] < |fs| && fs[nodes[k]].time <= time
    ensures time - fs[nodes[k]].time > cfg.numFrames ==>
      Walked(cfg, fs, nodes, k + 1, Without(used, nodes[k]), time, least, m0, Drop(m, fs[nodes[k]].id))
  {
    hide Represents, Pool, PurgedUpTo, TableOk, Drop;
    var i := nodes[k];
    PurgeEntry(cfg, fs, free, used, tree, time, mtu, m0, m, k, i);
    if least.Some? {
      var j :| 0 <= j < k && nodes[j] in used;
      assert nodes[j] in Without(used, i);
    }
  }

  lemma WalkedKept(cfg: Config, fs: seq<Frame>, free: seq<nat>, nodes: seq<nat>, k: nat, used: seq<nat>,
                   tree: map<FrameId, nat>, time: Time, mtu: nat, least: Option<Time>, m0: Model, m: Model)
    requires |fs| == cfg.numFrames && Pool(|fs|, free, used) && Represents(fs, used, tree, time, mtu, m)
    requires Walked(cfg, fs, nodes, k, used, time, least, m0, m) && k < |nodes| && nodes[k] in used && nodes[k] < |fs|
    requires fs[nodes[k]].time <= time && time - fs[nodes[k]].time <= cfg.numFrames
    ensures least == None || fs[nodes[k]].time < least.value ==>
      Walked(cfg, fs, nodes, k + 1, used, time, Some(fs[nodes[k]].time), m0, m)
    ensures !(least == None || fs[nodes[k]].time < least.value) ==>
              Walked(cfg, fs, nodes, k + 1, used, time, least, m0, m)
  {
    hide Represents, Pool, PurgedUpTo, TableOk, Drop;
    PurgeEntry(cfg, fs, free, used, tree, time, mtu, m0, m, k, nodes[k]);
  }

  lemma WalkedAll(cfg: Config, fs: seq<Frame>, nodes: seq<nat>, used: seq<nat>, time: Time, least: Option<Time>,
                  m0: Model, m: Model)
    requires Walked(cfg, fs, nodes, |nodes|, used, time, least, m0, m)
    ensures m == Purge(cfg, m0)
    ensures least == None <==> used == []
    ensures least.Some? ==> time - least.value <= cfg.numFrames && least.value <= time
    ensures least.Some? ==> forall i :: i in used && i < |fs| ==> least.value <= fs[i].time
  {
    PurgedAll(cfg, m0, m);
    if used != [] {
      assert used[0] in used;
    }
  }

  /** The second loop of reduce_times after `k` used entries. */
  ghost predicate Subtracted(fs: seq<Frame>, gs: seq<Frame>, used: seq<nat>, k: nat, delta: Time) {
    && |gs| == |fs| && NoDup(used) && k <= |used|
    && (forall i :: i in used && i < |fs| ==> delta <= fs[i].time)
    && (forall j :: 0 <= j < |used| ==> used[j] < |fs|)
    && (forall j :: 0 <= j < |used| ==>
          gs[used[j]] == if j < k then fs[used[j]].(time := fs[used[j]].time - delta) else fs[used[j]])
    && (forall i :: 0 <= i < |fs| ==> |gs[i].buffer| == |fs[i].buffer|)
  }

  lemma SubtractedNext(fs: seq<Frame>, gs: seq<Frame>, used: seq<nat>, k: nat, delta: Time)
    requires Subtracted(fs, gs, used, k, delta) && k < |used|
    ensures used[k] < |gs| && delta <= gs[used[k]].time
    ensures Subtracted(fs, gs[used[k] := gs[used[k]].(time := gs[used[k]].time - delta)], used, k + 1, delta)
  {
    assert used[k] in used;
  }

  lemma ParseNothing(rest: seq<Byte>)
    requires rest == [] || ParseChunk(rest) == None
    ensures ParseAll(rest) == []
  {
  }

  lemma InvTable(cfg: Config, m: Model)
    requires Inv(cfg, m)
    ensures TableOk(cfg, m)
  {
  }

  lemma FoundEntry(fs: seq<Frame>, used: seq<nat>, tree: map<FrameId, nat>, time: Time, mtu: nat, m: Model, id: FrameId)
    requires Represents(fs, used, tree, time, mtu, m) && id in tree
    ensures id in m.frames && tree[id] < |fs| && Stands(fs[tree[id]], m.frames[id], time, m.now, mtu)
    ensures |fs[tree[id]].chunks| == |m.frames[id].pieces|
  {
    assert tree[id] in used;
  }

  class Assembler {
    const outputMtu: nat
    const numChunks: nat
    const timeTolerance: nat
    var frames: seq<Frame>
    var time: Time
    var framesFree: seq<nat>
    var framesUsed: seq<nat>
    var tree: map<FrameId, nat>
    var inLen: int
    var input: seq<Byte>
    var inPos: nat
    ghost var model: Model

    ghost function Cfg(): Config {
      Config(outputMtu, timeTolerance, numChunks)
    }

    ghost predicate Coupled()
      reads this
    {
      && ConfigOk(Cfg()) && |frames| == timeTolerance
      && (forall i :: 0 <= i < |frames| ==> |frames[i].buffer| == outputMtu)
      && Pool(|frames|, framesFree, framesUsed)
      && Represents(frames, framesUsed, tree, time, outputMtu, model)
    }

    ghost predicate Valid()
      reads this
    {
      Coupled() && Inv(Cfg(), model) && (inLen == -1 || (inLen == |input| && inPos <= inLen))
    }

    constructor (outputMtu: nat, numFrames: nat, numChunks: nat)
      requires 0 < numFrames < MAX_TIME && 0 < numChunks
      ensures Valid()
      ensures Cfg() == Config(outputMtu, numFrames, numChunks) && model == EmptyModel && inLen == -1
    {
      this.outputMtu, this.numChunks, this.timeTolerance := outputMtu, numChunks, numFrames;
      var blank := Frame(0, 0, [], 0, -1, 0, seq(outputMtu, _ => 0));
      frames := seq(numFrames, _ => blank);
      time := 0;
      framesFree := seq(numFrames, i => i);
      framesUsed, tree := [], map[];
      inLen, input, inPos := -1, [], 0;
      model := EmptyModel;
    }

    method FreeFrame(i: nat)
      requires Coupled() && i in framesUsed && i < |frames|
      modifies this`framesFree, this`framesUsed, this`tree, this`model
      ensures Coupled()
      ensures model == Drop(old(model), frames[i].id)
      ensures framesUsed == old(Without(framesUsed, i)) && framesFree != []
      ensures tree == old(tree) - {frames[i].id}
    {
      hide Pool, Represents;
      FreeRepresents(|frames|, frames, framesFree, framesUsed, tree, time, outputMtu, model, i);
      framesUsed := Without(framesUsed, i);
      tree := tree - {frames[i].id};
      framesFree := framesFree + [i];
      model := Drop(model, frames[i].id);
    }

    method AllocateNewFrame(id: FrameId) returns (i: nat)
      requires Coupled() && id !in tree
      modifies this`framesFree, this`framesUsed, this`tree, this`model, this`frames
      ensures Coupled()
      ensures model == Allocate(Cfg(), old(model), id)
      ensures id in tree && i == tree[id] && i in framesUsed && i < |frames| && frames[i].id == id
    {
      hide Pool, Represents, Stands;
      RepresentsFacts(|frames|, frames, framesFree, framesUsed, tree, time, outputMtu, model);
      if framesFree == [] {
        FreeFrame(framesUsed[0]);
        RepresentsFacts(|frames|, frames, framesFree, framesUsed, tree, time, outputMtu, model);
      }
      i := TakeFrame(id);
    }

    /** The first free entry is set up for an id. */
    method TakeFrame(id: FrameId) returns (i: nat)
      requires Coupled() && id !in tree && framesFree != []
      modifies this`framesFree, this`framesUsed, this`tree, this`model, this`frames
      ensures Coupled()
      ensures model == Model(old(model.now), old(model.frames)[id := Partial(old(model.now), [])],
                             old(model.order) + [id])
      ensures id in tree && i == tree[id] && i in framesUsed && i < |frames| && frames[i].id == id
    {
      hide Pool, Represents, Stands, Without;
      FreeUnused(|frames|, framesFree, framesUsed);
      i := framesFree[0];
      var f := Frame(id, time, [], 0, -1, 0, frames[i].buffer);
      FreshStands(id, time, frames[i].buffer, model.now, outputMtu);
      TakeRepresents(|frames|, frames, framesFree, framesUsed, tree, time, outputMtu, model, f);
      framesFree := Without(framesFree, i);
      frames := frames[i := f];
      framesUsed := framesUsed + [i];
      tree := tree[id := i];
      model := Model(model.now, model.frames[id := Partial(model.now, [])], model.order + [id]);
    }

    predicate FrameIsTimedOut(i: nat)
      requires i < |frames|
      reads this
    {
      time - frames[i].time > timeTolerance
    }

    /** Lines 180-195 of the source: the entry for an id, replacing a timed-out one. */
    method LookupFrame(id: FrameId) returns (i: nat)
      requires Coupled()
      modifies this`framesFree, this`framesUsed, this`tree, this`model, this`frames
      ensures Coupled()
      ensures model == Lookup(Cfg(), old(model), id)
      ensures id in tree && i == tree[id] && i in framesUsed && i < |frames| && frames[i].id == id
    {
      hide Pool, Represents;
      RepresentsFacts(|frames|, frames, framesFree, framesUsed, tree, time, outputMtu, model);
      if id !in tree {
        i := AllocateNewFrame(id);
      } else {
        i := tree[id];
        assert Stands(frames[i], model.frames[id], time, model.now, outputMtu);
        if FrameIsTimedOut(i) {
          FreeFrame(i);
          i := AllocateNewFrame(id);
        }
      }
    }

    /** Lines 199-228 of the source. */
    method ChunkIsGood(f: Frame, c: Piece, ghost p: Partial, ghost time: Time, ghost now: nat, ghost mtu: nat)
        returns (ok: bool)
      requires Stands(f, p, time, now, mtu)
      ensures ok == Fits(p.pieces, c)
    {
      for k := 0 to |f.chunks|
        invariant forall j :: 0 <= j < k ==> !Overlap(p.pieces[j], c)
      {
        if ChunksOverlap(f.chunks[k].start, f.chunks[k].len, c.start, |c.data|) {
          assert Overlap(p.pieces[k], c);
          return false;
        }
      }
      MaxEndFacts(p.pieces, c.End());
      if c.last {
        return !(f.length >= 0) && !(f.lengthSoFar > c.End());
      } else {
        return !(f.length >= 0 && c.End() > f.length);
      }
    }

    /** Lines 230-285 of the source: a good chunk is added to its frame. */
    method AddChunk(i: nat, c: Chunk, ghost p: Partial) returns (out: Option<seq<Byte>>)
      requires Coupled() && c.id in tree && i == tree[c.id] && i in framesUsed && i < |frames| && frames[i].id == c.id
      requires c.id in model.frames && p == model.frames[c.id] && Stands(frames[i], p, time, model.now, outputMtu)
      requires Accepted(p.pieces, outputMtu) && Fits(p.pieces, c.piece) && c.piece.End() <= outputMtu
      modifies this`framesFree, this`framesUsed, this`tree, this`model, this`frames
      ensures Coupled()
      ensures match Judge(Cfg(), p.pieces, c.piece)
        case Reject => model == Drop(old(model), c.id) && out == None
        case Keep(ps) =>
          model == old(model).(frames := old(model).frames[c.id := Partial(old(model).now, ps)]) && out == None
        case Deliver(frame) => model == Drop(old(model), c.id) && out == Some(frame)
    {
      hide Pool, Represents, Accepted, Fits, Complete, Stands, Length, Sum, Assemble;
      ghost var p' := Partial(model.now, p.pieces + [c.piece]);
      ExtendedStands(frames[i], p, time, model.now, outputMtu, c.piece);
      ExtendedFacts(frames[i], p, time, model.now, outputMtu, c.piece);
      var g := Extended(frames[i], time, c.piece);
      UpdateRepresents(frames, framesUsed, tree, time, outputMtu, model, i, g, p');
      ghost var before := model;
      frames := frames[i := g];
      model := model.(frames := model.frames[c.id := p']);
      assert Drop(model, c.id) == Drop(before, c.id);
      if g.length < 0 || g.sum < g.length {
        if |g.chunks| == numChunks {
          FreeFrame(i);
        }
        return None;
      }
      assert g.sum == g.length;
      out := Some(g.buffer[..g.length]);
      FreeFrame(i);
    }

    /** One chunk; a result is the complete frame handed to the output. */
    method ProcessChunk(c: Chunk) returns (out: Option<seq<Byte>>)
      requires Valid()
      modifies this`framesFree, this`framesUsed, this`tree, this`model, this`frames
      ensures Valid()
      ensures (model, out) == Process(Cfg(), old(model), c)
    {
      hide Pool, Represents, Stands, Inv, TableOk, Accepted, Fits, Complete, Lookup, Length, Sum, Assemble;
      if c.piece.start > outputMtu { return None; }
      if |c.piece.data| > outputMtu - c.piece.start { return None; }
      ProcessKeepsInv(Cfg(), model, c);
      LookupKeeps(Cfg(), model, c.id);
      var i := LookupFrame(c.id);
      FoundEntry(frames, framesUsed, tree, time, outputMtu, model, c.id);
      ghost var p := model.frames[c.id];
      assert |frames[i].chunks| < numChunks;
      var ok := ChunkIsGood(frames[i], c.piece, p, time, model.now, outputMtu);
      if ok {
        out := AddChunk(i, c, p);
      } else {
        FreeFrame(i);
        out := None;
      }
    }

    /** The first loop of reduce_times: free the timed-out entries and find the smallest remaining time. */
    method FreeTimedOut() returns (minTime: Option<Time>)
      requires Coupled() && TableOk(Cfg(), model)
      modifies this`framesFree, this`framesUsed, this`tree, this`model
      ensures Coupled() && model == Purge(Cfg(), old(model))
      ensures minTime == None <==> framesUsed == []
      ensures minTime.Some? ==> forall i :: i in framesUsed && i < |frames| ==> minTime.value <= frames[i].time
      ensures minTime.Some? ==> time - minTime.value <= timeTolerance && minTime.value <= time
    {
      hide Pool, Represents, TableOk, Walked, Purge, Without, Drop;
      minTime := None;
      ghost var m0 := model;
      WalkedNone(Cfg(), frames, framesFree, framesUsed, tree, time, outputMtu, model);
      var nodes := framesUsed;
      var k: nat := 0;
      while k < |nodes|
        invariant k <= |nodes| && Coupled() && Walked(Cfg(), frames, nodes, k, framesUsed, time, minTime, m0, model)
      {
        var i := nodes[k];
        WalkedNext(Cfg(), frames, framesFree, nodes, k, framesUsed, tree, time, outputMtu, minTime, m0, model);
        if FrameIsTimedOut(i) {
          FreeFrame(i);
        } else {
          WalkedKept(Cfg(), frames, framesFree, nodes, k, framesUsed, tree, time, outputMtu, minTime, m0, model);
          if minTime == None || frames[i].time < minTime.value {
            minTime := Some(frames[i].time);
          }
        }
        k := k + 1;
      }
      WalkedAll(Cfg(), frames, nodes, framesUsed, time, minTime, m0, model);
    }

    /** The second loop of reduce_times: subtract the smallest time from every used entry. */
    method SubtractTimes(minTime: Time)
      requires Coupled() && minTime <= time
      requires forall i :: i in framesUsed && i < |frames| ==> minTime <= frames[i].time
      modifies this`frames, this`time
      ensures Coupled() && time == old(time) - minTime
    {
      hide Pool, Represents, NoDup;
      UsedFacts(|frames|, frames, framesFree, framesUsed, tree, time, outputMtu, model);
      ghost var fs := frames;
      var k: nat := 0;
      while k < |framesUsed|
        invariant time == old(time) && k <= |framesUsed| && Subtracted(fs, frames, framesUsed, k, minTime)
      {
        var i := framesUsed[k];
        SubtractedNext(fs, frames, framesUsed, k, minTime);
        frames := frames[i := frames[i].(time := frames[i].time - minTime)];
        k := k + 1;
      }
      ShiftRepresents(fs, frames, framesUsed, tree, time, minTime, outputMtu, model);
      time := time - minTime;
    }

    /** Lines 327-341 of the source: the packet clock advances, renormalised first when it stands at its maximum. */
    method AdvanceTime()
      requires Coupled() && TableOk(Cfg(), model)
      modifies this`time, this`frames, this`framesFree, this`framesUsed, this`tree, this`model
      ensures Coupled() && model == EndPacket(Cfg(), old(model), old(time) == MAX_TIME)
      ensures old(time) < MAX_TIME ==> time == old(time) + 1
    {
      hide Pool, Represents, TableOk, Purge;
      if time == MAX_TIME {
        var minTime := FreeTimedOut();
        match minTime {
          case None => time := 0;
          case Some(t) => SubtractTimes(t);
        }
        if framesUsed != [] {
          assert time < MAX_TIME;
          TickRepresents(frames, framesUsed, tree, time, outputMtu, model);
          time := time + 1;
        } else {
          EmptyRepresents(frames, tree, old(time), outputMtu, model, 0, model.now + 1);
          assert time == 0;
        }
      } else {
        TickRepresents(frames, framesUsed, tree, time, outputMtu, model);
        time := time + 1;
      }
      model := model.(now := model.now + 1);
    }

    /** The frames that the rest of the current packet will deliver, and the model after its last chunk. */
    ghost function Outlook(): (Model, seq<seq<Byte>>)
      requires 0 <= inPos <= |input|
      reads this
    {
      ProcessAll(Cfg(), model, ParseAll(input[inPos..]))
    }

    /**
     * Reads chunks until one completes a frame, which is handed to the output (the rest of the packet waits for
     * the output to finish), or until the packet is used up or found malformed.
     */
    method ProcessInput() returns (out: Option<seq<Byte>>)
      requires Valid() && inLen >= 0
      modifies this`time, this`frames, this`framesFree, this`framesUsed, this`tree, this`model, this`inPos, this`inLen
      ensures Valid()
      ensures out.Some? ==> inLen >= 0 && inPos > old(inPos) && time == old(time)
      ensures out.Some? ==> old(Outlook()) == (Outlook().0, [out.value] + Outlook().1)
      ensures out == None ==> inLen == -1 && old(Outlook()).1 == []
      ensures out == None ==> model == EndPacket(Cfg(), old(Outlook()).0, old(time) == MAX_TIME)
    {
      hide Pool, Represents, Inv, Process, EndPacket, ParseChunk;
      while inPos < inLen
        invariant Valid() && inLen >= 0 && time == old(time) && inPos >= old(inPos)
        invariant old(Outlook()) == Outlook()
        decreases inLen - inPos
      {
        var c := ParseChunk(input[inPos..]);
        if c == None { break; }
        ghost var rest := input[inPos..];
        assert ParseAll(rest) == [c.value] + ParseAll(rest[HEADER_LEN + |c.value.piece.data|..]);
        ProcessCons(Cfg(), model, c.value, ParseAll(rest[HEADER_LEN + |c.value.piece.data|..]));
        out := ProcessChunk(c.value);
        inPos := inPos + HEADER_LEN + |c.value.piece.data|;
        assert rest[HEADER_LEN + |c.value.piece.data|..] == input[inPos..];
        if out.Some? { return; }
      }
      out := None;
      ParseNothing(input[inPos..]);
      InvTable(Cfg(), model);
      EndPacketKeepsInv(Cfg(), model, time == MAX_TIME);
      AdvanceTime();
      inLen := -1;
    }

    /** A whole input packet: the send handler, then the output's done handler after each frame handed over. */
    method HandlePacket(data: seq<Byte>) returns (outs: seq<seq<Byte>>)
      requires Valid() && inLen == -1
      modifies this
      ensures Valid() && inLen == -1
      ensures var (m, fs) := ProcessAll(Cfg(), old(model), ParseAll(data));
        outs == fs && model == EndPacket(Cfg(), m, old(time) == MAX_TIME)
    {
      hide Pool, Represents, Inv, ProcessAll, EndPacket;
      inLen, input, inPos := |data|, data, 0;
      assert data[0..] == data;
      outs := [];
      ghost var goal := Outlook();
      var out := ProcessInput();
      assert out.Some? ==> outs + [out.value] + Outlook().1 == [out.value] + Outlook().1;
      while out.Some?
        invariant Valid() && (out.Some? ==> inLen >= 0 && time == old(time))
        invariant out.Some? ==> goal == (Outlook().0, outs + [out.value] + Outlook().1)
        invariant out == None ==> inLen == -1 && goal.1 == outs
        invariant out == None ==> model == EndPacket(Cfg(), goal.0, old(time) == MAX_TIME)
        decreases out.Some?, inLen - inPos
      {
        ghost var before := outs + [out.value];
        outs := outs + [out.value];
        ghost var later := Outlook().1;
        out := ProcessInput();
        if out.Some? {
          assert before + later == before + [out.value] + Outlook().1;
        } else {
          assert before + later == before;
        }
      }
    }
  }
}
