/**
 * When the assembler gives up a frame that is not finished: with all entries taken, exactly the one taken longest ago
 * makes room; and an entry times out exactly when more than num_frames packets came since its newest chunk. Hence a
 * frame stands until num_frames other entries were taken after its own.
 */
module FragmentEviction {
  import opened Common
  import opened FragmentModel
  import opened FragmentDisassembler
  import opened FragmentEndToEnd

  // ---- one chunk ----

  /** A chunk takes an entry: it is not too long, and its frame has none or one that is timed out. */
  predicate Takes(acfg: Config, m: Model, c: Chunk) {
    c.piece.End() <= acfg.outputMtu && (c.id !in m.frames || TimedOut(acfg, m, c.id))
  }

  /** The entry of another frame that a chunk makes go. */
  ghost predicate Evicts(acfg: Config, m: Model, c: Chunk, x: FrameId) {
    Takes(acfg, m, c) && c.id !in m.frames && 0 < |m.order| == acfg.numFrames && m.order[0] == x
  }

  lemma LookupOthers(acfg: Config, m: Model, id: FrameId, x: FrameId)
    requires ConfigOk(acfg) && TableOk(acfg, m) && x in m.frames && x != id
    ensures var r := Lookup(acfg, m, id);
      && (x in r.frames <==> !(id !in m.frames && |m.order| == acfg.numFrames && m.order[0] == x))
      && (x in r.frames ==> r.frames[x] == m.frames[x])
  {
    DropKeeps(acfg, m, id);
  }

  lemma ProcessOthers(acfg: Config, m: Model, c: Chunk, x: FrameId)
    requires c.piece.End() <= acfg.outputMtu && x != c.id
    ensures var r, m1 := Lookup(acfg, m, c.id), Process(acfg, m, c).0;
      (x in m1.frames <==> x in r.frames) && (x in m1.frames ==> m1.frames[x] == r.frames[x])
  {
    hide Lookup, Judge;
  }

  /**
   * Of the other frames a chunk makes exactly one go, the one whose entry was taken longest ago, and only if the
   * chunk needs an entry and all are taken; the others stay as they are.
   */
  lemma OthersStand(acfg: Config, m: Model, c: Chunk, x: FrameId)
    requires ConfigOk(acfg) && Inv(acfg, m) && x in m.frames && x != c.id
    ensures var m1 := Process(acfg, m, c).0;
      (x in m1.frames <==> !Evicts(acfg, m, c, x)) && (x in m1.frames ==> m1.frames[x] == m.frames[x])
  {
    hide Lookup, Process, PartialOk;
    if c.piece.End() <= acfg.outputMtu {
      ProcessOthers(acfg, m, c, x);
      LookupOthers(acfg, m, c.id, x);
    } else {
      TooLong(acfg, m, c);
    }
  }

  lemma TooLong(acfg: Config, m: Model, c: Chunk)
    requires c.piece.End() > acfg.outputMtu
    ensures Process(acfg, m, c) == (m, None)
  {
  }

  /** A chunk of a frame that is timed out finds it as if nothing of it had come. */
  lemma TimedOutStartsOver(acfg: Config, m: Model, c: Chunk)
    requires ConfigOk(acfg) && Inv(acfg, m) && c.id in m.frames && TimedOut(acfg, m, c.id)
    requires c.piece.End() <= acfg.outputMtu
    ensures Process(acfg, m, c) == Process(acfg, Drop(m, c.id), c)
  {
    hide Judge, PartialOk;
  }

  /** While an entry is free no chunk makes another frame go. */
  lemma RoomForAll(acfg: Config, m: Model, c: Chunk, x: FrameId)
    requires ConfigOk(acfg) && Inv(acfg, m) && |m.frames.Keys| < acfg.numFrames && x in m.frames && x != c.id
    ensures x in Process(acfg, m, c).0.frames && Process(acfg, m, c).0.frames[x] == m.frames[x]
  {
    hide Process;
    OrderSize(acfg, m);
    OthersStand(acfg, m, c, x);
  }

  lemma OrderSize(acfg: Config, m: Model)
    requires TableOk(acfg, m)
    ensures |m.order| <= |m.frames.Keys|
  {
    NoDupLength(m.order, m.frames.Keys);
  }

  // ---- the end of a packet ----

  /** Ending a packet gives up exactly the frames that are timed out, and only when the clock is renormalised. */
  lemma PurgeExact(acfg: Config, m: Model, purge: bool, x: FrameId)
    requires x in m.frames
    ensures var m1 := EndPacket(acfg, m, purge);
      && (x in m1.frames <==> !(purge && TimedOut(acfg, m, x)))
      && (x in m1.frames ==> m1.frames[x] == m.frames[x]) && m1.now == m.now + 1
  {
  }

  // ---- how far an entry is from going ----

  /** The entries taken after that of `id`. */
  function Behind(order: seq<FrameId>, id: FrameId): nat {
    if order == [] then 0 else if order[0] == id then |order| - 1 else Behind(order[1..], id)
  }

  lemma {:induction false} BehindWithout(order: seq<FrameId>, id: FrameId, y: FrameId)
    requires y != id && NoDup(order)
    ensures Behind(Without(order, y), id) <= Behind(order, id)
    decreases |order|
  {
    if order != [] {
      WithoutNoDup(order, y);
      BehindWithout(order[1..], id, y);
      if order[0] == y {
        WithoutFirst(order);
      }
    }
  }

  lemma {:induction false} BehindAppend(order: seq<FrameId>, id: FrameId, y: FrameId)
    requires id in order
    ensures Behind(order + [y], id) == Behind(order, id) + 1
    decreases |order|
  {
    if order[0] != id {
      assert (order + [y])[1..] == order[1..] + [y];
      BehindAppend(order[1..], id, y);
    }
  }

  lemma {:induction false} BehindSelect(order: seq<FrameId>, id: FrameId, keep: set<FrameId>)
    requires id in keep
    ensures Behind(Select(order, keep), id) <= Behind(order, id)
    decreases |order|
  {
    if order != [] {
      BehindSelect(order[1..], id, keep);
      SelectShorter(order[1..], keep);
      if order[0] in keep {
        assert Select(order, keep)[1..] == Select(order[1..], keep);
      }
    }
  }

  lemma {:induction false} SelectShorter(order: seq<FrameId>, keep: set<FrameId>)
    ensures |Select(order, keep)| <= |order|
    decreases |order|
  {
    if order != [] {
      SelectShorter(order[1..], keep);
    }
  }

  /** The oldest entry of a full table has all others behind it. */
  lemma OldestBehind(order: seq<FrameId>)
    requires order != []
    ensures Behind(order, order[0]) == |order| - 1
  {
  }

  lemma LookupOrder(acfg: Config, m: Model, y: FrameId, id: FrameId)
    requires ConfigOk(acfg) && TableOk(acfg, m) && id in m.frames && id != y && id in Lookup(acfg, m, y).frames
    ensures id in Lookup(acfg, m, y).order
    ensures Behind(Lookup(acfg, m, y).order, id)
         <= Behind(m.order, id) + if y !in m.frames || TimedOut(acfg, m, y) then 1 else 0
  {
    assert id in m.order;
    if y !in m.frames {
      if |m.order| >= acfg.numFrames {
        var first := m.order[0];
        assert first != id;
        BehindWithout(m.order, id, first);
        BehindAppend(Without(m.order, first), id, y);
      } else {
        BehindAppend(m.order, id, y);
      }
    } else if TimedOut(acfg, m, y) {
      DropKeeps(acfg, m, y);
      BehindWithout(m.order, id, y);
      assert |Without(m.order, y)| < acfg.numFrames;
      BehindAppend(Without(m.order, y), id, y);
    }
  }

  /** A chunk of another frame takes at most one entry behind, and makes this one go only as the last of num_frames. */
  lemma OtherArrives(acfg: Config, m: Model, c: Chunk, id: FrameId, k: nat)
    requires ConfigOk(acfg) && Inv(acfg, m) && id in m.frames && id != c.id && Behind(m.order, id) <= k
    requires k + (if Takes(acfg, m, c) then 1 else 0) < acfg.numFrames
    ensures var m1 := Process(acfg, m, c).0;
      && id in m1.frames && m1.frames[id] == m.frames[id] && m1.now == m.now
      && Behind(m1.order, id) <= k + if Takes(acfg, m, c) then 1 else 0
  {
    hide Process, Lookup, PartialOk;
    OthersStand(acfg, m, c, id);
    if m.order != [] {
      OldestBehind(m.order);
    }
    if c.piece.End() <= acfg.outputMtu {
      ProcessOthers(acfg, m, c, id);
      LookupOrder(acfg, m, c.id, id);
      LookupKeeps(acfg, m, c.id);
      ProcessOrder(acfg, m, c, id);
    } else {
      TooLong(acfg, m, c);
    }
  }

  lemma ProcessOrder(acfg: Config, m: Model, c: Chunk, id: FrameId)
    requires c.piece.End() <= acfg.outputMtu && id != c.id && NoDup(Lookup(acfg, m, c.id).order)
    requires Lookup(acfg, m, c.id).now == m.now
    ensures Behind(Process(acfg, m, c).0.order, id) <= Behind(Lookup(acfg, m, c.id).order, id)
    ensures Process(acfg, m, c).0.now == m.now
  {
    hide Lookup, Judge;
    BehindWithout(Lookup(acfg, m, c.id).order, id, c.id);
  }

  // ---- runs ----

  /** Whether traffic takes an entry for another frame. */
  predicate TakesOther(acfg: Config, m: Model, id: FrameId, t: Traffic) {
    t.Arrive? && t.c.id != id && Takes(acfg, m, t.c)
  }

  /** A chunk of the frame itself that is not too long. */
  predicate Own(acfg: Config, id: FrameId, t: Traffic) {
    For(id, t) && t.c.piece.End() <= acfg.outputMtu
  }

  /**
   * Counted along the traffic: since the entry of `id` was taken, fewer than num_frames others are (`others`); and
   * since its newest chunk, no more than num_frames packets ended (`age`) when another chunk of it comes or entries
   * are purged.
   */
  ghost predicate Counted(acfg: Config, m: Model, id: FrameId, ts: seq<Traffic>, others: nat, age: nat)
    decreases |ts|
  {
    ts != [] ==>
      var t, n := ts[0], OthersNext(acfg, m, id, ts[0], others);
      && (id in m.frames ==> n < acfg.numFrames && (For(id, t) || t == Tick(true) ==> age <= acfg.numFrames))
      && Counted(acfg, Feed(acfg, m, t), id, ts[1..], n, AgeNext(acfg, id, t, age))
  }

  function OthersNext(acfg: Config, m: Model, id: FrameId, t: Traffic, others: nat): nat {
    if Own(acfg, id, t) && id !in m.frames then 0 else if TakesOther(acfg, m, id, t) then others + 1 else others
  }

  function AgeNext(acfg: Config, id: FrameId, t: Traffic, age: nat): nat {
    if Own(acfg, id, t) then 0 else if t.Tick? then age + 1 else age
  }

  /** The counts are true of the table. */
  ghost predicate Counts(m: Model, id: FrameId, others: nat, age: nat) {
    id in m.frames ==> Behind(m.order, id) <= others && m.frames[id].stamp <= m.now && m.now - m.frames[id].stamp == age
  }

  lemma FeedKeepsInv(acfg: Config, m: Model, t: Traffic)
    requires ConfigOk(acfg) && Inv(acfg, m)
    ensures Inv(acfg, Feed(acfg, m, t))
  {
    hide Inv, Process, EndPacket;
    match t {
      case Arrive(c) => ProcessKeepsInv(acfg, m, c);
      case Tick(purge) => EndPacketKeepsInv(acfg, m, purge);
    }
  }

  lemma TickCounts(acfg: Config, m: Model, id: FrameId, purge: bool, others: nat, age: nat)
    requires Inv(acfg, m) && Counts(m, id, others, age)
    requires id in m.frames && purge ==> age <= acfg.numFrames
    ensures var m1 := EndPacket(acfg, m, purge);
      && Counts(m1, id, others, age + 1) && (id in m.frames ==> id in m1.frames && m1.frames[id] == m.frames[id])
  {
    if id in m.frames {
      PurgeExact(acfg, m, purge, id);
      if purge {
        BehindSelect(m.order, id, Alive(acfg, m));
      }
    }
  }

  /** A chunk of the frame itself: its entry is the newest, or stays where it was; it is as new as the chunk. */
  lemma OwnCounts(acfg: Config, m: Model, c: Chunk, others: nat, age: nat)
    requires ConfigOk(acfg) && Inv(acfg, m) && Counts(m, c.id, others, age)
    requires c.id in m.frames ==> !TimedOut(acfg, m, c.id)
    requires c.piece.End() <= acfg.outputMtu
    ensures Counts(Process(acfg, m, c).0, c.id, if c.id in m.frames then others else 0, 0)
  {
    hide Judge, PartialOk;
    LookupKeeps(acfg, m, c.id);
    if c.id !in m.frames {
      NewestBehind(Lookup(acfg, m, c.id).order, c.id);
    }
  }

  lemma NewestBehind(order: seq<FrameId>, id: FrameId)
    requires order != [] && order[|order| - 1] == id && NoDup(order)
    ensures Behind(order, id) == 0
    decreases |order|
  {
    if |order| > 1 {
      assert order[0] != id;
      NewestBehind(order[1..], id);
    }
  }

  lemma CountsAge(acfg: Config, m: Model, id: FrameId, others: nat, age: nat)
    requires Counts(m, id, others, age) && id in m.frames
    ensures TimedOut(acfg, m, id) <==> age > acfg.numFrames
  {
  }

  /** One piece of traffic: the counts stay true, and other frames' traffic leaves the entry as it is. */
  lemma CountsNext(acfg: Config, m: Model, id: FrameId, t: Traffic, others: nat, age: nat)
    requires ConfigOk(acfg) && Inv(acfg, m) && Counts(m, id, others, age)
    requires id in m.frames ==> OthersNext(acfg, m, id, t, others) < acfg.numFrames
    requires id in m.frames && (For(id, t) || t == Tick(true)) ==> age <= acfg.numFrames
    ensures var m1 := Feed(acfg, m, t);
      && Counts(m1, id, OthersNext(acfg, m, id, t, others), AgeNext(acfg, id, t, age))
      && (id in m.frames && !For(id, t) ==> id in m1.frames && m1.frames[id] == m.frames[id])
  {
    hide Inv, Process, EndPacket;
    if id in m.frames {
      CountsAge(acfg, m, id, others, age);
    }
    match t {
      case Tick(purge) =>
        TickCounts(acfg, m, id, purge, others, age);
      case Arrive(c) =>
        if c.piece.End() > acfg.outputMtu {
          TooLong(acfg, m, c);
        } else if c.id == id {
          OwnCounts(acfg, m, c, others, age);
        } else if id in m.frames {
          OtherArrives(acfg, m, c, id, others);
        } else {
          OthersDoNotAdd(acfg, m, id, t);
        }
    }
  }

  /** What can be counted keeps the frame's entry: nobody else's traffic makes it go, and it does not time out. */
  lemma {:induction false} CountedUndisturbed(acfg: Config, m: Model, id: FrameId, ts: seq<Traffic>, others: nat,
                                              age: nat)
    requires ConfigOk(acfg) && Inv(acfg, m) && Counts(m, id, others, age) && Counted(acfg, m, id, ts, others, age)
    ensures Undisturbed(acfg, m, id, ts)
    decreases |ts|
  {
    hide Inv, Feed, Counts, OthersNext, AgeNext, TimedOut;
    if ts != [] {
      var t := ts[0];
      FeedKeepsInv(acfg, m, t);
      CountsNext(acfg, m, id, t, others, age);
      if id in m.frames {
        CountsAge(acfg, m, id, others, age);
      }
      CountedUndisturbed(acfg, Feed(acfg, m, t), id, ts[1..], OthersNext(acfg, m, id, t, others),
        AgeNext(acfg, id, t, age));
    }
  }

  /**
   * A frame whose chunks arrive in any order, among any other traffic, is delivered exactly once, with its last
   * chunk, if fewer than num_frames other entries are taken after its own and no more than num_frames packets part
   * its chunks.
   */
  lemma AnyOrderCounted(acfg: Config, m: Model, id: FrameId, frame: seq<Byte>, qs: seq<Piece>, ts: seq<Traffic>)
    requires ConfigOk(acfg) && Inv(acfg, m) && id !in m.frames
    requires IsSplit(frame, qs) && |qs| <= acfg.numChunks && |frame| <= acfg.outputMtu
    requires PiecesFor(id, ts) <= qs && Counted(acfg, m, id, ts, 0, 0)
    ensures FramesFor(acfg, m, id, ts) == if qs != [] && PiecesFor(id, ts) == qs then [frame] else []
  {
    hide Inv, IsSplit, FramesFor, PiecesFor, Counted, Undisturbed;
    CountedUndisturbed(acfg, m, id, ts, 0, 0);
    assert qs[0..] == qs;
    AnyOrder(acfg, m, id, frame, qs, 0, ts);
  }

  /**
   * Counted on the traffic alone: every chunk of another frame may take an entry, so fewer than num_frames of them
   * come, and no more than num_frames packets end between two chunks of the frame or before a purge.
   */
  predicate Sparse(acfg: Config, id: FrameId, ts: seq<Traffic>, others: nat, age: nat)
    decreases |ts|
  {
    ts != [] ==>
      var t := ts[0];
      var n := if t.Arrive? && t.c.id != id then others + 1 else others;
      && n < acfg.numFrames && (For(id, t) || t == Tick(true) ==> age <= acfg.numFrames)
      && Sparse(acfg, id, ts[1..], n, AgeNext(acfg, id, t, age))
  }

  lemma {:induction false} SparseCounted(acfg: Config, m: Model, id: FrameId, ts: seq<Traffic>, counted: nat,
                                         others: nat, age: nat)
    requires Sparse(acfg, id, ts, others, age) && counted <= others
    ensures Counted(acfg, m, id, ts, counted, age)
    decreases |ts|
  {
    hide Feed, Takes, AgeNext;
    if ts != [] {
      var t := ts[0];
      var n := if t.Arrive? && t.c.id != id then others + 1 else others;
      SparseCounted(acfg, Feed(acfg, m, t), id, ts[1..], OthersNext(acfg, m, id, t, counted), n,
        AgeNext(acfg, id, t, age));
    }
  }

  /** A frame as the sender cuts it, its chunks in any order among sparse traffic, is delivered exactly once. */
  lemma SentFrameRebuildsSparse(cfg: SendConfig, acfg: Config, m: Model, id: FrameId, frame: seq<Byte>, outUsed: nat,
                                qs: seq<Piece>, ts: seq<Traffic>)
    requires SendConfigOk(cfg) && cfg.chunkMtu < 0 && |frame| <= cfg.inputMtu <= acfg.outputMtu
    requires OutAvail(cfg, outUsed) > 0 && acfg.numChunks >= MaxChunksForFrame(cfg.outputMtu, cfg.inputMtu)
    requires multiset(qs) == multiset(Split(cfg, frame, 0, outUsed))
    requires ConfigOk(acfg) && Inv(acfg, m) && id !in m.frames && PiecesFor(id, ts) == qs && Sparse(acfg, id, ts, 0, 0)
    ensures FramesFor(acfg, m, id, ts) == [frame]
  {
    hide Inv, Sparse, FramesFor, PiecesFor, Counted, Undisturbed, Split;
    SparseCounted(acfg, m, id, ts, 0, 0, 0);
    CountedUndisturbed(acfg, m, id, ts, 0, 0);
    SentFrameRebuilds(cfg, acfg, m, id, frame, outUsed, qs, ts);
  }
}
