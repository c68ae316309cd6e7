/**
 * The assembler seen one frame id at a time. The disassembler numbers its frames without bound, and the number modulo
 * 2^16 is the id on the wire; here the unbounded number is called the slot of a chunk. As long as an id does not come
 * round to chunks that were left behind under it, the assembler treats every slot as if it were alone, whatever is
 * lost.
 */
module FragmentSlots {
  import opened Common
  import opened FragmentModel

  /** The pieces a chunk of this id would be judged against. */
  function Standing(acfg: Config, m: Model, id: FrameId): seq<Piece> {
    if id in m.frames && !TimedOut(acfg, m, id) then m.frames[id].pieces else []
  }

  /** A chunk is judged by what stands under its id; of the other ids entries may only be given up. */
  lemma ProcessStanding(acfg: Config, m: Model, c: Chunk)
    requires c.piece.End() <= acfg.outputMtu
    ensures var v := Judge(acfg, Standing(acfg, m, c.id), c.piece); var (m1, o) := Process(acfg, m, c);
      && o == (if v.Deliver? then Some(v.frame) else None)
      && (v.Keep? ==> c.id in m1.frames && m1.frames[c.id] == Partial(m.now, v.pieces))
      && (!v.Keep? ==> c.id !in m1.frames)
      && m1.now == m.now
      && forall id :: id in m1.frames && id != c.id ==> id in m.frames && m1.frames[id] == m.frames[id]
  {
    hide Judge;
    var r := Lookup(acfg, m, c.id);
    assert r.frames[c.id].pieces == Standing(acfg, m, c.id) && r.now == m.now;
  }

  // ---- one slot alone ----

  /**
   * What an assembler with only this one frame id does with pieces: those it then holds, and the frames it delivers.
   */
  ghost function Replay(acfg: Config, ps: seq<Piece>): (seq<Piece>, seq<seq<Byte>>) {
    if ps == [] then ([], [])
    else
      var (h, fs) := Replay(acfg, ps[..|ps| - 1]);
      match Judge(acfg, h, ps[|ps| - 1])
      case Reject => ([], fs)
      case Keep(qs) => (qs, fs)
      case Deliver(frame) => ([], fs + [frame])
  }

  lemma ReplayNext(acfg: Config, ps: seq<Piece>, p: Piece)
    ensures var (h, fs) := Replay(acfg, ps);
      Replay(acfg, ps + [p]) == match Judge(acfg, h, p)
                                case Reject => ([], fs)
                                case Keep(qs) => (qs, fs)
                                case Deliver(frame) => ([], fs + [frame])
  {
    hide Judge;
    assert (ps + [p])[..|ps|] == ps;
  }

  // ---- all slots together ----

  /** A chunk that arrived: the number of packets received before its own, its slot, and its piece. */
  datatype Stamped = Stamped(at: nat, slot: nat, piece: Piece)

  /** The pieces of one slot, in the order they arrived. */
  function PiecesIn(hist: seq<Stamped>, s: nat): seq<Piece> {
    if hist == [] then []
    else PiecesIn(hist[..|hist| - 1], s) + if hist[|hist| - 1].slot == s then [hist[|hist| - 1].piece] else []
  }

  lemma PiecesNext(hist: seq<Stamped>, t: Stamped, s: nat)
    ensures t.slot == s ==> PiecesIn(hist + [t], s) == PiecesIn(hist, s) + [t.piece]
    ensures t.slot != s ==> PiecesIn(hist + [t], s) == PiecesIn(hist, s)
  {
    assert (hist + [t])[..|hist|] == hist;
    assert PiecesIn(hist, s) + [] == PiecesIn(hist, s);
  }

  ghost predicate Ordered(hist: seq<Stamped>) {
    forall i, j :: 0 <= i < j < |hist| ==> hist[i].slot <= hist[j].slot
  }

  /** Pieces of the slot are left behind at the assembler. */
  ghost predicate Left(acfg: Config, hist: seq<Stamped>, s: nat) {
    Replay(acfg, PiecesIn(hist, s)).0 != []
  }

  /** An id under which pieces were left behind is not used again until they have timed out. */
  ghost predicate Spaced(acfg: Config, hist: seq<Stamped>) {
    forall i, j :: 0 <= i < j < |hist| && Reused(hist[i].slot, hist[j].slot) && Left(acfg, hist, hist[i].slot) ==>
      hist[j].at - hist[i].at > acfg.numFrames
  }

  /** A later slot with the same id. */
  predicate Reused(a: nat, b: nat) {
    a < b && a % TWO_16 == b % TWO_16
  }

  /** Not as many as 2^16 frames are begun while the receiver sees too few packets to time out an entry. */
  ghost predicate Paced(acfg: Config, hist: seq<Stamped>) {
    forall i, j :: 0 <= i < j < |hist| && hist[j].slot - hist[i].slot >= TWO_16 ==>
      hist[j].at - hist[i].at > acfg.numFrames
  }

  lemma PacedSpaced(acfg: Config, hist: seq<Stamped>)
    requires Paced(acfg, hist)
    ensures Spaced(acfg, hist)
  {
    hide Left;
    forall i, j | 0 <= i < j < |hist| && Reused(hist[i].slot, hist[j].slot)
      ensures hist[j].at - hist[i].at > acfg.numFrames
    {
      ComesRound(hist[i].slot, hist[j].slot);
    }
  }

  /** An id comes round after 2^16 slots. */
  lemma ComesRound(a: nat, b: nat)
    requires Reused(a, b)
    ensures b - a >= TWO_16
  {
  }

  lemma SpacedBefore(acfg: Config, hist: seq<Stamped>, t: Stamped)
    requires Ordered(hist + [t]) && Spaced(acfg, hist + [t])
    ensures Ordered(hist) && Spaced(acfg, hist)
  {
    var h1 := hist + [t];
    forall i, j | 0 <= i < j < |hist| ensures hist[i].slot <= hist[j].slot {
      assert h1[i] == hist[i] && h1[j] == hist[j];
    }
    forall i, j | 0 <= i < j < |hist| && Reused(hist[i].slot, hist[j].slot) && Left(acfg, hist, hist[i].slot)
      ensures hist[j].at - hist[i].at > acfg.numFrames
    {
      assert h1[i] == hist[i] && h1[j] == hist[j];
      assert h1[j].slot <= h1[|hist|].slot;
      PiecesNext(hist, t, hist[i].slot);
      assert Left(acfg, h1, h1[i].slot);
    }
  }

  /** The entry of `id` is that of the slot of `hist[k]`, and no newer than that chunk. */
  ghost predicate OwnedBy(acfg: Config, m: Model, hist: seq<Stamped>, id: FrameId, k: int) {
    && 0 <= k < |hist| && id in m.frames && hist[k].slot % TWO_16 == id
    && m.frames[id].stamp <= hist[k].at
    && Left(acfg, hist, hist[k].slot)
  }

  /** The slot of the chunk that arrived last is held exactly as if it were alone. */
  ghost predicate LatestHeld(acfg: Config, m: Model, hist: seq<Stamped>) {
    hist != [] ==>
      var t := hist[|hist| - 1]; var id := t.slot % TWO_16; var h := Replay(acfg, PiecesIn(hist, t.slot)).0;
      && t.at <= m.now <= t.at + 1
      && (if h == [] then id !in m.frames else id in m.frames && m.frames[id] == Partial(t.at, h))
  }

  /** What the assembler holds after the chunks of `hist`. */
  ghost predicate Isolated(acfg: Config, m: Model, hist: seq<Stamped>) {
    && LatestHeld(acfg, m, hist)
    && forall id :: id in m.frames ==> exists k :: OwnedBy(acfg, m, hist, id, k)
  }

  /** The next chunk finds under its id what its own slot left there, and nothing else. */
  lemma StandingIsOwn(acfg: Config, m: Model, hist: seq<Stamped>, t: Stamped)
    requires ConfigOk(acfg) && Isolated(acfg, m, hist) && t.at == m.now
    requires Ordered(hist + [t]) && Spaced(acfg, hist + [t])
    ensures Standing(acfg, m, t.slot % TWO_16) == Replay(acfg, PiecesIn(hist, t.slot)).0
  {
    hide Replay, PiecesIn, Left, Ordered, Spaced;
    if hist == [] || hist[|hist| - 1].slot != t.slot {
      SlotIsNew(hist, t);
      NoneIn(hist, t.slot);
      ReplayNone(acfg);
      if t.slot % TWO_16 in m.frames {
        var k :| OwnedBy(acfg, m, hist, t.slot % TWO_16, k);
        OldTimesOut(acfg, hist, t, k);
      }
    }
  }

  lemma SlotIsNew(hist: seq<Stamped>, t: Stamped)
    requires Ordered(hist + [t]) && (hist != [] ==> hist[|hist| - 1].slot != t.slot)
    ensures forall i :: 0 <= i < |hist| ==> hist[i].slot < t.slot
  {
    var h1 := hist + [t];
    assert hist != [] ==> h1[|hist| - 1].slot <= h1[|hist|].slot;
    forall i | 0 <= i < |hist| ensures hist[i].slot < t.slot {
      assert h1[i] == hist[i] && (i < |hist| - 1 ==> h1[i].slot <= h1[|hist| - 1].slot);
    }
  }

  lemma OldTimesOut(acfg: Config, hist: seq<Stamped>, t: Stamped, k: nat)
    requires Spaced(acfg, hist + [t]) && k < |hist| && Reused(hist[k].slot, t.slot) && Left(acfg, hist, hist[k].slot)
    ensures t.at - hist[k].at > acfg.numFrames
  {
    hide Replay, PiecesIn;
    var h1 := hist + [t];
    PiecesNext(hist, t, hist[k].slot);
    assert h1[k] == hist[k] && h1[|hist|] == t;
    assert Left(acfg, h1, h1[k].slot);
  }

  lemma ReplayNone(acfg: Config)
    ensures Replay(acfg, []) == ([], [])
  {
  }

  lemma {:induction false} NoneIn(hist: seq<Stamped>, s: nat)
    requires forall i :: 0 <= i < |hist| ==> hist[i].slot != s
    ensures PiecesIn(hist, s) == []
    decreases |hist|
  {
    if hist != [] {
      NoneIn(hist[..|hist| - 1], s);
    }
  }

  /** One chunk arrives. */
  lemma ArriveOne(acfg: Config, m: Model, hist: seq<Stamped>, t: Stamped)
    requires ConfigOk(acfg) && Isolated(acfg, m, hist) && t.at == m.now && t.piece.End() <= acfg.outputMtu
    requires Ordered(hist + [t]) && Spaced(acfg, hist + [t])
    ensures var (m1, o) := Process(acfg, m, Chunk(t.slot % TWO_16, t.piece));
      && Isolated(acfg, m1, hist + [t]) && m1.now == m.now
      && Replay(acfg, PiecesIn(hist + [t], t.slot)).1 == Replay(acfg, PiecesIn(hist, t.slot)).1 + Emit(o)
  {
    hide Judge, Process, Replay, Standing, PiecesIn, Ordered, Spaced, LatestHeld, OwnedBy;
    var id := t.slot % TWO_16;
    StandingIsOwn(acfg, m, hist, t);
    ProcessStanding(acfg, m, Chunk(id, t.piece));
    PiecesNext(hist, t, t.slot);
    ReplayNext(acfg, PiecesIn(hist, t.slot), t.piece);
    var (m1, o) := Process(acfg, m, Chunk(id, t.piece));
    var fs := Replay(acfg, PiecesIn(hist, t.slot)).1;
    assert fs + [] == fs;
    LatestNow(acfg, m1, hist, t);
    forall x | x in m1.frames ensures exists k :: OwnedBy(acfg, m1, hist + [t], x, k) {
      if x == id {
        OwnedNow(acfg, m1, hist, t);
      } else {
        var k :| OwnedBy(acfg, m, hist, x, k);
        OwnedStill(acfg, m, m1, hist, t, x, k);
      }
    }
  }

  lemma LatestNow(acfg: Config, m: Model, hist: seq<Stamped>, t: Stamped)
    requires t.at == m.now
    requires var h := Replay(acfg, PiecesIn(hist + [t], t.slot)).0; var id := t.slot % TWO_16;
             if h == [] then id !in m.frames else id in m.frames && m.frames[id] == Partial(t.at, h)
    ensures LatestHeld(acfg, m, hist + [t])
  {
    hide Replay, PiecesIn;
    assert (hist + [t])[|hist|] == t;
  }

  lemma OwnedNow(acfg: Config, m: Model, hist: seq<Stamped>, t: Stamped)
    requires LatestHeld(acfg, m, hist + [t]) && t.slot % TWO_16 in m.frames
    ensures OwnedBy(acfg, m, hist + [t], t.slot % TWO_16, |hist|)
  {
    hide Replay, PiecesIn;
    assert (hist + [t])[|hist|] == t;
  }

  lemma OwnedStill(acfg: Config, m: Model, m1: Model, hist: seq<Stamped>, t: Stamped, x: FrameId, k: int)
    requires OwnedBy(acfg, m, hist, x, k) && x != t.slot % TWO_16 && x in m1.frames && m1.frames[x] == m.frames[x]
    ensures OwnedBy(acfg, m1, hist + [t], x, k)
  {
    hide Replay, PiecesIn;
    PiecesNext(hist, t, hist[k].slot);
    assert (hist + [t])[k] == hist[k];
  }

  /** The end of a packet with chunks in it. */
  lemma TickIsolated(acfg: Config, m: Model, hist: seq<Stamped>, purge: bool)
    requires Isolated(acfg, m, hist) && hist != [] && hist[|hist| - 1].at == m.now
    ensures Isolated(acfg, EndPacket(acfg, m, purge), hist) && EndPacket(acfg, m, purge).now == m.now + 1
  {
    hide Replay, PiecesIn;
    var m1 := EndPacket(acfg, m, purge);
    forall x | x in m1.frames ensures exists k :: OwnedBy(acfg, m1, hist, x, k) {
      var k :| OwnedBy(acfg, m, hist, x, k);
      assert OwnedBy(acfg, m1, hist, x, k);
    }
  }

  // ---- the frames of all slots ----

  /** The frames delivered by slots `0` to `n - 1`, each taken alone. */
  ghost function Frames(acfg: Config, hist: seq<Stamped>, n: nat): seq<seq<Byte>> {
    if n == 0 then [] else Frames(acfg, hist, n - 1) + Replay(acfg, PiecesIn(hist, n - 1)).1
  }

  lemma {:induction false} FramesBefore(acfg: Config, hist: seq<Stamped>, t: Stamped, n: nat)
    requires n <= t.slot
    ensures Frames(acfg, hist + [t], n) == Frames(acfg, hist, n)
    decreases n
  {
    hide Replay, PiecesIn;
    if n > 0 {
      FramesBefore(acfg, hist, t, n - 1);
      PiecesNext(hist, t, n - 1);
    }
  }

  lemma {:induction false} FramesNext(acfg: Config, hist: seq<Stamped>, t: Stamped, n: nat, more: seq<seq<Byte>>)
    requires Ordered(hist + [t]) && t.slot < n
    requires Replay(acfg, PiecesIn(hist + [t], t.slot)).1 == Replay(acfg, PiecesIn(hist, t.slot)).1 + more
    ensures Frames(acfg, hist + [t], n) == Frames(acfg, hist, n) + more
    decreases n
  {
    hide Replay, PiecesIn, Ordered;
    var before := Frames(acfg, hist, n - 1);
    if t.slot == n - 1 {
      FramesBefore(acfg, hist, t, n - 1);
      var fs := Replay(acfg, PiecesIn(hist, n - 1)).1;
      assert before + (fs + more) == before + fs + more;
    } else {
      FramesNext(acfg, hist, t, n - 1, more);
      NotYet(hist, t, n - 1);
      PiecesNext(hist, t, n - 1);
      ReplayNone(acfg);
      assert before + more + [] == before + more && before + [] == before;
    }
  }

  lemma NotYet(hist: seq<Stamped>, t: Stamped, s: nat)
    requires Ordered(hist + [t]) && t.slot < s
    ensures PiecesIn(hist, s) == []
  {
    var h1 := hist + [t];
    forall i | 0 <= i < |hist| ensures hist[i].slot != s {
      assert h1[i] == hist[i] && h1[i].slot <= h1[|hist|].slot;
    }
    NoneIn(hist, s);
  }

  /** Chunks of one packet with their slots. */
  datatype Tagged = Tagged(slot: nat, piece: Piece)

  function Chunks(ts: seq<Tagged>): (cs: seq<Chunk>)
    ensures |cs| == |ts| && forall i :: 0 <= i < |ts| ==> cs[i] == Chunk(ts[i].slot % TWO_16, ts[i].piece)
  {
    seq(|ts|, i requires 0 <= i < |ts| => Chunk(ts[i].slot % TWO_16, ts[i].piece))
  }

  function Stamp(now: nat, ts: seq<Tagged>): (hs: seq<Stamped>)
    ensures |hs| == |ts| && forall i :: 0 <= i < |ts| ==> hs[i] == Stamped(now, ts[i].slot, ts[i].piece)
  {
    seq(|ts|, i requires 0 <= i < |ts| => Stamped(now, ts[i].slot, ts[i].piece))
  }

  lemma {:induction false} SpacedPrefix(acfg: Config, hist: seq<Stamped>, more: seq<Stamped>)
    requires Ordered(hist + more) && Spaced(acfg, hist + more)
    ensures Ordered(hist) && Spaced(acfg, hist)
    decreases |more|
  {
    hide Ordered, Spaced;
    if more == [] {
      assert hist + more == hist;
    } else {
      var n := |more| - 1;
      assert hist + more == hist + more[..n] + [more[n]];
      SpacedBefore(acfg, hist + more[..n], more[n]);
      SpacedPrefix(acfg, hist, more[..n]);
    }
  }

  lemma ProcessNone(acfg: Config, m: Model)
    ensures ProcessAll(acfg, m, []) == (m, [])
  {
  }

  lemma TaggedCons(hist: seq<Stamped>, now: nat, ts: seq<Tagged>)
    requires ts != []
    ensures hist + Stamp(now, ts) == hist + [Stamped(now, ts[0].slot, ts[0].piece)] + Stamp(now, ts[1..])
    ensures Chunks(ts) == [Chunk(ts[0].slot % TWO_16, ts[0].piece)] + Chunks(ts[1..])
  {
  }

  /** The chunks of a packet arrive: the frames they deliver are those their slots deliver alone. */
  lemma {:induction false} ArriveAll(acfg: Config, m: Model, hist: seq<Stamped>, ts: seq<Tagged>, n: nat)
    requires ConfigOk(acfg) && Isolated(acfg, m, hist)
    requires forall i :: 0 <= i < |ts| ==> ts[i].piece.End() <= acfg.outputMtu && ts[i].slot < n
    requires Ordered(hist + Stamp(m.now, ts)) && Spaced(acfg, hist + Stamp(m.now, ts))
    ensures var (m1, fs) := ProcessAll(acfg, m, Chunks(ts)); var h1 := hist + Stamp(m.now, ts);
      Isolated(acfg, m1, h1) && m1.now == m.now && Frames(acfg, h1, n) == Frames(acfg, hist, n) + fs
    decreases |ts|
  {
    hide Ordered, Spaced, Isolated, Process, Replay, Frames, PiecesIn, ProcessAll, ConfigOk;
    if ts == [] {
      assert hist + Stamp(m.now, ts) == hist && Chunks(ts) == [];
      assert Frames(acfg, hist, n) + [] == Frames(acfg, hist, n);
      ProcessNone(acfg, m);
    } else {
      var t, rest := Stamped(m.now, ts[0].slot, ts[0].piece), ts[1..];
      TaggedCons(hist, m.now, ts);
      hide Stamp, Chunks;
      SpacedPrefix(acfg, hist + [t], Stamp(m.now, rest));
      ArriveOne(acfg, m, hist, t);
      var c := Chunk(t.slot % TWO_16, t.piece);
      var (m1, o) := Process(acfg, m, c);
      FramesNext(acfg, hist, t, n, Emit(o));
      ArriveAll(acfg, m1, hist + [t], rest, n);
      ProcessCons(acfg, m, c, Chunks(rest));
      var fs := ProcessAll(acfg, m1, Chunks(rest)).1;
      assert Frames(acfg, hist, n) + Emit(o) + fs == Frames(acfg, hist, n) + (Emit(o) + fs);
      assert [] + fs == fs;
    }
  }
}
