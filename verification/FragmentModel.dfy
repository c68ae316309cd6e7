/**
 * FragmentProto: the wire form of chunks and a reference reassembler.
 *
 * The reference reassembler keeps, for every frame id, the list of the pieces it accepted, and a packet clock
 * that never wraps. A frame is complete when every byte position below its end is covered by a piece. The
 * source (client/FragmentProtoAssembler.c) keeps counters, a byte buffer, a slot pool and a 32-bit clock
 * instead; `FragmentAssembler` proves that these do the same.
 */
module FragmentModel {
  import opened Common

  type FrameId = nat

  /** A part of a frame: `data` goes to positions `start ..`; `last` says that the frame ends there. */
  datatype Piece = Piece(start: nat, data: seq<Byte>, last: bool) {
    function End(): nat { start + |data| }
  }

  datatype Chunk = Chunk(id: FrameId, piece: Piece)

  // ---- wire form (struct fragmentproto_chunk_header followed by the payload) ----

  const HEADER_LEN: nat := 7

  predicate WireOk(c: Chunk) {
    c.id < TWO_16 && c.piece.start < TWO_16 && |c.piece.data| < TWO_16
  }

  function EncodeChunk(c: Chunk): (s: seq<Byte>)
    ensures |s| == HEADER_LEN + |c.piece.data|
  {
    PutLE(c.id, 2) + PutLE(c.piece.start, 2) + PutLE(|c.piece.data|, 2) + [if c.piece.last then 1 else 0] + c.piece.data
  }

  function EncodeAll(cs: seq<Chunk>): seq<Byte> {
    if cs == [] then [] else EncodeChunk(cs[0]) + EncodeAll(cs[1..])
  }

  /** The chunk at the front of `buf`; None when the header is short, `is_last` is not 0 or 1, or data is short. */
  function ParseChunk(buf: seq<Byte>): (r: Option<Chunk>)
    ensures r.Some? ==> HEADER_LEN + |r.value.piece.data| <= |buf|
  {
    if |buf| < HEADER_LEN then None
    else
      var len := GetLE(buf[4..6]);
      if buf[6] != 0 && buf[6] != 1 then None
      else if |buf| - HEADER_LEN < len then None
      else Some(Chunk(GetLE(buf[..2]), Piece(GetLE(buf[2..4]), buf[HEADER_LEN..HEADER_LEN + len], buf[6] == 1)))
  }

  /** Everything a packet yields before the first malformed chunk. */
  function ParseAll(buf: seq<Byte>): seq<Chunk>
    decreases |buf|
  {
    match ParseChunk(buf)
    case None => []
    case Some(c) => [c] + ParseAll(buf[HEADER_LEN + |c.piece.data|..])
  }

  lemma ParseEncodeChunk(c: Chunk, rest: seq<Byte>)
    requires WireOk(c)
    ensures ParseChunk(EncodeChunk(c) + rest) == Some(c)
    ensures (EncodeChunk(c) + rest)[HEADER_LEN + |c.piece.data|..] == rest
  {
    Pow256Values();
    GetPutLE(c.id, 2);
    GetPutLE(c.piece.start, 2);
    GetPutLE(|c.piece.data|, 2);
    var buf := EncodeChunk(c) + rest;
    assert buf[..2] == PutLE(c.id, 2);
    assert buf[2..4] == PutLE(c.piece.start, 2);
    assert buf[4..6] == PutLE(|c.piece.data|, 2);
    assert buf[HEADER_LEN..HEADER_LEN + |c.piece.data|] == c.piece.data;
  }

  /** Encoding a list of chunks into one packet and parsing the packet gives the list back. */
  lemma {:induction false} ParseEncodeAll(cs: seq<Chunk>)
    requires forall c :: c in cs ==> WireOk(c)
    ensures ParseAll(EncodeAll(cs)) == cs
    decreases |cs|
  {
    if cs != [] {
      ParseEncodeChunk(cs[0], EncodeAll(cs[1..]));
      ParseEncodeAll(cs[1..]);
    }
  }

  lemma {:induction false} EncodeAppend(cs: seq<Chunk>, c: Chunk)
    ensures EncodeAll(cs + [c]) == EncodeAll(cs) + EncodeChunk(c)
    decreases |cs|
  {
    if cs == [] {
      assert EncodeAll([c]) == EncodeChunk(c) + EncodeAll([]);
    } else {
      EncodeAppend(cs[1..], c);
      var t := cs + [c];
      assert t[0] == cs[0] && t[1..] == cs[1..] + [c];
      assert EncodeAll(t) == EncodeChunk(cs[0]) + EncodeAll(cs[1..] + [c]);
      assert EncodeAll(t) == EncodeChunk(cs[0]) + EncodeAll(cs[1..]) + EncodeChunk(c);
    }
  }

  // ---- which positions a list of pieces covers ----

  ghost predicate Covers(p: Piece, k: int) {
    p.start <= k < p.End()
  }

  ghost predicate Covered(ps: seq<Piece>, k: int) {
    exists i :: 0 <= i < |ps| && Covers(ps[i], k)
  }

  /** The source's chunks_overlap. */
  predicate Overlap(a: Piece, b: Piece) {
    a.End() > b.start && b.End() > a.start
  }

  ghost predicate Disjoint(ps: seq<Piece>) {
    forall i, j :: 0 <= i < j < |ps| ==> !Overlap(ps[i], ps[j])
  }

  /** End of the frame as announced by the piece marked last, or -1 while none is known. */
  function Length(ps: seq<Piece>): int {
    if ps == [] then -1
    else if ps[|ps| - 1].last then ps[|ps| - 1].End()
    else Length(ps[..|ps| - 1])
  }

  ghost predicate Complete(ps: seq<Piece>) {
    Length(ps) >= 0 && forall k :: 0 <= k < Length(ps) ==> Covered(ps, k)
  }

  /** The byte that the pieces put at position `k`. */
  function ByteAt(ps: seq<Piece>, k: nat): Byte {
    if ps == [] then 0
    else
      var p := ps[|ps| - 1];
      if p.start <= k < p.End() then p.data[k - p.start] else ByteAt(ps[..|ps| - 1], k)
  }

  function Assemble(ps: seq<Piece>, n: nat): (s: seq<Byte>)
    ensures |s| == n
  {
    seq(n, k requires 0 <= k < n => ByteAt(ps, k))
  }

  /** A piece may be added to `ps`: no overlap, at most one last piece, nothing beyond the last piece. */
  ghost predicate Fits(ps: seq<Piece>, c: Piece) {
    && (forall i :: 0 <= i < |ps| ==> !Overlap(ps[i], c))
    && (if c.last
        then Length(ps) < 0 && forall i :: 0 <= i < |ps| ==> ps[i].End() <= c.End()
        else Length(ps) >= 0 ==> c.End() <= Length(ps))
  }

  /** What holds of every list of accepted pieces of one frame. */
  ghost predicate Accepted(ps: seq<Piece>, mtu: nat) {
    && Disjoint(ps)
    && (forall i :: 0 <= i < |ps| ==> ps[i].End() <= mtu)
    && (Length(ps) >= 0 ==> forall i :: 0 <= i < |ps| ==> ps[i].End() <= Length(ps))
    && (forall i, j :: 0 <= i < j < |ps| ==> !(ps[i].last && ps[j].last))
    && (forall i :: 0 <= i < |ps| && ps[i].last ==> Length(ps) == ps[i].End())
  }

  lemma {:induction false} LengthNegative(ps: seq<Piece>)
    ensures Length(ps) < 0 <==> forall i :: 0 <= i < |ps| ==> !ps[i].last
    decreases |ps|
  {
    if ps != [] {
      var init := ps[..|ps| - 1];
      LengthNegative(init);
      assert forall i :: 0 <= i < |init| ==> ps[i] == init[i];
    }
  }

  lemma AcceptedExtend(ps: seq<Piece>, c: Piece, mtu: nat)
    requires Accepted(ps, mtu) && Fits(ps, c) && c.End() <= mtu
    ensures Accepted(ps + [c], mtu)
    ensures Length(ps + [c]) == if c.last then c.End() else Length(ps)
  {
    var qs := ps + [c];
    assert qs[..|qs| - 1] == ps;
    LengthNegative(ps);
  }

  // ---- completeness by counting ----

  function Sum(ps: seq<Piece>): nat {
    if ps == [] then 0 else Sum(ps[..|ps| - 1]) + |ps[|ps| - 1].data|
  }

  ghost function Range(lo: int, n: nat): (r: set<int>)
    ensures forall k :: k in r <==> lo <= k < lo + n
    ensures |r| == n
  {
    if n == 0 then {} else Range(lo, n - 1) + {lo + n - 1}
  }

  ghost function Cells(ps: seq<Piece>): set<int> {
    if ps == [] then {}
    else Cells(ps[..|ps| - 1]) + Range(ps[|ps| - 1].start, |ps[|ps| - 1].data|)
  }

  lemma {:induction false} CellsCovered(ps: seq<Piece>, k: int)
    ensures k in Cells(ps) <==> Covered(ps, k)
    decreases |ps|
  {
    if ps != [] {
      CellsCovered(ps[..|ps| - 1], k);
      CoveredLast(ps, k);
    }
  }

  lemma CoveredLast(ps: seq<Piece>, k: int)
    requires ps != []
    ensures Covered(ps, k) <==> Covered(ps[..|ps| - 1], k) || Covers(ps[|ps| - 1], k)
  {
    hide Covers;
    var init := ps[..|ps| - 1];
    assert forall i :: 0 <= i < |init| ==> init[i] == ps[i];
    if Covered(ps, k) {
      var i :| 0 <= i < |ps| && Covers(ps[i], k);
      assert i < |init| ==> Covers(init[i], k);
    }
    if Covered(init, k) {
      var i :| 0 <= i < |init| && Covers(init[i], k);
      assert Covers(ps[i], k);
    }
  }

  /** Pieces that do not overlap cover exactly as many positions as their lengths add up to. */
  lemma {:induction false} CellsSize(ps: seq<Piece>)
    requires Disjoint(ps)
    ensures |Cells(ps)| == Sum(ps)
    decreases |ps|
  {
    if ps != [] {
      var init, p := ps[..|ps| - 1], ps[|ps| - 1];
      assert forall i :: 0 <= i < |init| ==> init[i] == ps[i];
      CellsSize(init);
      forall k | k in Cells(init) ensures k !in Range(p.start, |p.data|) {
        CellsCovered(init, k);
        var i :| 0 <= i < |init| && Covers(init[i], k);
        assert !Overlap(ps[i], ps[|ps| - 1]);
      }
      assert Cells(init) !! Range(p.start, |p.data|);
    }
  }

  lemma SubsetSize(a: set<int>, b: set<int>)
    requires a <= b
    ensures |a| <= |b|
    ensures |a| == |b| ==> a == b
  {
    assert b == a + (b - a);
    assert a !! (b - a);
    if |a| == |b| {
      assert b - a == {};
    }
  }

  /**
   * The counter of the source decides completeness: once the length is known the sum of the chunk lengths never
   * exceeds it, and reaches it exactly when every position of the frame is covered.
   */
  lemma CountingIsCovering(ps: seq<Piece>, mtu: nat)
    requires Accepted(ps, mtu)
    ensures Length(ps) >= 0 ==> Sum(ps) <= Length(ps)
    ensures Complete(ps) <==> Length(ps) >= 0 && Sum(ps) == Length(ps)
    ensures Sum(ps) <= mtu
  {
    CellsSize(ps);
    var n := if Length(ps) >= 0 then Length(ps) else mtu;
    var all := Range(0, n);
    forall k | k in Cells(ps) ensures k in all {
      CellsCovered(ps, k);
    }
    SubsetSize(Cells(ps), all);
    LengthNegative(ps);
    if Length(ps) >= 0 {
      assert n <= mtu by {
        var i :| 0 <= i < |ps| && ps[i].last;
        assert ps[i].End() <= mtu;
      }
      if Sum(ps) == n {
        forall k | 0 <= k < n ensures Covered(ps, k) {
          assert k in all;
          CellsCovered(ps, k);
        }
      }
      if Complete(ps) {
        forall k | k in all ensures k in Cells(ps) {
          CellsCovered(ps, k);
        }
        assert Cells(ps) == all;
      }
    }
  }

  /** Two pieces of an accepted list never cover the same position. */
  lemma CoveringPieceUnique(ps: seq<Piece>, i: int, j: int, k: int)
    requires Disjoint(ps) && 0 <= i < |ps| && 0 <= j < |ps|
    requires Covers(ps[i], k) && Covers(ps[j], k)
    ensures i == j
  {
  }

  /** The assembled byte at a covered position is the payload byte of the piece covering it. */
  lemma {:induction false} ByteAtCovering(ps: seq<Piece>, i: int, k: nat)
    requires Disjoint(ps) && 0 <= i < |ps| && Covers(ps[i], k)
    ensures ByteAt(ps, k) == ps[i].data[k - ps[i].start]
    decreases |ps|
  {
    var init, p := ps[..|ps| - 1], ps[|ps| - 1];
    if p.start <= k < p.End() {
      CoveringPieceUnique(ps, i, |ps| - 1, k);
    } else {
      assert init[i] == ps[i];
      assert Disjoint(init);
      ByteAtCovering(init, i, k);
    }
  }

  // ---- the reference reassembler ----

  datatype Config = Config(outputMtu: nat, numFrames: nat, numChunks: nat)

  ghost predicate ConfigOk(cfg: Config) {
    0 < cfg.numFrames < TWO_32 - 1 && 0 < cfg.numChunks
  }

  /** A frame being put together: the packet count at its newest piece, and its pieces in order of arrival. */
  datatype Partial = Partial(stamp: nat, pieces: seq<Piece>)

  /** `now` counts packets without bound; `order` lists the ids in the order their entries were taken. */
  datatype Model = Model(now: nat, frames: map<FrameId, Partial>, order: seq<FrameId>)

  predicate TimedOut(cfg: Config, m: Model, id: FrameId)
    requires id in m.frames
  {
    m.now - m.frames[id].stamp > cfg.numFrames
  }

  function Drop(m: Model, id: FrameId): Model {
    Model(m.now, m.frames - {id}, Without(m.order, id))
  }

  /** Take an entry for `id`; when all are taken, the one taken longest ago is given up. */
  function Allocate(cfg: Config, m: Model, id: FrameId): Model {
    var m1 := if |m.order| >= cfg.numFrames && m.order != [] then Drop(m, m.order[0]) else m;
    Model(m1.now, m1.frames[id := Partial(m1.now, [])], m1.order + [id])
  }

  /** The model in which `id` has an entry that is not timed out. */
  function Lookup(cfg: Config, m: Model, id: FrameId): (r: Model)
    ensures id in r.frames
  {
    if id !in m.frames then Allocate(cfg, m, id)
    else if TimedOut(cfg, m, id) then Allocate(cfg, Drop(m, id), id)
    else m
  }

  /** What one more piece does to the pieces of a frame. */
  datatype Verdict = Reject | Keep(pieces: seq<Piece>) | Deliver(frame: seq<Byte>)

  ghost function Judge(cfg: Config, ps: seq<Piece>, c: Piece): (r: Verdict)
    ensures r.Deliver? ==> Fits(ps, c) && Complete(ps + [c]) && r.frame == Assemble(ps + [c], Length(ps + [c]))
    ensures r.Keep? ==> Fits(ps, c) && !Complete(ps + [c]) && r.pieces == ps + [c] && |r.pieces| != cfg.numChunks
  {
    if !Fits(ps, c) then Reject
    else if Complete(ps + [c]) then Deliver(Assemble(ps + [c], Length(ps + [c])))
    else if |ps| + 1 == cfg.numChunks then Reject
    else Keep(ps + [c])
  }

  ghost function Process(cfg: Config, m: Model, c: Chunk): (r: (Model, Option<seq<Byte>>)) {
    if c.piece.End() > cfg.outputMtu then (m, None)
    else
      var m1 := Lookup(cfg, m, c.id);
      match Judge(cfg, m1.frames[c.id].pieces, c.piece)
      case Reject => (Drop(m1, c.id), None)
      case Keep(ps) => (m1.(frames := m1.frames[c.id := Partial(m1.now, ps)]), None)
      case Deliver(frame) => (Drop(m1, c.id), Some(frame))
  }

  function Emit(o: Option<seq<Byte>>): seq<seq<Byte>> {
    match o case None => [] case Some(f) => [f]
  }

  /** All chunks of one packet, and the frames they deliver in order. */
  ghost function ProcessAll(cfg: Config, m: Model, cs: seq<Chunk>): (Model, seq<seq<Byte>>)
    decreases |cs|
  {
    if cs == [] then (m, [])
    else
      var (m1, o) := Process(cfg, m, cs[0]);
      var (m2, fs) := ProcessAll(cfg, m1, cs[1..]);
      (m2, Emit(o) + fs)
  }

  lemma ProcessCons(cfg: Config, m: Model, c: Chunk, cs: seq<Chunk>)
    ensures var (m1, o) := Process(cfg, m, c);
      && (o == None ==> ProcessAll(cfg, m, [c] + cs) == ProcessAll(cfg, m1, cs))
      && (o.Some? ==> ProcessAll(cfg, m, [c] + cs) ==
                        (ProcessAll(cfg, m1, cs).0, [o.value] + ProcessAll(cfg, m1, cs).1))
  {
    hide Process;
    assert ([c] + cs)[1..] == cs;
    var (m1, o) := Process(cfg, m, c);
    assert [] + ProcessAll(cfg, m1, cs).1 == ProcessAll(cfg, m1, cs).1;
  }

  function Select(s: seq<FrameId>, keep: set<FrameId>): seq<FrameId> {
    if s == [] then []
    else if s[0] in keep then [s[0]] + Select(s[1..], keep)
    else Select(s[1..], keep)
  }

  /** Ids of the entries that are not timed out. */
  function Alive(cfg: Config, m: Model): set<FrameId> {
    set id | id in m.frames && !TimedOut(cfg, m, id)
  }

  /** Drop exactly the timed-out frames. */
  function Purge(cfg: Config, m: Model): Model {
    Model(m.now, map id | id in m.frames && id in Alive(cfg, m) :: m.frames[id], Select(m.order, Alive(cfg, m)))
  }

  /** The end of a packet: the clock advances, after a purge if `purge`. */
  function EndPacket(cfg: Config, m: Model, purge: bool): Model {
    var m1 := if purge then Purge(cfg, m) else m;
    m1.(now := m1.now + 1)
  }

  const EmptyModel := Model(0, map[], [])

  ghost predicate PartialOk(cfg: Config, m: Model, id: FrameId)
    requires id in m.frames
  {
    var p := m.frames[id];
    && p.stamp <= m.now
    && 0 < |p.pieces| < cfg.numChunks
    && Accepted(p.pieces, cfg.outputMtu)
    && !Complete(p.pieces)
  }

  /** Shape of the entry table: the list names each used id once and stays within the pool. */
  ghost predicate TableOk(cfg: Config, m: Model) {
    && NoDup(m.order)
    && |m.order| <= cfg.numFrames
    && (forall id :: id in m.order <==> id in m.frames)
  }

  ghost predicate Inv(cfg: Config, m: Model) {
    && TableOk(cfg, m)
    && forall id :: id in m.frames ==> PartialOk(cfg, m, id)
  }

  lemma DropKeeps(cfg: Config, m: Model, id: FrameId)
    requires TableOk(cfg, m)
    ensures TableOk(cfg, Drop(m, id))
    ensures id in m.frames ==> |Drop(m, id).order| == |m.order| - 1
  {
    WithoutNoDup(m.order, id);
  }

  lemma AllocateKeeps(cfg: Config, m: Model, id: FrameId)
    requires ConfigOk(cfg) && TableOk(cfg, m) && id !in m.frames
    ensures TableOk(cfg, Allocate(cfg, m, id))
    ensures forall x :: x in Allocate(cfg, m, id).frames && x != id ==>
      x in m.frames && Allocate(cfg, m, id).frames[x] == m.frames[x]
  {
    if |m.order| >= cfg.numFrames {
      DropKeeps(cfg, m, m.order[0]);
      assert m.order[0] in m.frames;
    }
    var m1 := if |m.order| >= cfg.numFrames && m.order != [] then Drop(m, m.order[0]) else m;
    assert id !in m1.order;
  }

  lemma LookupKeeps(cfg: Config, m: Model, id: FrameId)
    requires ConfigOk(cfg) && Inv(cfg, m)
    ensures var r := Lookup(cfg, m, id);
      && TableOk(cfg, r) && r.now == m.now
      && |r.frames[id].pieces| < cfg.numChunks && Accepted(r.frames[id].pieces, cfg.outputMtu)
      && forall x :: x in r.frames && x != id ==> x in m.frames && r.frames[x] == m.frames[x]
  {
    if id !in m.frames {
      AllocateKeeps(cfg, m, id);
    } else if TimedOut(cfg, m, id) {
      DropKeeps(cfg, m, id);
      AllocateKeeps(cfg, Drop(m, id), id);
    } else {
      assert PartialOk(cfg, m, id);
    }
  }

  /** Every chunk, however malformed, keeps the invariant of the reassembler. */
  lemma ProcessKeepsInv(cfg: Config, m: Model, c: Chunk)
    requires ConfigOk(cfg) && Inv(cfg, m)
    ensures Inv(cfg, Process(cfg, m, c).0)
  {
    hide Accepted, Complete, Fits, Judge, Assemble, Lookup, TableOk, PartialOk, Inv;
    if c.piece.End() <= cfg.outputMtu {
      var m1 := Lookup(cfg, m, c.id);
      LookupKeeps(cfg, m, c.id);
      var ps := m1.frames[c.id].pieces;
      DropKeeps(cfg, m1, c.id);
      if Judge(cfg, ps, c.piece).Keep? {
        var p := Partial(m1.now, ps + [c.piece]);
        AcceptedExtend(ps, c.piece, cfg.outputMtu);
        TableKept(cfg, m1, c.id, p);
        InvFrom(cfg, m, m1.(frames := m1.frames[c.id := p]), c.id);
      } else {
        InvFrom(cfg, m, Drop(m1, c.id), c.id);
      }
    }
  }

  /** Of the entries only that of `id` has changed. */
  lemma InvFrom(cfg: Config, m: Model, m2: Model, id: FrameId)
    requires Inv(cfg, m) && TableOk(cfg, m2) && m2.now == m.now
    requires forall x :: x in m2.frames && x != id ==> x in m.frames && m2.frames[x] == m.frames[x]
    requires id in m2.frames ==>
               var p := m2.frames[id];
               && p.stamp <= m2.now && 0 < |p.pieces| < cfg.numChunks
               && Accepted(p.pieces, cfg.outputMtu) && !Complete(p.pieces)
    ensures Inv(cfg, m2)
  {
    hide Accepted, Complete, TableOk;
    forall x | x in m2.frames && x != id ensures PartialOk(cfg, m2, x) {
      assert PartialOk(cfg, m, x);
    }
  }

  lemma TableKept(cfg: Config, m: Model, id: FrameId, p: Partial)
    requires TableOk(cfg, m) && id in m.frames
    ensures TableOk(cfg, m.(frames := m.frames[id := p]))
  {
  }

  /**
   * A delivered frame is an exact tiling: its accepted pieces do not overlap, every one lies inside the frame,
   * one of them ends it, every position is covered by exactly one piece and holds that piece's payload byte.
   */
  ghost predicate ExactTiling(ps: seq<Piece>, frame: seq<Byte>) {
    && Disjoint(ps)
    && (forall i :: 0 <= i < |ps| ==> ps[i].End() <= |frame|)
    && (exists i :: 0 <= i < |ps| && ps[i].last && ps[i].End() == |frame|)
    && forall k :: 0 <= k < |frame| ==> TiledAt(ps, frame, k)
  }

  ghost predicate TiledAt(ps: seq<Piece>, frame: seq<Byte>, k: int) {
    exists i :: TileOf(ps, frame, i, k) && forall j :: 0 <= j < |ps| && Covers(ps[j], k) ==> j == i
  }

  ghost predicate TileOf(ps: seq<Piece>, frame: seq<Byte>, i: int, k: int) {
    0 <= i < |ps| && 0 <= k < |frame| && Covers(ps[i], k) && frame[k] == ps[i].data[k - ps[i].start]
  }

  lemma CompleteIsExactTiling(ps: seq<Piece>, mtu: nat)
    requires Accepted(ps, mtu) && Complete(ps)
    ensures ExactTiling(ps, Assemble(ps, Length(ps)))
  {
    var frame := Assemble(ps, Length(ps));
    LengthNegative(ps);
    var l :| 0 <= l < |ps| && ps[l].last;
    forall k | 0 <= k < |frame| ensures TiledAt(ps, frame, k) {
      assert Covered(ps, k);
      var i :| 0 <= i < |ps| && Covers(ps[i], k);
      ByteAtCovering(ps, i, k);
      forall j | 0 <= j < |ps| && Covers(ps[j], k) ensures j == i {
        CoveringPieceUnique(ps, i, j, k);
      }
      assert TileOf(ps, frame, i, k);
    }
  }

  /** Whatever arrives, a delivered frame is an exact tiling by the pieces kept for its id plus the newest one. */
  lemma DeliveredIsExactTiling(cfg: Config, m: Model, c: Chunk)
    requires ConfigOk(cfg) && Inv(cfg, m) && Process(cfg, m, c).1.Some?
    ensures var ps := Lookup(cfg, m, c.id).frames[c.id].pieces + [c.piece];
      && ExactTiling(ps, Process(cfg, m, c).1.value)
      && |ps| <= cfg.numChunks
      && |Process(cfg, m, c).1.value| <= cfg.outputMtu
  {
    LookupKeeps(cfg, m, c.id);
    var ps := Lookup(cfg, m, c.id).frames[c.id].pieces;
    AcceptedExtend(ps, c.piece, cfg.outputMtu);
    CompleteIsExactTiling(ps + [c.piece], cfg.outputMtu);
    CountingIsCovering(ps + [c.piece], cfg.outputMtu);
  }

  lemma {:induction false} SelectFacts(s: seq<FrameId>, keep: set<FrameId>)
    requires NoDup(s)
    ensures NoDup(Select(s, keep)) && |Select(s, keep)| <= |s|
    ensures forall x :: x in Select(s, keep) <==> x in s && x in keep
    decreases |s|
  {
    if s != [] {
      SelectFacts(s[1..], keep);
      var r := Select(s[1..], keep);
      assert s[0] !in s[1..] && s[0] !in r;
      assert forall j :: 0 <= j < |r| ==> r[j] in r;
      assert s == [s[0]] + s[1..];
    }
  }

  lemma EndPacketKeepsInv(cfg: Config, m: Model, purge: bool)
    requires Inv(cfg, m)
    ensures Inv(cfg, EndPacket(cfg, m, purge))
  {
    SelectFacts(m.order, Alive(cfg, m));
    var r := EndPacket(cfg, m, purge);
    forall id | id in r.frames ensures PartialOk(cfg, r, id) {
      assert PartialOk(cfg, m, id);
    }
  }

  lemma {:induction false} ProcessAllKeepsInv(cfg: Config, m: Model, cs: seq<Chunk>)
    requires ConfigOk(cfg) && Inv(cfg, m)
    ensures Inv(cfg, ProcessAll(cfg, m, cs).0)
    decreases |cs|
  {
    if cs != [] {
      ProcessKeepsInv(cfg, m, cs[0]);
      ProcessAllKeepsInv(cfg, Process(cfg, m, cs[0]).0, cs[1..]);
    }
  }
}
