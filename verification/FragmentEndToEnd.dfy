/**
 * Disassembler and assembler together: whatever the timing, an in-order lossless link delivers exactly the frames
 * sent; and the chunks of one frame rebuild it whatever order they arrive in.
 */
module FragmentEndToEnd {
  import opened Common
  import opened FragmentModel
  import opened FragmentDisassembler

  /** `p` is cut out of `frame`. */
  predicate CutFrom(frame: seq<Byte>, p: Piece) {
    p.End() <= |frame| && p.data == frame[p.start..p.End()] && (p.last <==> p.End() == |frame|)
  }

  ghost predicate AllCutFrom(frame: seq<Byte>, ps: seq<Piece>) {
    forall i :: 0 <= i < |ps| ==> CutFrom(frame, ps[i])
  }

  /** Pieces cut from `frame` put its bytes where they belong. */
  lemma CutBytes(frame: seq<Byte>, ps: seq<Piece>)
    requires AllCutFrom(frame, ps) && Disjoint(ps) && Length(ps) == |frame| && Complete(ps)
    ensures Assemble(ps, Length(ps)) == frame
  {
    hide ByteAt, Length, Disjoint;
    forall k | 0 <= k < |frame| ensures ByteAt(ps, k) == frame[k] {
      assert Covered(ps, k);
      var i :| 0 <= i < |ps| && Covers(ps[i], k);
      ByteAtCovering(ps, i, k);
      assert CutFrom(frame, ps[i]);
    }
  }

  // ---- one frame arriving in order ----

  /** `ps` cover exactly the first `used` bytes of `frame` and do not end it. */
  ghost predicate Prefix(frame: seq<Byte>, ps: seq<Piece>, used: nat) {
    && used <= |frame|
    && AllCutFrom(frame, ps) && Disjoint(ps)
    && (forall i :: 0 <= i < |ps| ==> ps[i].End() <= used && !ps[i].last)
    && (forall k :: 0 <= k < used ==> Covered(ps, k))
  }

  lemma PrefixExtend(cfg: Config, frame: seq<Byte>, ps: seq<Piece>, used: nat, p: Piece)
    requires Prefix(frame, ps, used) && CutFrom(frame, p) && p.start == used
    ensures p.last ==> Judge(cfg, ps, p) == Deliver(frame)
    ensures !p.last ==> Prefix(frame, ps + [p], p.End())
    ensures !p.last && |ps| + 1 != cfg.numChunks ==> Judge(cfg, ps, p) == Keep(ps + [p])
  {
    var qs := ps + [p];
    LengthNegative(ps);
    assert Fits(ps, p);
    LengthNegative(qs);
    assert qs[..|qs| - 1] == ps;
    forall k | 0 <= k < p.End() ensures Covered(qs, k) {
      if k < used {
        assert Covered(ps, k);
        var i :| 0 <= i < |ps| && Covers(ps[i], k);
        assert Covers(qs[i], k);
      } else {
        assert Covers(qs[|ps|], k);
      }
    }
    if p.last {
      CutBytes(frame, qs);
    }
  }

  // ---- how many chunks a frame takes ----

  /** bdivide_up */
  function DivideUp(n: nat, d: nat): nat
    requires d > 0
  {
    n / d + if n % d > 0 then 1 else 0
  }

  /** fragmentproto_max_chunks_for_frame */
  function MaxChunksForFrame(carrierMtu: nat, frameMtu: nat): nat
    requires carrierMtu > HEADER_LEN
  {
    DivideUp(frameMtu, carrierMtu - HEADER_LEN) + 1
  }

  lemma FewerChunks(k: nat, cap: nat, n: nat)
    requires cap > 0 && k * cap < n
    ensures k < DivideUp(n, cap)
  {
    var d := DivideUp(n, cap);
    assert n == (n / cap) * cap + n % cap && d * cap >= n;
    if k >= d {
      ScaleMonotone(d, k, cap);
    }
  }

  lemma ScaleMonotone(a: nat, b: nat, c: nat)
    requires a <= b
    ensures a * c <= b * c
  {
  }

  /** Every piece is nonempty; without a chunk limit all but the first fill a packet. */
  ghost predicate Packed(cfg: SendConfig, count: nat, used: nat) {
    && count <= used
    && (cfg.chunkMtu < 0 && count > 0 ==> (count - 1) * (cfg.outputMtu - HEADER_LEN) < used)
  }

  /** The receiver takes every frame of the sender: the buffers are large enough, and so is the chunk table. */
  ghost predicate Enough(cfg: SendConfig, acfg: Config) {
    && SendConfigOk(cfg) && ConfigOk(acfg)
    && cfg.inputMtu <= acfg.outputMtu
    && (|| acfg.numChunks >= cfg.inputMtu
        || (cfg.chunkMtu < 0 && acfg.numChunks >= MaxChunksForFrame(cfg.outputMtu, cfg.inputMtu)))
  }

  lemma PackedLeavesRoom(cfg: SendConfig, acfg: Config, count: nat, used: nat)
    requires Enough(cfg, acfg) && Packed(cfg, count, used) && used < cfg.inputMtu
    ensures count < acfg.numChunks
  {
    if count > 0 && !(acfg.numChunks >= cfg.inputMtu) {
      FewerChunks(count - 1, cfg.outputMtu - HEADER_LEN, cfg.inputMtu);
    }
  }

  /** The count after one more piece that does not end the frame; later pieces start a fresh packet. */
  lemma PackedNext(cfg: SendConfig, frame: seq<Byte>, used: nat, outUsed: nat, count: nat)
    requires SendConfigOk(cfg) && used < |frame| && OutAvail(cfg, outUsed) > 0 && Packed(cfg, count, used)
    requires cfg.chunkMtu < 0 && used > 0 ==> outUsed == 0
    requires NextPiece(cfg, frame, used, outUsed).End() < |frame|
    ensures Packed(cfg, count + 1, NextPiece(cfg, frame, used, outUsed).End())
  {
    var p := NextPiece(cfg, frame, used, outUsed);
    var cap := cfg.outputMtu - HEADER_LEN;
    if cfg.chunkMtu < 0 {
      assert |p.data| == OutAvail(cfg, outUsed);
      if count > 0 {
        assert p.End() == used + cap;
        assert (count - 1) * cap + cap == count * cap;
      } else {
        assert (1 - 1) * cap == 0;
      }
    }
  }

  // ---- the receiver between two packets ----

  ghost predicate Quiet(m: Model) {
    m.frames == map[] && m.order == []
  }

  /** The receiver holds the first `used` bytes of `frame` and nothing else. */
  ghost predicate Holding(cfg: SendConfig, m: Model, id: FrameId, frame: seq<Byte>, used: nat) {
    && m.frames.Keys == {id} && m.order == [id]
    && m.frames[id].stamp <= m.now <= m.frames[id].stamp + 1
    && Prefix(frame, m.frames[id].pieces, used)
    && Packed(cfg, |m.frames[id].pieces|, used)
  }

  ghost predicate Ready(cfg: SendConfig, m: Model, id: FrameId, frame: seq<Byte>, used: nat) {
    if used == 0 then Quiet(m) else Holding(cfg, m, id, frame, used)
  }

  lemma LookupReady(cfg: SendConfig, acfg: Config, m: Model, id: FrameId, frame: seq<Byte>, used: nat)
    requires Enough(cfg, acfg) && Ready(cfg, m, id, frame, used)
    ensures var r := Lookup(acfg, m, id);
      && r.frames.Keys == {id} && r.order == [id] && r.now == m.now
      && Prefix(frame, r.frames[id].pieces, used) && Packed(cfg, |r.frames[id].pieces|, used)
  {
    if used > 0 {
      assert id in m.frames;
      assert !TimedOut(acfg, m, id);
    }
  }

  /** The receiver after chunks up to position `reach` of `frame`: it holds them, or it has delivered the frame. */
  ghost predicate Landed(cfg: SendConfig, now: nat, m: Model, fs: seq<seq<Byte>>, id: FrameId, frame: seq<Byte>,
                         reach: nat) {
    && m.now == now && reach <= |frame|
    && (reach == |frame| ==> Quiet(m) && fs == [frame])
    && (reach < |frame| ==> Holding(cfg, m, id, frame, reach) && m.frames[id].stamp == now && fs == [])
  }

  /** One chunk of the sender's loop at the receiver. */
  lemma PieceArrives(cfg: SendConfig, acfg: Config, m: Model, id: FrameId, frame: seq<Byte>, used: nat, outUsed: nat)
    requires Enough(cfg, acfg) && |frame| <= cfg.inputMtu && used <= |frame| && (used > 0 ==> used < |frame|)
    requires OutAvail(cfg, outUsed) > 0 && (cfg.chunkMtu < 0 && used > 0 ==> outUsed == 0)
    requires Ready(cfg, m, id, frame, used)
    ensures var p := NextPiece(cfg, frame, used, outUsed); var (m1, o) := Process(acfg, m, Chunk(id, p));
      Landed(cfg, m.now, m1, Emit(o), id, frame, p.End())
  {
    hide Lookup, Prefix, Judge, Packed;
    var p := NextPiece(cfg, frame, used, outUsed);
    var r := Lookup(acfg, m, id);
    LookupReady(cfg, acfg, m, id, frame, used);
    var ps := r.frames[id].pieces;
    PrefixExtend(acfg, frame, ps, used, p);
    assert Drop(r, id).frames == map[];
    assert Drop(r, id).order == [] by { WithoutFirst([id]); }
    if !p.last {
      PackedNext(cfg, frame, used, outUsed, |ps|);
      PackedLeavesRoom(cfg, acfg, |ps| + 1, p.End());
    }
  }

  lemma LandedReady(cfg: SendConfig, now: nat, m: Model, o: Option<seq<Byte>>, id: FrameId, frame: seq<Byte>,
                    reach: nat)
    requires Landed(cfg, now, m, Emit(o), id, frame, reach) && 0 < reach < |frame|
    ensures Ready(cfg, m, id, frame, reach) && o == None && m.now == now
  {
  }

  /** All chunks of one call of write_chunks at the receiver. */
  lemma {:induction false} WriteArrives(cfg: SendConfig, acfg: Config, m: Model, id: FrameId, frame: seq<Byte>,
                                        used: nat, outUsed: nat)
    requires Enough(cfg, acfg) && |frame| <= cfg.inputMtu && used <= |frame| && (used > 0 ==> used < |frame|)
    requires OutAvail(cfg, outUsed) > 0 && (cfg.chunkMtu < 0 && used > 0 ==> outUsed == 0)
    requires Ready(cfg, m, id, frame, used)
    ensures var ps := Write(cfg, frame, used, outUsed); var (m1, fs) := ProcessAll(acfg, m, Label(id, ps));
      Landed(cfg, m.now, m1, fs, id, frame, Reach(ps))
    decreases cfg.outputMtu - outUsed
  {
    hide Landed, Process, ProcessAll, Ready, NextPiece, Label;
    var p := NextPiece(cfg, frame, used, outUsed);
    var out1 := outUsed + HEADER_LEN + |p.data|;
    PieceArrives(cfg, acfg, m, id, frame, used, outUsed);
    var (m1, o) := Process(acfg, m, Chunk(id, p));
    if p.End() < |frame| && OutAvail(cfg, out1) > 0 {
      var rest := Write(cfg, frame, p.End(), out1);
      LandedReady(cfg, m.now, m1, o, id, frame, p.End());
      FullPacket(cfg, frame, used, outUsed);
      WriteArrives(cfg, acfg, m1, id, frame, p.End(), out1);
      LabelSplit(id, p, rest);
      ProcessCons(acfg, m, Chunk(id, p), Label(id, rest));
    } else {
      LabelSplit(id, p, []);
      ProcessOne(acfg, m, Chunk(id, p));
    }
  }

  lemma LabelSplit(id: FrameId, p: Piece, rest: seq<Piece>)
    ensures Label(id, [p] + rest) == [Chunk(id, p)] + Label(id, rest)
    ensures rest == [] ==> [p] + rest == [p] && Label(id, [p]) == [Chunk(id, p)]
    ensures Reach([p] + rest) == if rest == [] then p.End() else Reach(rest)
  {
  }

  lemma ProcessOne(acfg: Config, m: Model, c: Chunk)
    ensures var (m1, o) := Process(acfg, m, c); ProcessAll(acfg, m, [c]) == (m1, Emit(o))
  {
    hide Process;
    assert [c] + [] == [c];
    ProcessCons(acfg, m, c, []);
    var (m1, o) := Process(acfg, m, c);
    assert ProcessAll(acfg, m1, []) == (m1, []);
    assert o.Some? ==> [o.value] + [] == [o.value];
  }

  /** Without a chunk limit a piece that does not end the frame fills the packet. */
  lemma FullPacket(cfg: SendConfig, frame: seq<Byte>, used: nat, outUsed: nat)
    requires SendConfigOk(cfg) && used <= |frame| && OutAvail(cfg, outUsed) > 0
    ensures var p := NextPiece(cfg, frame, used, outUsed);
      cfg.chunkMtu < 0 && p.End() < |frame| ==> OutAvail(cfg, outUsed + HEADER_LEN + |p.data|) <= 0
  {
  }

  // ---- the two ends and the link between them ----

  /** `sent` are the frames the sender accepted and was not asked to cancel, `got` those the receiver delivered. */
  datatype System = System(s: Sender, m: Model, sent: seq<seq<Byte>>, got: seq<seq<Byte>>)

  const SystemInit := System(SenderInit, EmptyModel, [], [])

  /**
   * A frame is offered, an output packet becomes available, the latency timer expires, or a frame of which nothing
   * is written yet is cancelled. A packet finished by the step goes to the receiver, which purges timed-out frames
   * before ticking if `purge`.
   */
  datatype Event =
    | Offer(frame: seq<Byte>, purge: bool)
    | Room(purge: bool)
    | Expire(purge: bool)
    | Withdraw(purge: bool)

  ghost predicate Enabled(cfg: SendConfig, x: System, e: Event) {
    match e
    case Offer(frame, _) => x.s.input == None && |frame| <= cfg.inputMtu
    case Room(_) => x.s.out == None
    case Expire(_) => x.s.out.Some?
    case Withdraw(_) => x.s.input.Some? && x.s.input.value.used == 0
  }

  ghost function SenderStep(cfg: SendConfig, s: Sender, e: Event): (Sender, Effect)
    requires SendConfigOk(cfg) && SenderOk(cfg, s) && Enabled(cfg, System(s, EmptyModel, [], []), e)
  {
    match e
    case Offer(frame, _) => Send(cfg, s, frame)
    case Room(_) => Recv(cfg, s)
    case Expire(_) => Timer(cfg, s)
    case Withdraw(_) => Cancel(s)
  }

  /** The receiver's share of a step: the packet travels as bytes and is parsed again. */
  ghost function Receive(acfg: Config, m: Model, packet: Option<seq<Chunk>>, purge: bool): (Model, seq<seq<Byte>>) {
    match packet
    case None => (m, [])
    case Some(cs) =>
      var (m1, fs) := ProcessAll(acfg, m, ParseAll(EncodeAll(cs)));
      (EndPacket(acfg, m1, purge), fs)
  }

  ghost function Step(cfg: SendConfig, acfg: Config, x: System, e: Event): System
    requires SendConfigOk(cfg) && SenderOk(cfg, x.s) && Enabled(cfg, x, e)
  {
    var (s1, eff) := SenderStep(cfg, x.s, e);
    var (m1, fs) := Receive(acfg, x.m, eff.packet, e.purge);
    var sent1 := match e
      case Offer(frame, _) => x.sent + [frame]
      case Withdraw(_) => if x.sent == [] then [] else x.sent[..|x.sent| - 1]
      case _ => x.sent;
    System(s1, m1, sent1, x.got + fs)
  }

  /** Chunks already written but not yet on their way. */
  function Pending(s: Sender): seq<Chunk> {
    if s.out.Some? then s.out.value else []
  }

  /** The frame taken in but not yet fully written. */
  function Unwritten(s: Sender): seq<seq<Byte>> {
    if s.input.Some? then [s.input.value.frame] else []
  }

  /** What the receiver will have once the pending chunks reach it. */
  ghost predicate InStep(cfg: SendConfig, acfg: Config, x: System) {
    var (m1, fs) := ProcessAll(acfg, x.m, Pending(x.s));
    && x.got + fs + Unwritten(x.s) == x.sent
    && (x.s.input == None ==> Quiet(m1))
    && (x.s.input.Some? ==> Ready(cfg, m1, x.s.frameId, x.s.input.value.frame, x.s.input.value.used))
  }

  ghost predicate SystemInv(cfg: SendConfig, acfg: Config, x: System) {
    SenderOk(cfg, x.s) && InStep(cfg, acfg, x)
  }

  lemma {:induction false} ProcessAppend(acfg: Config, m: Model, a: seq<Chunk>, b: seq<Chunk>)
    ensures var (m1, fs) := ProcessAll(acfg, m, a); var (m2, gs) := ProcessAll(acfg, m1, b);
      ProcessAll(acfg, m, a + b) == (m2, fs + gs)
    decreases |a|
  {
    hide Process;
    if a == [] {
      assert a + b == b;
      assert [] + ProcessAll(acfg, m, b).1 == ProcessAll(acfg, m, b).1;
    } else {
      var (m1, o) := Process(acfg, m, a[0]);
      ProcessAppend(acfg, m1, a[1..], b);
      var (m2, fs) := ProcessAll(acfg, m1, a[1..]);
      var (m3, gs) := ProcessAll(acfg, m2, b);
      assert (a + b)[1..] == a[1..] + b;
      assert Emit(o) + (fs + gs) == Emit(o) + fs + gs;
    }
  }

  /** The tick at the end of a packet leaves a quiet receiver quiet and keeps a frame that was just added to. */
  lemma TickKeepsReady(cfg: SendConfig, acfg: Config, m: Model, id: FrameId, frame: seq<Byte>, reach: nat, purge: bool)
    ensures Quiet(m) ==> Quiet(EndPacket(acfg, m, purge))
    ensures Holding(cfg, m, id, frame, reach) && m.frames[id].stamp == m.now && reach > 0 ==>
      Ready(cfg, EndPacket(acfg, m, purge), id, frame, reach)
  {
    if Holding(cfg, m, id, frame, reach) && m.frames[id].stamp == m.now {
      var keep := Alive(acfg, m);
      assert id in keep;
      assert Select([id], keep) == [id] + Select([], keep);
      assert Purge(acfg, m).frames == m.frames;
    }
  }

  /** The two outcomes of a call of write_chunks: the packet stays pending, or it is sent off and received. */
  lemma LandedInStep(cfg: SendConfig, acfg: Config, m: Model, out: seq<Chunk>, ps: seq<Piece>, id: FrameId,
                     frame: seq<Byte>, now: nat, purge: bool)
    requires ps != [] && ProcessAll(acfg, m, out).0.now == now
    requires var (m2, gs) := ProcessAll(acfg, ProcessAll(acfg, m, out).0, Label(id, ps));
               Landed(cfg, now, m2, gs, id, frame, Reach(ps))
    requires Reach(ps) < |frame| ==> Reach(ps) > 0
    ensures var fs := ProcessAll(acfg, m, out).1; var (m3, hs) := ProcessAll(acfg, m, out + Label(id, ps));
      && hs == fs + (if Reach(ps) == |frame| then [frame] else [])
      && (Reach(ps) == |frame| ==> Quiet(m3) && Quiet(EndPacket(acfg, m3, purge)))
      && (Reach(ps) < |frame| ==> Ready(cfg, EndPacket(acfg, m3, purge), id, frame, Reach(ps)))
  {
    hide Quiet, Holding, Ready, EndPacket, Process, ProcessAll, Label;
    ProcessAppend(acfg, m, out, Label(id, ps));
    var m2 := ProcessAll(acfg, ProcessAll(acfg, m, out).0, Label(id, ps)).0;
    TickKeepsReady(cfg, acfg, m2, id, frame, Reach(ps), purge);
  }

  /** write_chunks seen from both ends: the pending chunks grow by what lands, a full packet is received and ticks. */
  lemma WriteChunksInStep(cfg: SendConfig, acfg: Config, x: System, purge: bool)
    requires Enough(cfg, acfg) && x.s.frameId < TWO_16 && x.s.input.Some? && x.s.out.Some?
    requires |x.s.input.value.frame| <= cfg.inputMtu && x.s.input.value.used <= |x.s.input.value.frame|
    requires x.s.input.value.used > 0 ==> x.s.input.value.used < |x.s.input.value.frame| && x.s.out.value == []
    requires OutAvail(cfg, Fill(x.s.out.value)) > 0 && forall c :: c in x.s.out.value ==> WireOk(c)
    requires InStep(cfg, acfg, x)
    ensures var (s1, eff) := WriteChunks(cfg, x.s); var (m1, fs) := Receive(acfg, x.m, eff.packet, purge);
      SystemInv(cfg, acfg, System(s1, m1, x.sent, x.got + fs))
  {
    hide Write, Size, Quiet, Ready, Landed, EndPacket, Process, ProcessAll, Label, SenderOk, EncodeAll, ParseAll;
    var frame, used, out, id := x.s.input.value.frame, x.s.input.value.used, x.s.out.value, x.s.frameId;
    FillNone();
    WriteChunksKeeps(cfg, x.s);
    WriteFacts(cfg, frame, used, Fill(out));
    var ps := Write(cfg, frame, used, Fill(out));
    var (m0, fs) := ProcessAll(acfg, x.m, out);
    WriteArrives(cfg, acfg, m0, id, frame, used, Fill(out));
    LandedInStep(cfg, acfg, x.m, out, ps, id, frame, m0.now, purge);
    var (s1, eff) := WriteChunks(cfg, x.s);
    ParseEncodeAllIf(out + Label(id, ps), eff.packet);
    var (m1, hs) := Receive(acfg, x.m, eff.packet, purge);
    ProcessNothing(acfg, m1);
    if Reach(ps) == |frame| {
      assert x.got + (fs + [frame]) + [] == x.got + fs + [frame];
      assert x.got + [] + (fs + [frame]) + [] == x.got + fs + [frame];
      assert x.got + (fs + [frame]) + [] + [] == x.got + fs + [frame];
    } else {
      assert x.got + (fs + []) + [] + [frame] == x.got + fs + [frame];
    }
  }

  lemma FillNone()
    ensures Fill([]) == 0
  {
  }

  lemma ProcessNothing(acfg: Config, m: Model)
    ensures ProcessAll(acfg, m, []) == (m, [])
  {
  }

  lemma ParseEncodeAllIf(cs: seq<Chunk>, packet: Option<seq<Chunk>>)
    requires packet.Some? ==> packet.value == cs && forall c :: c in cs ==> WireOk(c)
    ensures packet.Some? ==> ParseAll(EncodeAll(cs)) == cs
  {
    if packet.Some? {
      ParseEncodeAll(cs);
    }
  }

  lemma OfferKeeps(cfg: SendConfig, acfg: Config, x: System, e: Event)
    requires Enough(cfg, acfg) && SystemInv(cfg, acfg, x) && e.Offer? && Enabled(cfg, x, e)
    ensures SystemInv(cfg, acfg, Step(cfg, acfg, x, e))
  {
    hide Quiet, Holding, ProcessAll, WriteChunks, WireOk;
    var x1 := x.(s := x.s.(input := Some(Input(e.frame, 0))), sent := x.sent + [e.frame]);
    var fs := ProcessAll(acfg, x.m, Pending(x.s)).1;
    assert x.got + fs + [] + [e.frame] == x.got + fs + [e.frame];
    assert x.got + fs + [] == x.got + fs;
    if x.s.out == None {
      assert x.got + [] == x.got;
    } else {
      WriteChunksInStep(cfg, acfg, x1, e.purge);
    }
  }

  lemma RoomKeeps(cfg: SendConfig, acfg: Config, x: System, e: Event)
    requires Enough(cfg, acfg) && SystemInv(cfg, acfg, x) && e.Room? && Enabled(cfg, x, e)
    ensures SystemInv(cfg, acfg, Step(cfg, acfg, x, e))
  {
    hide Quiet, Holding, ProcessAll, WriteChunks, WireOk;
    FillNone();
    if x.s.input == None {
      assert x.got + [] == x.got;
    } else {
      WriteChunksInStep(cfg, acfg, x.(s := x.s.(out := Some([]))), e.purge);
    }
  }

  lemma ExpireKeeps(cfg: SendConfig, acfg: Config, x: System, e: Event)
    requires Enough(cfg, acfg) && SystemInv(cfg, acfg, x) && e.Expire? && Enabled(cfg, x, e)
    ensures SystemInv(cfg, acfg, Step(cfg, acfg, x, e))
  {
    hide Quiet, Holding, ProcessAll, EndPacket, WireOk;
    var cs := x.s.out.value;
    ParseEncodeAll(cs);
    var (m1, fs) := ProcessAll(acfg, x.m, cs);
    TickKeepsReady(cfg, acfg, m1, 0, [], 0, e.purge);
    ProcessNothing(acfg, EndPacket(acfg, m1, e.purge));
    assert x.got + fs + [] + [] == x.got + fs + [];
  }

  lemma WithdrawKeeps(cfg: SendConfig, acfg: Config, x: System, e: Event)
    requires Enough(cfg, acfg) && SystemInv(cfg, acfg, x) && e.Withdraw? && Enabled(cfg, x, e)
    ensures SystemInv(cfg, acfg, Step(cfg, acfg, x, e))
  {
    hide Quiet, ProcessAll, WireOk;
    var fs := ProcessAll(acfg, x.m, Pending(x.s)).1;
    assert x.sent == x.got + fs + [x.s.input.value.frame];
    assert x.got + [] == x.got && x.got + fs + [] == x.sent[..|x.sent| - 1];
  }

  lemma StepKeeps(cfg: SendConfig, acfg: Config, x: System, e: Event)
    requires Enough(cfg, acfg) && SystemInv(cfg, acfg, x) && Enabled(cfg, x, e)
    ensures SystemInv(cfg, acfg, Step(cfg, acfg, x, e))
  {
    hide SystemInv, Step;
    match e
    case Offer(_, _) => OfferKeeps(cfg, acfg, x, e);
    case Room(_) => RoomKeeps(cfg, acfg, x, e);
    case Expire(_) => ExpireKeeps(cfg, acfg, x, e);
    case Withdraw(_) => WithdrawKeeps(cfg, acfg, x, e);
  }

  /** `es` can happen in this order from `x`. */
  ghost predicate CanRun(cfg: SendConfig, acfg: Config, x: System, es: seq<Event>)
    decreases |es|
  {
    es != [] ==>
      && SendConfigOk(cfg) && SenderOk(cfg, x.s) && Enabled(cfg, x, es[0])
      && CanRun(cfg, acfg, Step(cfg, acfg, x, es[0]), es[1..])
  }

  ghost function Run(cfg: SendConfig, acfg: Config, x: System, es: seq<Event>): System
    requires CanRun(cfg, acfg, x, es)
    decreases |es|
  {
    if es == [] then x else Run(cfg, acfg, Step(cfg, acfg, x, es[0]), es[1..])
  }

  lemma {:induction false} RunKeeps(cfg: SendConfig, acfg: Config, x: System, es: seq<Event>)
    requires Enough(cfg, acfg) && SystemInv(cfg, acfg, x) && CanRun(cfg, acfg, x, es)
    ensures SystemInv(cfg, acfg, Run(cfg, acfg, x, es))
    decreases |es|
  {
    hide SystemInv, Step;
    if es != [] {
      StepKeeps(cfg, acfg, x, es[0]);
      RunKeeps(cfg, acfg, Step(cfg, acfg, x, es[0]), es[1..]);
    }
  }

  lemma InitKeeps(cfg: SendConfig, acfg: Config)
    ensures SystemInv(cfg, acfg, SystemInit)
  {
    assert ProcessAll(acfg, EmptyModel, []) == (EmptyModel, []);
    assert Unwritten(SenderInit) == [];
  }

  /**
   * End to end, for every sequence of frames and every timing of output packets and latency timer: the frames
   * delivered are at all times a prefix of the frames sent, byte for byte and in order, and once nothing is waiting
   * at the sender they are all the frames sent. No eviction, timeout, clock renormalisation or id wrap-around shows.
   */
  lemma EndToEnd(cfg: SendConfig, acfg: Config, es: seq<Event>)
    requires Enough(cfg, acfg) && CanRun(cfg, acfg, SystemInit, es)
    ensures var x := Run(cfg, acfg, SystemInit, es);
      && x.got <= x.sent
      && (x.s.input == None && Pending(x.s) == [] ==> x.got == x.sent)
  {
    hide SenderOk, CanRun, Run, Quiet, Ready, ProcessAll;
    InitKeeps(cfg, acfg);
    RunKeeps(cfg, acfg, SystemInit, es);
    var x := Run(cfg, acfg, SystemInit, es);
    var fs := ProcessAll(acfg, x.m, Pending(x.s)).1;
    assert x.sent == x.got + (fs + Unwritten(x.s));
    ProcessNothing(acfg, x.m);
  }

  // ---- one frame arriving in any order, among other traffic ----

  /** `ps`, in whatever order, are all the chunks a frame was cut into. */
  ghost predicate IsSplit(frame: seq<Byte>, ps: seq<Piece>) {
    && AllCutFrom(frame, ps) && Disjoint(ps)
    && (forall k :: 0 <= k < |frame| ==> Covered(ps, k))
    && (exists i :: 0 <= i < |ps| && ps[i].last)
    && (if frame == [] then |ps| == 1 else forall i :: 0 <= i < |ps| ==> |ps[i].data| > 0)
  }

  /** Being the chunks of a frame does not depend on the order. */
  lemma SplitPermutes(frame: seq<Byte>, ps: seq<Piece>, qs: seq<Piece>)
    requires IsSplit(frame, ps) && multiset(ps) == multiset(qs)
    ensures IsSplit(frame, qs)
  {
    SameElements(ps, qs);
    SameElements(qs, ps);
    assert |qs| == |multiset(qs)| == |multiset(ps)| == |ps|;
    forall i, j | 0 <= i < j < |qs| ensures !Overlap(qs[i], qs[j]) {
      if frame != [] {
        var a, b := PermutedPair(ps, qs, i, j);
      }
    }
    forall k | 0 <= k < |frame| ensures Covered(qs, k) {
      assert Covered(ps, k);
      var i :| 0 <= i < |ps| && Covers(ps[i], k);
      assert ps[i] in qs;
      var j :| 0 <= j < |qs| && qs[j] == ps[i];
      assert Covers(qs[j], k);
    }
    var l :| 0 <= l < |ps| && ps[l].last;
    assert ps[l] in qs;
    forall i | 0 <= i < |qs| ensures CutFrom(frame, qs[i]) && (frame != [] ==> |qs[i].data| > 0) {
      assert qs[i] in ps;
    }
  }

  lemma SameElements(ps: seq<Piece>, qs: seq<Piece>)
    requires multiset(ps) == multiset(qs)
    ensures forall p :: p in ps ==> p in qs
  {
    forall p | p in ps ensures p in qs {
      assert p in multiset(ps);
    }
  }

  lemma OccursTwice(s: seq<Piece>, i: int, j: int)
    requires 0 <= i < j < |s| && s[i] == s[j]
    ensures multiset(s)[s[i]] >= 2
  {
    var t := s[i + 1..];
    assert t[j - i - 1] == s[i];
    assert s == s[..i] + [s[i]] + t;
    assert multiset(s) == multiset(s[..i]) + multiset{s[i]} + multiset(t);
  }

  lemma TwoPositions(s: seq<Piece>, p: Piece, a: int) returns (b: int)
    requires 0 <= a < |s| && s[a] == p && multiset(s)[p] >= 2
    ensures 0 <= b < |s| && b != a && s[b] == p
  {
    var l, r := s[..a], s[a + 1..];
    assert s == l + [p] + r;
    assert multiset(s) == multiset(l) + multiset{p} + multiset(r);
    if p in multiset(l) {
      b :| 0 <= b < |l| && l[b] == p;
    } else {
      assert p in multiset(r);
      var c :| 0 <= c < |r| && r[c] == p;
      b := a + 1 + c;
    }
  }

  /** Two positions of a permutation come from two positions of the original. */
  lemma PermutedPair(ps: seq<Piece>, qs: seq<Piece>, i: int, j: int) returns (a: int, b: int)
    requires multiset(ps) == multiset(qs) && 0 <= i < j < |qs|
    ensures 0 <= a < |ps| && 0 <= b < |ps| && a != b && ps[a] == qs[i] && ps[b] == qs[j]
  {
    SameElements(qs, ps);
    assert qs[i] in ps && qs[j] in ps;
    a :| 0 <= a < |ps| && ps[a] == qs[i];
    if qs[i] == qs[j] {
      OccursTwice(qs, i, j);
      b := TwoPositions(ps, qs[i], a);
    } else {
      b :| 0 <= b < |ps| && ps[b] == qs[j];
    }
  }

  /** Each chunk of a frame fits those already there; only the last to arrive completes the frame, with its bytes. */
  lemma SplitProgress(cfg: Config, frame: seq<Byte>, qs: seq<Piece>, k: nat)
    requires IsSplit(frame, qs) && k < |qs| <= cfg.numChunks
    ensures Judge(cfg, qs[..k], qs[k]) == if k + 1 == |qs| then Deliver(frame) else Keep(qs[..k + 1])
  {
    hide Fits, Complete, IsSplit, Assemble;
    assert qs[..k + 1] == qs[..k] + [qs[k]];
    SplitFits(frame, qs, k);
    if k + 1 == |qs| {
      assert qs[..k + 1] == qs;
      SplitWhole(frame, qs);
    } else {
      SplitIncomplete(frame, qs, k);
    }
  }

  lemma SplitFits(frame: seq<Byte>, qs: seq<Piece>, k: nat)
    requires IsSplit(frame, qs) && k < |qs|
    ensures Fits(qs[..k], qs[k])
  {
    hide Length;
    LengthNegative(qs[..k]);
    SplitLength(frame, qs, k);
  }

  lemma SplitWhole(frame: seq<Byte>, qs: seq<Piece>)
    requires IsSplit(frame, qs)
    ensures Complete(qs) && Assemble(qs, Length(qs)) == frame
  {
    hide Length, Assemble;
    assert qs[..|qs|] == qs;
    LengthNegative(qs);
    SplitLength(frame, qs, |qs|);
    CutBytes(frame, qs);
  }

  /** Some of the chunks leave the place of the next one uncovered. */
  lemma SplitIncomplete(frame: seq<Byte>, qs: seq<Piece>, k: nat)
    requires IsSplit(frame, qs) && k + 1 < |qs|
    ensures !Complete(qs[..k + 1])
  {
    var after, p := qs[..k + 1], qs[k + 1];
    SplitLength(frame, qs, k + 1);
    assert CutFrom(frame, p);
    forall i | 0 <= i < |after| ensures !Covers(after[i], p.start) {
      assert !Overlap(qs[i], qs[k + 1]);
    }
    assert !Covered(after, p.start);
  }

  /** The length known from some of the chunks is that of the frame, or none. */
  lemma {:induction false} SplitLength(frame: seq<Byte>, qs: seq<Piece>, k: nat)
    requires AllCutFrom(frame, qs) && k <= |qs|
    ensures Length(qs[..k]) < 0 || Length(qs[..k]) == |frame|
    decreases k
  {
    if k > 0 {
      SplitLength(frame, qs, k - 1);
      assert qs[..k][..k - 1] == qs[..k - 1];
    }
  }

  /** Traffic at the receiver: a chunk of any frame, or the end of a packet. */
  datatype Traffic = Arrive(c: Chunk) | Tick(purge: bool)

  ghost function Feed(acfg: Config, m: Model, t: Traffic): Model {
    match t
    case Arrive(c) => Process(acfg, m, c).0
    case Tick(purge) => EndPacket(acfg, m, purge)
  }

  predicate For(id: FrameId, t: Traffic) { t.Arrive? && t.c.id == id }

  /** The pieces of frame `id`, in the order they arrive. */
  function PiecesFor(id: FrameId, ts: seq<Traffic>): seq<Piece> {
    if ts == [] then []
    else if For(id, ts[0]) then [ts[0].c.piece] + PiecesFor(id, ts[1..])
    else PiecesFor(id, ts[1..])
  }

  /** What the chunks of frame `id` deliver. */
  ghost function FramesFor(acfg: Config, m: Model, id: FrameId, ts: seq<Traffic>): seq<seq<Byte>>
    decreases |ts|
  {
    if ts == [] then []
    else
      (if For(id, ts[0]) then Emit(Process(acfg, m, ts[0].c).1) else []) +
          FramesFor(acfg, Feed(acfg, m, ts[0]), id, ts[1..])
  }

  /** The entry of frame `id` is not evicted or purged by other traffic and not timed out when a chunk of it arrives. */
  ghost predicate Undisturbed(acfg: Config, m: Model, id: FrameId, ts: seq<Traffic>)
    decreases |ts|
  {
    ts != [] ==>
      && (id in m.frames ==>
            if For(id, ts[0]) then !TimedOut(acfg, m, id)
            else id in Feed(acfg, m, ts[0]).frames && Feed(acfg, m, ts[0]).frames[id] == m.frames[id])
      && Undisturbed(acfg, Feed(acfg, m, ts[0]), id, ts[1..])
  }

  lemma OthersDoNotAdd(acfg: Config, m: Model, id: FrameId, t: Traffic)
    requires !For(id, t) && id !in m.frames
    ensures id !in Feed(acfg, m, t).frames
  {
  }

  /** Of the chunks `qs` the first `k` have arrived. */
  ghost predicate Arrived(m: Model, id: FrameId, qs: seq<Piece>, k: nat) {
    && k <= |qs|
    && (if 0 < k < |qs| then id in m.frames && m.frames[id].pieces == qs[..k] else id !in m.frames)
  }

  lemma ArriveNext(acfg: Config, m: Model, id: FrameId, frame: seq<Byte>, qs: seq<Piece>, k: nat)
    requires IsSplit(frame, qs) && |qs| <= acfg.numChunks && |frame| <= acfg.outputMtu
    requires k < |qs| && Arrived(m, id, qs, k) && (id in m.frames ==> !TimedOut(acfg, m, id))
    ensures var (m1, o) := Process(acfg, m, Chunk(id, qs[k]));
      Arrived(m1, id, qs, k + 1) && o == if k + 1 == |qs| then Some(frame) else None
  {
    hide Judge, Fits, Complete;
    SplitProgress(acfg, frame, qs, k);
    assert CutFrom(frame, qs[k]);
    assert Lookup(acfg, m, id).frames[id].pieces == qs[..k];
  }

  /**
   * A frame whose chunks arrive each once, in any order, interleaved with chunks of other frames and packet ends, is
   * delivered once, byte for byte, exactly when its last chunk arrives: not before, and no matter which one is last.
   */
  lemma {:induction false} AnyOrder(acfg: Config, m: Model, id: FrameId, frame: seq<Byte>, qs: seq<Piece>, k: nat,
                                    ts: seq<Traffic>)
    requires IsSplit(frame, qs) && |qs| <= acfg.numChunks && |frame| <= acfg.outputMtu
    requires Arrived(m, id, qs, k) && PiecesFor(id, ts) <= qs[k..] && Undisturbed(acfg, m, id, ts)
    ensures FramesFor(acfg, m, id, ts) == if k < |qs| && k + |PiecesFor(id, ts)| == |qs| then [frame] else []
    decreases |ts|
  {
    hide IsSplit, Process, EndPacket, TimedOut;
    if ts != [] {
      var m1 := Feed(acfg, m, ts[0]);
      if For(id, ts[0]) {
        var ps := PiecesFor(id, ts);
        assert ps[0] == qs[k..][0] && ps[1..] == PiecesFor(id, ts[1..]);
        assert ts[0].c == Chunk(id, qs[k]);
        ArriveNext(acfg, m, id, frame, qs, k);
        assert qs[k..][1..] == qs[k + 1..];
        AnyOrder(acfg, m1, id, frame, qs, k + 1, ts[1..]);
        if k + 1 < |qs| {
          assert [] + FramesFor(acfg, m1, id, ts[1..]) == FramesFor(acfg, m1, id, ts[1..]);
        } else {
          assert PiecesFor(id, ts[1..]) == [];
        }
      } else {
        if id !in m.frames {
          OthersDoNotAdd(acfg, m, id, ts[0]);
        }
        AnyOrder(acfg, m1, id, frame, qs, k, ts[1..]);
        assert [] + FramesFor(acfg, m1, id, ts[1..]) == FramesFor(acfg, m1, id, ts[1..]);
      }
    }
  }

  // ---- the chunks the sender cuts a frame into ----

  /** All pieces of a frame: what is left after one packet goes on in the next, which is empty. */
  function Split(cfg: SendConfig, frame: seq<Byte>, used: nat, outUsed: nat): (ps: seq<Piece>)
    requires SendConfigOk(cfg) && used <= |frame| && OutAvail(cfg, outUsed) > 0
    ensures ps != []
    decreases |frame| - used
  {
    var ps := Write(cfg, frame, used, outUsed);
    WriteFacts(cfg, frame, used, outUsed);
    if Reach(ps) < |frame| then ps + Split(cfg, frame, Reach(ps), 0) else ps
  }

  /** Pieces cut from `frame` that lie end to end from `a` on, each nonempty unless there is nothing to cut. */
  ghost predicate Chain(frame: seq<Byte>, ps: seq<Piece>, a: nat) {
    && ps != [] && ps[0].start == a && AllCutFrom(frame, ps)
    && (forall i :: 0 <= i < |ps| - 1 ==> ps[i + 1].start == ps[i].End())
    && (a < |frame| ==> forall i :: 0 <= i < |ps| ==> |ps[i].data| > 0)
    && (a == |frame| ==> |ps| == 1)
  }

  lemma ChainAppend(frame: seq<Byte>, ps: seq<Piece>, qs: seq<Piece>, a: nat)
    requires Chain(frame, ps, a) && Reach(ps) < |frame| && Chain(frame, qs, Reach(ps)) && a < |frame|
    ensures Chain(frame, ps + qs, a) && Reach(ps + qs) == Reach(qs)
  {
  }

  lemma {:induction false} WriteChain(cfg: SendConfig, frame: seq<Byte>, used: nat, outUsed: nat)
    requires SendConfigOk(cfg) && used <= |frame| && OutAvail(cfg, outUsed) > 0
    ensures Chain(frame, Write(cfg, frame, used, outUsed), used)
    decreases cfg.outputMtu - outUsed
  {
    var p := NextPiece(cfg, frame, used, outUsed);
    var out1 := outUsed + HEADER_LEN + |p.data|;
    assert Chain(frame, [p], used);
    if p.End() < |frame| && OutAvail(cfg, out1) > 0 {
      WriteChain(cfg, frame, p.End(), out1);
      ChainAppend(frame, [p], Write(cfg, frame, p.End(), out1), used);
    }
  }

  lemma {:induction false} SplitChain(cfg: SendConfig, frame: seq<Byte>, used: nat, outUsed: nat)
    requires SendConfigOk(cfg) && used <= |frame| && OutAvail(cfg, outUsed) > 0
    ensures Chain(frame, Split(cfg, frame, used, outUsed), used) && Reach(Split(cfg, frame, used, outUsed)) == |frame|
    decreases |frame| - used
  {
    hide Write;
    var ps := Write(cfg, frame, used, outUsed);
    WriteFacts(cfg, frame, used, outUsed);
    WriteChain(cfg, frame, used, outUsed);
    if Reach(ps) < |frame| {
      SplitChain(cfg, frame, Reach(ps), 0);
      ChainAppend(frame, ps, Split(cfg, frame, Reach(ps), 0), used);
    }
  }

  lemma {:induction false} ChainOrdered(frame: seq<Byte>, ps: seq<Piece>, a: nat, i: nat, j: nat)
    requires Chain(frame, ps, a) && i < j < |ps|
    ensures ps[i].End() <= ps[j].start
    decreases j
  {
    if i + 1 < j {
      ChainOrdered(frame, ps, a, i, j - 1);
      assert ps[j - 1 + 1].start == ps[j - 1].End();
    } else {
      assert ps[i + 1].start == ps[i].End();
    }
  }

  lemma {:induction false} ChainCovers(frame: seq<Byte>, ps: seq<Piece>, a: nat, k: nat, n: nat)
    requires Chain(frame, ps, a) && n < |ps| && a <= k < ps[n].End()
    ensures Covered(ps, k)
    decreases n
  {
    if ps[n].start <= k {
      assert Covers(ps[n], k);
    } else {
      assert ps[n - 1 + 1].start == ps[n - 1].End();
      ChainCovers(frame, ps, a, k, n - 1);
    }
  }

  /** The sender cuts every frame into a proper set of chunks, wherever in a packet the first one lands. */
  lemma SenderSplits(cfg: SendConfig, frame: seq<Byte>, outUsed: nat)
    requires SendConfigOk(cfg) && OutAvail(cfg, outUsed) > 0
    ensures IsSplit(frame, Split(cfg, frame, 0, outUsed))
  {
    hide Split;
    var ps := Split(cfg, frame, 0, outUsed);
    SplitChain(cfg, frame, 0, outUsed);
    forall i, j | 0 <= i < j < |ps| ensures !Overlap(ps[i], ps[j]) {
      ChainOrdered(frame, ps, 0, i, j);
    }
    forall k | 0 <= k < |frame| ensures Covered(ps, k) {
      ChainCovers(frame, ps, 0, k, |ps| - 1);
    }
    assert ps[|ps| - 1].last;
  }

  /** The number of chunks never exceeds what the receiver makes room for. */
  lemma {:induction false} SplitCount(cfg: SendConfig, frame: seq<Byte>, used: nat, outUsed: nat, count: nat)
    requires SendConfigOk(cfg) && cfg.chunkMtu < 0 && used <= |frame| && OutAvail(cfg, outUsed) > 0
    requires used > 0 ==> outUsed == 0 && used < |frame|
    requires Packed(cfg, count, used)
    ensures count + |Split(cfg, frame, used, outUsed)| <= MaxChunksForFrame(cfg.outputMtu, |frame|)
    decreases |frame| - used
  {
    var p := NextPiece(cfg, frame, used, outUsed);
    FullPacket(cfg, frame, used, outUsed);
    assert Write(cfg, frame, used, outUsed) == [p];
    if p.End() < |frame| {
      PackedNext(cfg, frame, used, outUsed, count);
      SplitCount(cfg, frame, p.End(), 0, count + 1);
    } else if count > 0 {
      FewerChunks(count - 1, cfg.outputMtu - HEADER_LEN, |frame|);
    }
  }

  lemma MaxChunksMonotone(carrier: nat, a: nat, b: nat)
    requires carrier > HEADER_LEN && a <= b
    ensures MaxChunksForFrame(carrier, a) <= MaxChunksForFrame(carrier, b)
  {
    var cap := carrier - HEADER_LEN;
    var d := DivideUp(a, cap);
    if d > 0 {
      assert a == (a / cap) * cap + a % cap && (d - 1) * cap < a;
      FewerChunks(d - 1, cap, b);
    }
  }

  /**
   * A frame cut by the sender, wherever its first chunk lands in a packet, is rebuilt from any permutation of its
   * chunks, with the chunk table sized as client/DatagramPeerIO.c sizes it.
   */
  lemma SentFrameRebuilds(cfg: SendConfig, acfg: Config, m: Model, id: FrameId, frame: seq<Byte>, outUsed: nat,
                          qs: seq<Piece>, ts: seq<Traffic>)
    requires SendConfigOk(cfg) && cfg.chunkMtu < 0 && |frame| <= cfg.inputMtu <= acfg.outputMtu
    requires OutAvail(cfg, outUsed) > 0 && acfg.numChunks >= MaxChunksForFrame(cfg.outputMtu, cfg.inputMtu)
    requires multiset(qs) == multiset(Split(cfg, frame, 0, outUsed))
    requires id !in m.frames && PiecesFor(id, ts) == qs && Undisturbed(acfg, m, id, ts)
    ensures FramesFor(acfg, m, id, ts) == [frame]
  {
    hide IsSplit, Split, FramesFor, Undisturbed, PiecesFor;
    var ps := Split(cfg, frame, 0, outUsed);
    SenderSplits(cfg, frame, outUsed);
    SplitPermutes(frame, ps, qs);
    assert Packed(cfg, 0, 0);
    SplitCount(cfg, frame, 0, outUsed, 0);
    MaxChunksMonotone(cfg.outputMtu, |frame|, cfg.inputMtu);
    assert |qs| == |multiset(qs)| == |multiset(ps)| == |ps|;
    assert qs[0..] == qs;
    AnyOrder(acfg, m, id, frame, qs, 0, ts);
  }
}
