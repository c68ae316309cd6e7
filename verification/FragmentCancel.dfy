/**
 * Cancelling a frame (input_handler_requestcancel in client/FragmentProtoDisassembler.c): harmless while nothing of the
 * frame has been written; after that the next frame is lost, because the frame id is not advanced.
 */
module FragmentCancel {
  import opened Common
  import opened FragmentModel
  import opened FragmentDisassembler
  import opened FragmentEndToEnd

  // ---- cancelling a frame that has been partly written ----

  /** The receiver has nothing for the start of frame `id`. */
  ghost predicate Headless(m: Model, id: FrameId) {
    id in m.frames ==> !Covered(m.frames[id].pieces, 0) && Length(m.frames[id].pieces) != 0
  }

  lemma HeadlessExtend(ps: seq<Piece>, p: Piece)
    requires !Covered(ps, 0) && Length(ps) != 0 && p.start > 0
    ensures !Covered(ps + [p], 0) && Length(ps + [p]) != 0 && !Complete(ps + [p])
  {
    var qs := ps + [p];
    assert qs[..|qs| - 1] == ps;
    forall i | 0 <= i < |qs| ensures !Covers(qs[i], 0) {
      if i < |ps| {
        assert qs[i] == ps[i];
      }
    }
  }

  lemma HeadlessArrive(acfg: Config, m: Model, c: Chunk)
    requires Headless(m, c.id) && c.piece.start > 0
    ensures Process(acfg, m, c).1 == None && Headless(Process(acfg, m, c).0, c.id)
  {
    hide Covered, Complete, Length, Fits, Assemble;
    var ps := Lookup(acfg, m, c.id).frames[c.id].pieces;
    NothingCovered();
    HeadlessExtend(ps, c.piece);
  }

  lemma NothingCovered()
    ensures !Covered([], 0) && Length([]) != 0
  {
  }

  lemma HeadlessOther(acfg: Config, m: Model, id: FrameId, t: Traffic)
    requires Headless(m, id) && !For(id, t)
    ensures Headless(Feed(acfg, m, t), id)
  {
    hide Covered, Length;
    OthersKeep(acfg, m, id, t);
  }

  /** Traffic that is not for frame `id` leaves its entry as it is, or drops it. */
  lemma OthersKeep(acfg: Config, m: Model, id: FrameId, t: Traffic)
    requires !For(id, t)
    ensures var m1 := Feed(acfg, m, t);
              id in m1.frames ==> id in m.frames && m1.frames[id].pieces == m.frames[id].pieces
  {
    hide Judge, TimedOut;
  }

  lemma {:induction false} HeadlessNeverDelivers(acfg: Config, m: Model, id: FrameId, ts: seq<Traffic>)
    requires Headless(m, id)
    requires forall i :: 0 <= i < |ts| && For(id, ts[i]) ==> ts[i].c.piece.start > 0
    ensures FramesFor(acfg, m, id, ts) == []
    decreases |ts|
  {
    hide Process, EndPacket, Headless;
    if ts != [] {
      if For(id, ts[0]) {
        HeadlessArrive(acfg, m, ts[0].c);
      } else {
        HeadlessOther(acfg, m, id, ts[0]);
      }
      HeadlessNeverDelivers(acfg, Feed(acfg, m, ts[0]), id, ts[1..]);
    }
  }

  /** The first piece of the next frame collides with what the receiver holds of the cancelled one. */
  lemma CollisionDrops(cfg: SendConfig, acfg: Config, m: Model, id: FrameId, frame: seq<Byte>, used: nat,
                       next: seq<Byte>, outUsed: nat)
    requires Enough(cfg, acfg) && Holding(cfg, m, id, frame, used) && 0 < used < |frame| && |next| <= cfg.inputMtu
    requires OutAvail(cfg, outUsed) > 0
    ensures Process(acfg, m, Chunk(id, NextPiece(cfg, next, 0, outUsed))) == (Drop(m, id), None)
  {
    var p := NextPiece(cfg, next, 0, outUsed);
    var ps := m.frames[id].pieces;
    assert Ready(cfg, m, id, frame, used);
    assert !TimedOut(acfg, m, id);
    assert Covered(ps, 0);
    var i :| 0 <= i < |ps| && Covers(ps[i], 0);
    assert |p.data| > 0 ==> Overlap(ps[i], p);
    assert |p.data| == 0 ==> p.last && p.End() == 0 && ps[i].End() > 0;
    assert !Fits(ps, p);
  }

  /**
   * Cancelling is harmless only while nothing of the frame is written (the event Withdraw above). After that the next
   * frame goes out under the same id, its first chunk collides with what the receiver holds, and the frame is lost:
   * nothing that arrives for this id until a chunk starts at 0 again is ever delivered.
   */
  lemma LateCancelLosesNextFrame(cfg: SendConfig, acfg: Config, m: Model, id: FrameId, frame: seq<Byte>, used: nat,
                                 next: seq<Byte>, outUsed: nat, ts: seq<Traffic>)
    requires Enough(cfg, acfg) && Holding(cfg, m, id, frame, used) && 0 < used < |frame| && |next| <= cfg.inputMtu
    requires OutAvail(cfg, outUsed) > 0
    requires ts != [] && ts[0] == Arrive(Chunk(id, NextPiece(cfg, next, 0, outUsed)))
    requires forall i :: 1 <= i < |ts| && For(id, ts[i]) ==> ts[i].c.piece.start > 0
    ensures FramesFor(acfg, m, id, ts) == []
  {
    CollisionDrops(cfg, acfg, m, id, frame, used, next, outUsed);
    HeadlessNeverDelivers(acfg, Drop(m, id), id, ts[1..]);
  }

  lemma {:induction false} PieceListed(id: FrameId, ts: seq<Traffic>, i: nat)
    requires i < |ts| && For(id, ts[i])
    ensures ts[i].c.piece in PiecesFor(id, ts)
    decreases i
  {
    if i > 0 {
      PieceListed(id, ts[1..], i - 1);
    }
  }

  lemma SplitFirst(cfg: SendConfig, frame: seq<Byte>, outUsed: nat)
    requires SendConfigOk(cfg) && OutAvail(cfg, outUsed) > 0
    ensures Split(cfg, frame, 0, outUsed)[0] == NextPiece(cfg, frame, 0, outUsed)
  {
    hide NextPiece;
  }

  /** Of the chunks of a frame only the first starts at 0. */
  lemma SplitStarts(cfg: SendConfig, frame: seq<Byte>, outUsed: nat, p: Piece)
    requires SendConfigOk(cfg) && OutAvail(cfg, outUsed) > 0
    ensures Split(cfg, frame, 0, outUsed)[0] == NextPiece(cfg, frame, 0, outUsed)
    ensures p in Split(cfg, frame, 0, outUsed)[1..] ==> p.start > 0
  {
    SplitChain(cfg, frame, 0, outUsed);
    var ps := Split(cfg, frame, 0, outUsed);
    SplitFirst(cfg, frame, outUsed);
    if p in ps[1..] {
      hide Split, NextPiece;
      var j :| 0 <= j < |ps| - 1 && ps[1..][j] == p;
      ChainOrdered(frame, ps, 0, 0, j + 1);
    }
  }

  /**
   * Exactly when cancelling is harmless: the frame sent after a cancelled one, under the same id, is delivered if and
   * only if nothing of the cancelled frame had been written.
   */
  lemma CancelHarmlessIff(cfg: SendConfig, acfg: Config, m: Model, id: FrameId, frame: seq<Byte>, used: nat,
                          next: seq<Byte>, outUsed: nat, ts: seq<Traffic>)
    requires Enough(cfg, acfg) && Ready(cfg, m, id, frame, used) && (used == 0 || used < |frame|)
    requires |next| <= cfg.inputMtu
    requires OutAvail(cfg, outUsed) > 0 && |Split(cfg, next, 0, outUsed)| <= acfg.numChunks
    requires ts != [] && For(id, ts[0]) && PiecesFor(id, ts) == Split(cfg, next, 0, outUsed)
    requires Undisturbed(acfg, m, id, ts)
    ensures FramesFor(acfg, m, id, ts) == [next] <==> used == 0
  {
    hide FramesFor, Undisturbed, Split, NextPiece;
    var qs := Split(cfg, next, 0, outUsed);
    if used == 0 {
      SenderSplits(cfg, next, outUsed);
      AnyOrder(acfg, m, id, next, qs, 0, ts);
    } else {
      var rest := PiecesFor(id, ts[1..]);
      assert qs == [ts[0].c.piece] + rest && qs[1..] == rest;
      SplitStarts(cfg, next, outUsed, ts[0].c.piece);
      forall i | 1 <= i < |ts| && For(id, ts[i])
        ensures ts[i].c.piece.start > 0
      {
        assert ts[1..][i - 1] == ts[i];
        PieceListed(id, ts[1..], i - 1);
        SplitStarts(cfg, next, outUsed, ts[i].c.piece);
      }
      LateCancelLosesNextFrame(cfg, acfg, m, id, frame, used, next, outUsed, ts);
    }
  }

  // ---- over whole runs ----

  /** What the pieces of `ps` after the first look like: none of them starts a frame. */
  ghost predicate RestLater(ps: seq<Piece>) {
    forall i :: 1 <= i < |ps| ==> ps[i].start > 0
  }

  lemma WriteStarts(cfg: SendConfig, frame: seq<Byte>, used: nat, outUsed: nat)
    requires SendConfigOk(cfg) && used <= |frame| && (used > 0 ==> used < |frame|) && OutAvail(cfg, outUsed) > 0
    ensures var ps := Write(cfg, frame, used, outUsed); RestLater(ps) && ps[0] == NextPiece(cfg, frame, used, outUsed)
  {
    hide NextPiece;
    var ps := Write(cfg, frame, used, outUsed);
    WriteChain(cfg, frame, used, outUsed);
    hide Write;
    forall i | 1 <= i < |ps| ensures ps[i].start > 0 {
      ChainOrdered(frame, ps, used, 0, i);
    }
  }

  lemma {:induction false} HeadlessPieces(acfg: Config, m: Model, id: FrameId, ps: seq<Piece>)
    requires Headless(m, id) && forall i :: 0 <= i < |ps| ==> ps[i].start > 0
    ensures var (m1, fs) := ProcessAll(acfg, m, Label(id, ps)); fs == [] && Headless(m1, id)
    decreases |ps|
  {
    hide Process, Headless, Label;
    if ps == [] {
      assert Label(id, ps) == [];
      ProcessNothing(acfg, m);
    } else {
      HeadlessArrive(acfg, m, Chunk(id, ps[0]));
      HeadlessPieces(acfg, Process(acfg, m, Chunk(id, ps[0])).0, id, ps[1..]);
      assert [ps[0]] + ps[1..] == ps;
      LabelSplit(id, ps[0], ps[1..]);
      ProcessCons(acfg, m, Chunk(id, ps[0]), Label(id, ps[1..]));
    }
  }

  lemma DeliveredGone(acfg: Config, m: Model, c: Chunk)
    requires Process(acfg, m, c).1.Some?
    ensures Headless(Process(acfg, m, c).0, c.id)
  {
  }

  /** The pieces of one call of write_chunks deliver at most one frame, whatever the receiver holds. */
  lemma {:induction false} AtMostOne(acfg: Config, m: Model, id: FrameId, ps: seq<Piece>)
    requires RestLater(ps)
    ensures var (m1, fs) := ProcessAll(acfg, m, Label(id, ps)); |fs| <= 1 && (fs != [] ==> Headless(m1, id))
    decreases |ps|
  {
    hide Process, Headless, Label;
    if ps == [] {
      assert Label(id, ps) == [];
      ProcessNothing(acfg, m);
    } else {
      var (m1, o) := Process(acfg, m, Chunk(id, ps[0]));
      assert [ps[0]] + ps[1..] == ps;
      LabelSplit(id, ps[0], ps[1..]);
      ProcessCons(acfg, m, Chunk(id, ps[0]), Label(id, ps[1..]));
      if o.Some? {
        DeliveredGone(acfg, m, Chunk(id, ps[0]));
        HeadlessPieces(acfg, m1, id, ps[1..]);
      } else {
        AtMostOne(acfg, m1, id, ps[1..]);
      }
    }
  }

  /** How many frames the receiver will have once the pending chunks reach it. */
  ghost function Due(acfg: Config, x: System): nat {
    |x.got| + |ProcessAll(acfg, x.m, Pending(x.s)).1|
  }

  /** A frame has been cancelled after `used` bytes of it, and nothing of another one has been written since. */
  ghost predicate Stale(cfg: SendConfig, x: System, base: seq<seq<Byte>>, id: FrameId, frame: seq<Byte>, used: nat) {
    && x.s.frameId == id && x.got == base && x.sent == base + Unwritten(x.s) && Pending(x.s) == []
    && (x.s.input.Some? ==> x.s.input.value.used == 0)
    && Holding(cfg, x.m, id, frame, used)
  }

  /** One frame is lost for good: those that have come or can come through are fewer than those sent. */
  ghost predicate Lost(acfg: Config, x: System, base: seq<seq<Byte>>) {
    && |base| <= |x.got|
    && (if x.s.input.Some? && x.s.input.value.used > 0
        then Due(acfg, x) < |x.sent| && (Due(acfg, x) + 1 < |x.sent| || Headless(x.m, x.s.frameId))
        else Due(acfg, x) + |Unwritten(x.s)| < |x.sent|)
  }

  lemma HeadlessTick(acfg: Config, m: Model, id: FrameId, purge: bool)
    requires Headless(m, id)
    ensures Headless(EndPacket(acfg, m, purge), id)
  {
    HeadlessOther(acfg, m, id, Tick(purge));
  }

  /** Input and output are both there, as write_chunks demands. */
  ghost predicate Writing(cfg: SendConfig, s: Sender) {
    && s.frameId < TWO_16 && s.input.Some? && s.out.Some?
    && |s.input.value.frame| <= cfg.inputMtu && s.input.value.used <= |s.input.value.frame|
    && (s.input.value.used > 0 ==> s.input.value.used < |s.input.value.frame| && s.out.value == [])
    && OutAvail(cfg, Fill(s.out.value)) > 0 && forall c :: c in s.out.value ==> WireOk(c)
  }

  /** The pieces write_chunks adds, and what they do at a receiver that has had the pending ones. */
  ghost function Added(cfg: SendConfig, acfg: Config, x: System): (Model, seq<seq<Byte>>)
    requires SendConfigOk(cfg) && Writing(cfg, x.s)
  {
    var ps := Write(cfg, x.s.input.value.frame, x.s.input.value.used, Fill(x.s.out.value));
    ProcessAll(acfg, ProcessAll(acfg, x.m, x.s.out.value).0, Label(x.s.frameId, ps))
  }

  ghost function AfterWrite(cfg: SendConfig, acfg: Config, x: System, purge: bool): System
    requires SendConfigOk(cfg) && Writing(cfg, x.s)
  {
    var (s1, eff) := WriteChunks(cfg, x.s);
    var (m1, fs) := Receive(acfg, x.m, eff.packet, purge);
    System(s1, m1, x.sent, x.got + fs)
  }

  lemma WriteLost(cfg: SendConfig, acfg: Config, x: System, purge: bool, base: seq<seq<Byte>>)
    requires SendConfigOk(cfg) && Writing(cfg, x.s) && |base| <= |x.got|
    requires var (m2, gs) := Added(cfg, acfg, x); var n := Due(acfg, x) + |gs|;
             n < |x.sent| && (n + 1 < |x.sent| || Headless(m2, x.s.frameId))
    ensures Lost(acfg, AfterWrite(cfg, acfg, x, purge), base)
  {
    hide Write, Size, EndPacket, ProcessAll, Label, SenderOk, EncodeAll, ParseAll, Headless, WireOk;
    var frame, used, out, id := x.s.input.value.frame, x.s.input.value.used, x.s.out.value, x.s.frameId;
    WriteChunksKeeps(cfg, x.s);
    WriteFacts(cfg, frame, used, Fill(out));
    var ps := Write(cfg, frame, used, Fill(out));
    ProcessAppend(acfg, x.m, out, Label(id, ps));
    var (s1, eff) := WriteChunks(cfg, x.s);
    ParseEncodeAllIf(out + Label(id, ps), eff.packet);
    var y := AfterWrite(cfg, acfg, x, purge);
    ProcessNothing(acfg, y.m);
    assert Due(acfg, y) == Due(acfg, x) + |Added(cfg, acfg, x).1|;
    if Headless(Added(cfg, acfg, x).0, id) {
      HeadlessTick(acfg, Added(cfg, acfg, x).0, id, purge);
    }
  }

  lemma WriteWhileLost(cfg: SendConfig, acfg: Config, x: System, purge: bool, base: seq<seq<Byte>>)
    requires SendConfigOk(cfg) && Writing(cfg, x.s) && Lost(acfg, x, base)
    ensures Lost(acfg, AfterWrite(cfg, acfg, x, purge), base)
  {
    hide Write, ProcessAll, Label, Headless, WireOk, AfterWrite, NextPiece;
    var frame, used, out, id := x.s.input.value.frame, x.s.input.value.used, x.s.out.value, x.s.frameId;
    var ps := Write(cfg, frame, used, Fill(out));
    WriteStarts(cfg, frame, used, Fill(out));
    AtMostOne(acfg, ProcessAll(acfg, x.m, out).0, id, ps);
    if used > 0 && Headless(x.m, id) {
      ProcessNothing(acfg, x.m);
      HeadlessPieces(acfg, x.m, id, ps);
    }
    WriteLost(cfg, acfg, x, purge, base);
  }

  lemma WriteWhileStale(cfg: SendConfig, acfg: Config, x: System, purge: bool, base: seq<seq<Byte>>, id: FrameId,
                        frame: seq<Byte>, used: nat)
    requires Enough(cfg, acfg) && Writing(cfg, x.s) && Stale(cfg, x, base, id, frame, used) && 0 < used < |frame|
    ensures Lost(acfg, AfterWrite(cfg, acfg, x, purge), base)
  {
    hide Write, ProcessAll, Label, WireOk, AfterWrite, NextPiece, Holding, Process;
    FillNone();
    ProcessNothing(acfg, x.m);
    var next := x.s.input.value.frame;
    var ps := Write(cfg, next, 0, 0);
    WriteStarts(cfg, next, 0, 0);
    CollisionDrops(cfg, acfg, x.m, id, frame, used, next, 0);
    HeadlessPieces(acfg, Drop(x.m, id), id, ps[1..]);
    assert [ps[0]] + ps[1..] == ps;
    LabelSplit(id, ps[0], ps[1..]);
    ProcessCons(acfg, x.m, Chunk(id, ps[0]), Label(id, ps[1..]));
    WriteLost(cfg, acfg, x, purge, base);
  }

  lemma StepWhileLost(cfg: SendConfig, acfg: Config, x: System, e: Event, base: seq<seq<Byte>>)
    requires SendConfigOk(cfg) && SenderOk(cfg, x.s) && Enabled(cfg, x, e) && Lost(acfg, x, base)
    ensures Lost(acfg, Step(cfg, acfg, x, e), base)
  {
    hide ProcessAll, WriteChunks, WireOk, Headless, EndPacket, ParseAll, EncodeAll;
    FillNone();
    match e {
      case Offer(frame, purge) =>
        if x.s.out.Some? {
          var x1 := x.(s := x.s.(input := Some(Input(frame, 0))), sent := x.sent + [frame]);
          WriteWhileLost(cfg, acfg, x1, purge, base);
        }
      case Room(purge) =>
        if x.s.input.Some? {
          WriteWhileLost(cfg, acfg, x.(s := x.s.(out := Some([]))), purge, base);
        }
      case Expire(purge) =>
        ParseEncodeAll(x.s.out.value);
        ProcessNothing(acfg, Step(cfg, acfg, x, e).m);
      case Withdraw(_) =>
    }
  }

  /** The latency timer runs only while the output packet has chunks. */
  predicate TimerRuns(s: Sender, e: Event) {
    e.Expire? ==> Pending(s) != []
  }

  lemma StepWhileStale(cfg: SendConfig, acfg: Config, x: System, e: Event, base: seq<seq<Byte>>, id: FrameId,
                       frame: seq<Byte>, used: nat)
    requires Enough(cfg, acfg) && SenderOk(cfg, x.s) && Enabled(cfg, x, e) && TimerRuns(x.s, e)
    requires Stale(cfg, x, base, id, frame, used) && 0 < used < |frame|
    ensures Stale(cfg, Step(cfg, acfg, x, e), base, id, frame, used) || Lost(acfg, Step(cfg, acfg, x, e), base)
  {
    hide ProcessAll, WriteChunks, WireOk, Headless, EndPacket, ParseAll, EncodeAll, Holding, Lost;
    FillNone();
    assert x.got + [] == x.got && base + [] == base;
    match e {
      case Offer(next, purge) =>
        var x1 := x.(s := x.s.(input := Some(Input(next, 0))), sent := x.sent + [next]);
        if x.s.out.Some? {
          WriteWhileStale(cfg, acfg, x1, purge, base, id, frame, used);
        }
      case Room(purge) =>
        if x.s.input.Some? {
          WriteWhileStale(cfg, acfg, x.(s := x.s.(out := Some([]))), purge, base, id, frame, used);
        }
      case _ =>
    }
  }

  ghost predicate Timely(cfg: SendConfig, acfg: Config, x: System, es: seq<Event>)
    requires CanRun(cfg, acfg, x, es)
    decreases |es|
  {
    es != [] ==> TimerRuns(x.s, es[0]) && Timely(cfg, acfg, Step(cfg, acfg, x, es[0]), es[1..])
  }

  lemma {:induction false} RunWhileLost(cfg: SendConfig, acfg: Config, x: System, es: seq<Event>, base: seq<seq<Byte>>)
    requires SendConfigOk(cfg) && CanRun(cfg, acfg, x, es) && Lost(acfg, x, base)
    ensures Lost(acfg, Run(cfg, acfg, x, es), base)
    decreases |es|
  {
    hide Step, Lost, SenderOk;
    if es != [] {
      StepWhileLost(cfg, acfg, x, es[0], base);
      RunWhileLost(cfg, acfg, Step(cfg, acfg, x, es[0]), es[1..], base);
    }
  }

  lemma {:induction false} RunWhileStale(cfg: SendConfig, acfg: Config, x: System, es: seq<Event>, base: seq<seq<Byte>>,
                                         id: FrameId, frame: seq<Byte>, used: nat)
    requires Enough(cfg, acfg) && CanRun(cfg, acfg, x, es) && Timely(cfg, acfg, x, es)
    requires Stale(cfg, x, base, id, frame, used) && 0 < used < |frame|
    ensures Stale(cfg, Run(cfg, acfg, x, es), base, id, frame, used) || Lost(acfg, Run(cfg, acfg, x, es), base)
    decreases |es|
  {
    hide Step, Lost, Stale, SenderOk;
    if es != [] {
      StepWhileStale(cfg, acfg, x, es[0], base, id, frame, used);
      var y := Step(cfg, acfg, x, es[0]);
      if Lost(acfg, y, base) {
        RunWhileLost(cfg, acfg, y, es[1..], base);
      } else {
        RunWhileStale(cfg, acfg, y, es[1..], base, id, frame, used);
      }
    }
  }

  /** The frame being written is cancelled, however much of it is written. */
  function Cancelled(x: System): System
    requires x.s.input.Some? && x.sent != []
  {
    x.(s := Cancel(x.s).0, sent := x.sent[..|x.sent| - 1])
  }

  ghost predicate Idle(x: System) {
    x.s.input == None && Pending(x.s) == []
  }

  lemma CancelEarly(cfg: SendConfig, acfg: Config, x: System, es: seq<Event>)
    requires Enough(cfg, acfg) && SystemInv(cfg, acfg, x) && x.s.input.Some? && x.s.input.value.used == 0
    requires x.sent != [] && CanRun(cfg, acfg, Cancelled(x), es) && Idle(Run(cfg, acfg, Cancelled(x), es))
    ensures var z := Run(cfg, acfg, Cancelled(x), es); z.got == z.sent
  {
    hide SenderOk, Quiet, ProcessAll;
    WithdrawKeeps(cfg, acfg, x, Withdraw(false));
    assert x.got + [] == x.got;
    assert Step(cfg, acfg, x, Withdraw(false)) == Cancelled(x);
    RunKeeps(cfg, acfg, Cancelled(x), es);
    var z := Run(cfg, acfg, Cancelled(x), es);
    ProcessNothing(acfg, z.m);
    assert z.got + [] + [] == z.got;
  }

  lemma CancelLate(cfg: SendConfig, acfg: Config, x: System, es: seq<Event>)
    requires Enough(cfg, acfg) && SystemInv(cfg, acfg, x) && x.s.input.Some? && x.s.input.value.used > 0
    requires x.sent != [] && CanRun(cfg, acfg, Cancelled(x), es) && Timely(cfg, acfg, Cancelled(x), es)
    ensures var z := Run(cfg, acfg, Cancelled(x), es);
            Idle(z) ==> if z.sent == Cancelled(x).sent then z.got == z.sent else |z.got| < |z.sent|
  {
    hide Holding, ProcessAll, CanRun, Run, Timely;
    var y := Cancelled(x);
    var frame, used, id, base := x.s.input.value.frame, x.s.input.value.used, x.s.frameId, x.got;
    ProcessNothing(acfg, x.m);
    assert x.sent == x.got + [] + [frame];
    assert y.sent == base && base + [] == base;
    assert Stale(cfg, y, base, id, frame, used);
    RunWhileStale(cfg, acfg, y, es, base, id, frame, used);
    var z := Run(cfg, acfg, y, es);
    ProcessNothing(acfg, z.m);
  }

  /**
   * Exactly when cancelling is harmless, over whole runs: a frame is cancelled anywhere in a run, the run goes on
   * with any frames and any timing, and ends with nothing waiting at the sender. Then everything sent has been
   * delivered if and only if nothing of the cancelled frame had been written or nothing was sent after it.
   */
  lemma CancelRunIff(cfg: SendConfig, acfg: Config, es1: seq<Event>, es2: seq<Event>)
    requires Enough(cfg, acfg) && CanRun(cfg, acfg, SystemInit, es1)
    requires var x := Run(cfg, acfg, SystemInit, es1);
             && x.s.input.Some? && x.sent != []
             && CanRun(cfg, acfg, Cancelled(x), es2) && Timely(cfg, acfg, Cancelled(x), es2)
             && Idle(Run(cfg, acfg, Cancelled(x), es2))
    ensures var x := Run(cfg, acfg, SystemInit, es1);
            var z := Run(cfg, acfg, Cancelled(x), es2);
            z.got == z.sent <==> x.s.input.value.used == 0 || z.sent == Cancelled(x).sent
  {
    hide SystemInv, CanRun, Timely, Run;
    InitKeeps(cfg, acfg);
    RunKeeps(cfg, acfg, SystemInit, es1);
    var x := Run(cfg, acfg, SystemInit, es1);
    if x.s.input.value.used == 0 {
      CancelEarly(cfg, acfg, x, es2);
    } else {
      CancelLate(cfg, acfg, x, es2);
    }
  }

  // ---- the loss does happen ----

  const TWO_PACKETS := SendConfig(2, 8, -1, false)
  const SMALL := Config(2, 4, 3)
  const HALF_SENT: seq<Event> := [Offer([1, 2], false), Room(false)]
  const NEXT_SENT: seq<Event> := [Offer([3], false), Room(false)]

  /** Two bytes offered where a packet takes one: after the first packet one byte is written. */
  lemma HalfSent()
    ensures CanRun(TWO_PACKETS, SMALL, SystemInit, HALF_SENT)
    ensures var x := Run(TWO_PACKETS, SMALL, SystemInit, HALF_SENT);
            x.s == Sender(Some(Input([1, 2], 1)), None, 0) && x.sent == [[1, 2]]
  {
  }

  /** The frame after it goes out whole. */
  lemma NextSent(y: System)
    requires y.s == Sender(None, None, 0) && y.sent == []
    ensures CanRun(TWO_PACKETS, SMALL, y, NEXT_SENT) && Timely(TWO_PACKETS, SMALL, y, NEXT_SENT)
    ensures Idle(Run(TWO_PACKETS, SMALL, y, NEXT_SENT)) && Run(TWO_PACKETS, SMALL, y, NEXT_SENT).sent == [[3]]
  {
  }

  /** A run from the start in which the frame sent after a cancelled one never arrives. */
  lemma LossReached()
    ensures CanRun(TWO_PACKETS, SMALL, SystemInit, HALF_SENT)
    ensures var x := Run(TWO_PACKETS, SMALL, SystemInit, HALF_SENT);
            && x.s.input.Some? && x.sent != [] && CanRun(TWO_PACKETS, SMALL, Cancelled(x), NEXT_SENT)
            && var z := Run(TWO_PACKETS, SMALL, Cancelled(x), NEXT_SENT);
               Idle(z) && z.sent == [[3]] && z.got == []
  {
    hide CanRun, Timely, Run, Idle, SystemInv;
    HalfSent();
    assert MaxChunksForFrame(8, 2) == 3;
    assert Enough(TWO_PACKETS, SMALL);
    InitKeeps(TWO_PACKETS, SMALL);
    RunKeeps(TWO_PACKETS, SMALL, SystemInit, HALF_SENT);
    var x := Run(TWO_PACKETS, SMALL, SystemInit, HALF_SENT);
    NextSent(Cancelled(x));
    CancelLate(TWO_PACKETS, SMALL, x, NEXT_SENT);
  }
}
