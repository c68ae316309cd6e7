/**
 * What the conditions of the theorem about lossy runs are there for: runs in which frames are delivered that nobody
 * sent. And how a second cancellation can clear the way again.
 */
module FragmentNetCases {
  import opened Common
  import opened FragmentModel
  import opened FragmentDisassembler
  import opened FragmentEndToEnd
  import opened FragmentSlots
  import opened FragmentLoss
  import opened FragmentNet

  // ---- several cancellations ----

  lemma FirstRejected(acfg: Config, frame: seq<Byte>, ps: seq<Piece>, used: nat, p: Piece)
    requires Prefix(frame, ps, used) && used > 0 && p.start == 0 && (|p.data| > 0 || p.last)
    ensures Judge(acfg, ps, p).Reject?
  {
    assert Covered(ps, 0);
    var i :| 0 <= i < |ps| && Covers(ps[i], 0);
    assert |p.data| > 0 ==> Overlap(ps[i], p);
  }

  /**
   * A frame is cancelled when partly written, and the next one after its first chunk: that chunk has cleared what was
   * left of the first, so nothing stands in the way of the frame after them.
   */
  lemma SecondCancelClears(cfg: SendConfig, acfg: Config, frame: seq<Byte>, ps: seq<Piece>, used: nat, next: seq<Byte>,
                           outUsed: nat)
    requires Enough(cfg, acfg) && |frame| <= cfg.inputMtu && InOrder(cfg, frame, ps, used) && ps != []
    requires !Whole(frame, ps, used) && OutAvail(cfg, outUsed) > 0
    ensures Replay(acfg, ps).0 != []
    ensures Replay(acfg, ps + [NextPiece(cfg, next, 0, outUsed)]) == ([], [])
  {
    hide Replay, Judge;
    var p := NextPiece(cfg, next, 0, outUsed);
    ReplayNone(acfg);
    assert [] + ps == ps;
    CleanReplay(cfg, acfg, [], frame, ps, used);
    FirstRejected(acfg, frame, ps, used, p);
    ReplayNext(acfg, ps, p);
  }

  // ---- runs with packets of one byte ----

  function OneByte(mtu: nat): SendConfig { SendConfig(mtu, 8, -1, false) }

  function OnePiece(frame: seq<Byte>, used: nat): Piece
    requires used <= |frame|
  {
    Piece(used, frame[used..Min(used + 1, |frame|)], used + 1 >= |frame|)
  }

  lemma OneWrite(mtu: nat, frame: seq<Byte>, used: nat)
    requires used < |frame| || (frame == [] && used == 0)
    ensures Write(OneByte(mtu), frame, used, 0) == [OnePiece(frame, used)]
    ensures Size([OnePiece(frame, used)]) == HEADER_LEN + |OnePiece(frame, used).data|
  {
    assert Size([OnePiece(frame, used)]) == HEADER_LEN + |OnePiece(frame, used).data| + Size([]);
  }

  /** `es` take `x` to `y`. */
  ghost predicate Leads(cfg: SendConfig, acfg: Config, x: Net, es: seq<NetEvent>, y: Net) {
    NetCanRun(cfg, acfg, x, es) && NetRun(cfg, acfg, x, es) == y
  }

  lemma LeadsOne(cfg: SendConfig, acfg: Config, x: Net, e: NetEvent)
    requires NetEnabled(cfg, x, e)
    ensures Leads(cfg, acfg, x, [e], NetStep(cfg, acfg, x, e))
  {
    hide NetStep, NetEnabled;
    var y := NetStep(cfg, acfg, x, e);
    assert [e][1..] == [];
    assert NetCanRun(cfg, acfg, y, []) && NetRun(cfg, acfg, y, []) == y;
  }

  lemma {:induction false} LeadsOn(cfg: SendConfig, acfg: Config, x: Net, a: seq<NetEvent>, y: Net, b: seq<NetEvent>,
                                   z: Net)
    requires Leads(cfg, acfg, x, a, y) && Leads(cfg, acfg, y, b, z)
    ensures Leads(cfg, acfg, x, a + b, z)
    decreases |a|
  {
    hide NetStep, NetEnabled;
    if a == [] {
      assert a + b == b;
    } else {
      LeadsOn(cfg, acfg, NetStep(cfg, acfg, x, a[0]), a[1..], y, b, z);
      assert (a + b)[1..] == a[1..] + b;
    }
  }

  /** A frame is offered while the sender has neither a frame nor a packet. */
  lemma OfferStep(mtu: nat, acfg: Config, x: Net, frame: seq<Byte>)
    requires mtu < TWO_16 && x.s.input.None? && x.s.out.None? && x.s.frameId < TWO_16 && |frame| <= mtu
    ensures var e := Give(Offer(frame, false), false);
      && NetEnabled(OneByte(mtu), x, e)
      && NetStep(OneByte(mtu), acfg, x, e) ==
           x.(s := x.s.(input := Some(Input(frame, 0))), sent := x.sent + [frame])
  {
    assert x.open + Tag(x.slot, []) == x.open;
  }

  /** The sender after a packet with one piece of its frame. */
  function AfterPiece(s: Sender, frame: seq<Byte>, used: nat): Sender {
    if used + 1 >= |frame| then Sender(None, None, (s.frameId + 1) % TWO_16)
    else s.(input := Some(Input(frame, used + 1)))
  }

  lemma RoomGives(mtu: nat, x: Net, frame: seq<Byte>, used: nat)
    requires mtu < TWO_16 && x.s == Sender(Some(Input(frame, used)), None, x.s.frameId) && x.s.frameId < TWO_16
    requires |frame| <= mtu && (used < |frame| || (frame == [] && used == 0)) && x.open == []
    ensures var e := Room(false); var cfg := OneByte(mtu); var p := OnePiece(frame, used);
      && NetEnabled(cfg, x, Give(e, true)) && NetEnabled(cfg, x, Give(e, false))
      && var (x1, packet) := Given(cfg, x, e);
         && packet == Some([Chunk(x.s.frameId, p)]) && x1.open == [Tagged(x.slot, p)]
         && x1.s == AfterPiece(x.s, frame, used) && x1.sent == x.sent
         && x1.slot == (if used + 1 >= |frame| then x.slot + 1 else x.slot)
         && x1.m == x.m && x1.got == x.got && x1.hist == x.hist && (Uncancelled(x) ==> Uncancelled(x1))
  {
    FillNone();
    OneWrite(mtu, frame, used);
    hide Write, Size;
    var p := OnePiece(frame, used);
    assert [] + Label(x.s.frameId, [p]) == [Chunk(x.s.frameId, p)];
    assert [] + Tag(x.slot, [p]) == [Tagged(x.slot, p)];
  }

  /** The next packet is lost: only the sender goes on. */
  lemma LoseStep(mtu: nat, acfg: Config, x: Net, frame: seq<Byte>, used: nat)
    requires mtu < TWO_16 && x.s == Sender(Some(Input(frame, used)), None, x.s.frameId) && x.s.frameId < TWO_16
    requires |frame| <= mtu && (used < |frame| || (frame == [] && used == 0)) && x.open == []
    ensures var e := Give(Room(false), true); var cfg := OneByte(mtu);
      && NetEnabled(cfg, x, e)
      && var y := NetStep(cfg, acfg, x, e);
         && y.s == AfterPiece(x.s, frame, used) && y.sent == x.sent && y.open == []
         && y.slot == (if used + 1 >= |frame| then x.slot + 1 else x.slot)
         && y.m == x.m && y.got == x.got && y.hist == x.hist && (Uncancelled(x) ==> Uncancelled(y))
  {
    hide Given, NetEnabled, OneByte;
    RoomGives(mtu, x, frame, used);
  }

  /** The next packet arrives. */
  lemma ArriveStep(mtu: nat, acfg: Config, x: Net, frame: seq<Byte>, used: nat)
    requires mtu < TWO_16 && x.s == Sender(Some(Input(frame, used)), None, x.s.frameId) && x.s.frameId < TWO_16
    requires |frame| <= mtu && (used < |frame| || (frame == [] && used == 0)) && x.open == []
    ensures var e := Give(Room(false), false); var cfg := OneByte(mtu); var p := OnePiece(frame, used);
      && NetEnabled(cfg, x, e)
      && var y := NetStep(cfg, acfg, x, e); var (m1, o) := Process(acfg, x.m, Chunk(x.s.frameId, p));
         && y.s == AfterPiece(x.s, frame, used) && y.sent == x.sent && y.open == []
         && y.slot == (if used + 1 >= |frame| then x.slot + 1 else x.slot)
         && y.m == m1.(now := m1.now + 1) && y.got == x.got + Emit(o)
         && y.hist == x.hist + [Stamped(x.m.now, x.slot, p)] && (Uncancelled(x) ==> Uncancelled(y))
  {
    hide Given, NetEnabled, OneByte, Process, EncodeAll, ParseAll, EncodeChunk;
    RoomGives(mtu, x, frame, used);
    var p := OnePiece(frame, used);
    var c := Chunk(x.s.frameId, p);
    ParseEncodeAll([c]);
    ProcessOne(acfg, x.m, c);
    assert Stamp(x.m.now, [Tagged(x.slot, p)]) == [Stamped(x.m.now, x.slot, p)];
  }

  // ---- an id that comes round too soon ----

  const FEW := Config(2, 4, 3)

  /** A frame without data, of which the only packet is lost. */
  const LOST_FRAME: seq<NetEvent> := [Give(Offer([], false), false), Give(Room(false), true)]

  function LostFrames(n: nat): seq<NetEvent> {
    if n == 0 then [] else LostFrames(n - 1) + LOST_FRAME
  }

  /** The sender has moved on by `n` lost frames, and the receiver has noticed nothing. */
  ghost predicate MovedOn(x: Net, y: Net, n: nat) {
    && y.s == Sender(None, None, (x.s.frameId + n) % TWO_16) && y.open == []
    && y.m == x.m && y.got == x.got && (Uncancelled(x) ==> Uncancelled(y))
    && |y.sent| == |x.sent| + n && x.sent <= y.sent && forall i :: |x.sent| <= i < |y.sent| ==> y.sent[i] == []
  }

  lemma LoseFrame(x: Net) returns (y: Net)
    requires x.s.input.None? && x.s.out.None? && x.s.frameId < TWO_16 && x.open == []
    ensures Leads(OneByte(2), FEW, x, LOST_FRAME, y) && MovedOn(x, y, 1)
  {
    hide NetStep, NetEnabled, Leads;
    var cfg := OneByte(2);
    OfferStep(2, FEW, x, []);
    LeadsOne(cfg, FEW, x, Give(Offer([], false), false));
    var x1 := NetStep(cfg, FEW, x, Give(Offer([], false), false));
    LoseStep(2, FEW, x1, [], 0);
    LeadsOne(cfg, FEW, x1, Give(Room(false), true));
    y := NetStep(cfg, FEW, x1, Give(Room(false), true));
    LeadsOn(cfg, FEW, x, [Give(Offer([], false), false)], x1, [Give(Room(false), true)], y);
    assert [Give(Offer([], false), false)] + [Give(Room(false), true)] == LOST_FRAME;
  }

  lemma {:induction false} LoseFrames(x: Net, n: nat) returns (y: Net)
    requires x.s.input.None? && x.s.out.None? && x.s.frameId < TWO_16 && x.open == []
    ensures Leads(OneByte(2), FEW, x, LostFrames(n), y) && MovedOn(x, y, n)
    decreases n
  {
    hide Leads, MovedOn;
    if n == 0 {
      y := x;
      NotMoved(OneByte(2), FEW, x);
    } else {
      var z := LoseFrames(x, n - 1);
      MovedIdle(x, z, n - 1);
      y := LoseFrame(z);
      LeadsOn(OneByte(2), FEW, x, LostFrames(n - 1), z, LOST_FRAME, y);
      MovedTwice(x, z, y, n - 1);
    }
  }

  lemma NotMoved(cfg: SendConfig, acfg: Config, x: Net)
    ensures Leads(cfg, acfg, x, [], x)
    ensures x.s.input.None? && x.s.out.None? && x.s.frameId < TWO_16 && x.open == [] ==> MovedOn(x, x, 0)
  {
  }

  lemma MovedIdle(x: Net, y: Net, n: nat)
    requires MovedOn(x, y, n)
    ensures y.s.input.None? && y.s.out.None? && y.s.frameId < TWO_16 && y.open == []
  {
  }

  lemma MovedTwice(x: Net, y: Net, z: Net, n: nat)
    requires MovedOn(x, y, n) && MovedOn(y, z, 1)
    ensures MovedOn(x, z, n + 1)
  {
    hide Uncancelled;
    assert ((x.s.frameId + n) % TWO_16 + 1) % TWO_16 == (x.s.frameId + n + 1) % TWO_16;
    forall i | |x.sent| <= i < |z.sent| ensures z.sent[i] == [] {
      if i < |y.sent| {
        assert z.sent[i] == y.sent[i];
      }
    }
  }

  /** The second half of the first frame is kept. */
  lemma HalfKept()
    ensures var (m, o) := Process(FEW, EmptyModel, Chunk(0, Piece(1, [2], true)));
      o == None && m.now == 0 && 0 in m.frames && m.frames[0] == Partial(0, [Piece(1, [2], true)])
  {
    var p := Piece(1, [2], true);
    ProcessStanding(FEW, EmptyModel, Chunk(0, p));
    assert [] + [p] == [p];
    assert Length([p]) == 2 && !Covered([p], 0);
    assert Judge(FEW, [], p) == Keep([p]);
  }

  /** It makes a frame with the first half of another. */
  lemma HalvesJoin()
    ensures Judge(FEW, [Piece(1, [2], true)], Piece(0, [3], false)) == Deliver([3, 2])
  {
    var a, b := Piece(1, [2], true), Piece(0, [3], false);
    var ps := [a] + [b];
    assert ps == [a, b] && ps[..1] == [a];
    assert Length(ps) == Length([a]) == 2;
    assert Covers(ps[1], 0) && Covers(ps[0], 1);
    assert ByteAt(ps, 0) == 3 && ByteAt(ps, 1) == ByteAt([a], 1) == 2;
    assert Assemble(ps, 2) == [3, 2];
  }

  /** One half of a frame arrives. */
  lemma HalfLost() returns (es: seq<NetEvent>, x: Net)
    ensures Leads(OneByte(2), FEW, NET_INIT, es, x)
    ensures x.s == Sender(None, None, 1) && x.open == [] && x.sent == [[1, 2]] && x.got == [] && Uncancelled(x)
    ensures x.m.now == 1 && 0 in x.m.frames && x.m.frames[0] == Partial(0, [Piece(1, [2], true)])
  {
    hide NetStep, NetEnabled, Leads, Process;
    var cfg := OneByte(2);
    var e1, e2, e3 := Give(Offer([1, 2], false), false), Give(Room(false), true), Give(Room(false), false);
    OfferStep(2, FEW, NET_INIT, [1, 2]);
    LeadsOne(cfg, FEW, NET_INIT, e1);
    var x1 := NetStep(cfg, FEW, NET_INIT, e1);
    LoseStep(2, FEW, x1, [1, 2], 0);
    LeadsOne(cfg, FEW, x1, e2);
    var x2 := NetStep(cfg, FEW, x1, e2);
    LeadsOn(cfg, FEW, NET_INIT, [e1], x1, [e2], x2);
    assert OnePiece([1, 2], 1) == Piece(1, [2], true);
    HalfKept();
    ArriveStep(2, FEW, x2, [1, 2], 1);
    LeadsOne(cfg, FEW, x2, e3);
    x := NetStep(cfg, FEW, x2, e3);
    LeadsOn(cfg, FEW, NET_INIT, [e1] + [e2], x2, [e3], x);
    es := [e1] + [e2] + [e3];
  }

  /**
   * After a loss of 65535 packets in a row the id comes round to the half of a frame that is still there: the receiver
   * delivers the first half of one frame with the second half of another, which nobody sent.
   */
  lemma IdComesRound() returns (es: seq<NetEvent>)
    ensures Enough(OneByte(2), FEW) && NetCanRun(OneByte(2), FEW, NET_INIT, es)
    ensures var x := NetRun(OneByte(2), FEW, NET_INIT, es);
      x.got == [[3, 2]] && [3, 2] !in x.sent && !Spaced(FEW, x.hist)
  {
    hide NetStep, NetEnabled, Leads, Process, Spaced, Judge;
    assert MaxChunksForFrame(8, 2) == 3;
    var cfg, e1, e2 := OneByte(2), Give(Offer([3, 4], false), false), Give(Room(false), false);
    var a, x := HalfLost();
    var y := LoseFrames(x, TWO_16 - 1);
    LeadsOn(cfg, FEW, NET_INIT, a, x, LostFrames(TWO_16 - 1), y);
    var b := a + LostFrames(TWO_16 - 1);
    OfferStep(2, FEW, y, [3, 4]);
    LeadsOne(cfg, FEW, y, e1);
    var y1 := NetStep(cfg, FEW, y, e1);
    LeadsOn(cfg, FEW, NET_INIT, b, y, [e1], y1);
    assert OnePiece([3, 4], 0) == Piece(0, [3], false);
    ProcessStanding(FEW, y1.m, Chunk(0, Piece(0, [3], false)));
    HalvesJoin();
    ArriveStep(2, FEW, y1, [3, 4], 0);
    LeadsOne(cfg, FEW, y1, e2);
    var z := NetStep(cfg, FEW, y1, e2);
    es := b + [e1] + [e2];
    LeadsOn(cfg, FEW, NET_INIT, b + [e1], y1, [e2], z);
    LeadsIs(cfg, FEW, NET_INIT, es, z);
    hide NetCanRun, NetRun, Uncancelled, Enough;
    assert z.got == [[3, 2]];
    assert forall i :: 0 <= i < |z.sent| ==> z.sent[i] == [1, 2] || z.sent[i] == [] || z.sent[i] == [3, 4];
    if Spaced(FEW, z.hist) {
      NotCancelledSeparate(z);
      NetSubsequence(cfg, FEW, es);
      DrawnFrom(z.got, z.sent);
    }
  }

  lemma LeadsIs(cfg: SendConfig, acfg: Config, x: Net, es: seq<NetEvent>, y: Net)
    requires Leads(cfg, acfg, x, es, y)
    ensures NetCanRun(cfg, acfg, x, es) && NetRun(cfg, acfg, x, es) == y
  {
  }

  lemma NotCancelledSeparate(x: Net)
    requires Uncancelled(x)
    ensures Separate(x)
  {
  }

  lemma DrawnFrom(got: seq<seq<Byte>>, sent: seq<seq<Byte>>)
    requires got != [] && exists at :: Drawn(got, sent, at)
    ensures got[0] in sent
  {
    var at :| Drawn(got, sent, at);
    assert sent[at[0]] == got[0];
  }

  // ---- losses and a cancellation in one slot ----

  const FOUR := Config(3, 4, 4)

  const LEFT_OVER := Piece(1, [2], false)
  const FIRST := Piece(0, [4], false)
  const LAST := Piece(2, [6], true)

  lemma MixedLengths()
    ensures Length([]) < 0 && Length([LEFT_OVER]) < 0 && Length([LEFT_OVER, FIRST]) < 0
    ensures Length([LEFT_OVER, FIRST, LAST]) == 3
  {
    assert [LEFT_OVER, FIRST][..1] == [LEFT_OVER] && [LEFT_OVER][..0] == [];
  }

  lemma MixedBytes()
    ensures Complete([LEFT_OVER, FIRST, LAST]) && Assemble([LEFT_OVER, FIRST, LAST], 3) == [4, 2, 6]
  {
    var ps := [LEFT_OVER, FIRST, LAST];
    MixedLengths();
    assert ps[..2] == [LEFT_OVER, FIRST] && [LEFT_OVER, FIRST][..1] == [LEFT_OVER];
    assert Covers(ps[1], 0) && Covers(ps[0], 1) && Covers(ps[2], 2);
    assert ByteAt([LEFT_OVER], 1) == 2 && ByteAt([LEFT_OVER, FIRST], 1) == 2 && ByteAt([LEFT_OVER, FIRST], 0) == 4;
    assert Assemble(ps, 3)[0] == 4 && Assemble(ps, 3)[1] == 2 && Assemble(ps, 3)[2] == 6;
  }

  lemma MixedJudged()
    ensures Judge(FOUR, [], LEFT_OVER) == Keep([LEFT_OVER])
    ensures Judge(FOUR, [LEFT_OVER], FIRST) == Keep([LEFT_OVER, FIRST])
    ensures Judge(FOUR, [LEFT_OVER, FIRST], LAST) == Deliver([4, 2, 6])
  {
    MixedLengths();
    MixedBytes();
    hide Length, Covered, Assemble;
    assert [] + [LEFT_OVER] == [LEFT_OVER] && [LEFT_OVER] + [FIRST] == [LEFT_OVER, FIRST];
    assert [LEFT_OVER, FIRST] + [LAST] == [LEFT_OVER, FIRST, LAST];
  }

  lemma MixedReplay()
    ensures Replay(FOUR, [LEFT_OVER, FIRST, LAST]) == ([], [[4, 2, 6]])
  {
    hide Replay, Judge;
    ReplayNone(FOUR);
    MixedJudged();
    assert [] + [LEFT_OVER] == [LEFT_OVER] && [LEFT_OVER] + [FIRST] == [LEFT_OVER, FIRST];
    assert [LEFT_OVER, FIRST] + [LAST] == [LEFT_OVER, FIRST, LAST];
    ReplayNext(FOUR, [], LEFT_OVER);
    assert Replay(FOUR, [LEFT_OVER]) == ([LEFT_OVER], []);
    ReplayNext(FOUR, [LEFT_OVER], FIRST);
    assert Replay(FOUR, [LEFT_OVER, FIRST]) == ([LEFT_OVER, FIRST], []);
    ReplayNext(FOUR, [LEFT_OVER, FIRST], LAST);
    assert [] + [[4, 2, 6]] == [[4, 2, 6]];
  }

  const MIXING: seq<NetEvent> :=
    [Give(Offer([1, 2, 3], false), false), Give(Room(false), true), Give(Room(false), false), Abort,
     Give(Offer([4, 5, 6], false), false), Give(Room(false), false), Give(Room(false), true), Give(Room(false), false)]

  /**
   * A frame of which the first packet is lost is cancelled, and the middle packet of the next one is lost as well:
   * what is left of the first fills the gap, and the receiver delivers a frame that nobody sent.
   */
  lemma CancelledMixes()
    ensures Enough(OneByte(3), FOUR) && NetCanRun(OneByte(3), FOUR, NET_INIT, MIXING)
    ensures var x := NetRun(OneByte(3), FOUR, NET_INIT, MIXING);
      x.sent == [[4, 5, 6]] && x.got == [[4, 2, 6]] && Spaced(FOUR, x.hist) && !Separate(x)
  {
    hide NetStep, NetEnabled, Process, Spaced, Judge, NetRun, NetCanRun, Separate;
    assert MaxChunksForFrame(8, 3) == 4;
    var x := MixingRun();
    OneSlotSpaced(FOUR, x.hist);
    SlotsAlone(OneByte(3), FOUR, MIXING);
    MixedFrames(x.hist);
    if Separate(x) {
      NetSubsequence(OneByte(3), FOUR, MIXING);
      DrawnFrom(x.got, x.sent);
    }
  }

  lemma OneSlotSpaced(acfg: Config, hist: seq<Stamped>)
    requires forall i :: 0 <= i < |hist| ==> hist[i].slot == 0
    ensures Spaced(acfg, hist)
  {
  }

  lemma {:induction false} MixedFrames(hist: seq<Stamped>)
    requires |hist| == 3 && forall i :: 0 <= i < |hist| ==> hist[i].slot == 0
    requires hist[0].piece == LEFT_OVER && hist[1].piece == FIRST && hist[2].piece == LAST
    ensures Frames(FOUR, hist, 2) == [[4, 2, 6]]
  {
    hide Replay;
    assert hist == [] + [hist[0]] + [hist[1]] + [hist[2]];
    PiecesNext([], hist[0], 0);
    PiecesNext([] + [hist[0]], hist[1], 0);
    PiecesNext([] + [hist[0]] + [hist[1]], hist[2], 0);
    assert PiecesIn(hist, 0) == [hist[0].piece, hist[1].piece, hist[2].piece];
    NoneIn(hist, 1);
    MixedReplay();
    ReplayNone(FOUR);
    assert Frames(FOUR, hist, 1) == Frames(FOUR, hist, 0) + Replay(FOUR, PiecesIn(hist, 0)).1;
  }

  lemma MixingRun() returns (x: Net)
    ensures Leads(OneByte(3), FOUR, NET_INIT, MIXING, x)
    ensures NetCanRun(OneByte(3), FOUR, NET_INIT, MIXING) && NetRun(OneByte(3), FOUR, NET_INIT, MIXING) == x
    ensures x.sent == [[4, 5, 6]] && x.slot == 1 && |x.hist| == 3
    ensures forall i :: 0 <= i < |x.hist| ==> x.hist[i].slot == 0
    ensures x.hist[0].piece == LEFT_OVER && x.hist[1].piece == FIRST && x.hist[2].piece == LAST
  {
    hide NetStep, NetEnabled, Process, Leads;
    var x4 := MixingHalf();
    x := MixingRest(x4);
    LeadsOn(OneByte(3), FOUR, NET_INIT, MIXING[..4], x4, MIXING[4..], x);
    assert MIXING[..4] + MIXING[4..] == MIXING;
    LeadsIs(OneByte(3), FOUR, NET_INIT, MIXING, x);
  }

  /** The second half of the run. */
  lemma MixingRest(x4: Net) returns (x: Net)
    requires x4.s == Sender(None, None, 0) && x4.sent == [] && x4.open == [] && x4.slot == 0
    ensures Leads(OneByte(3), FOUR, x4, MIXING[4..], x)
    ensures x.sent == [[4, 5, 6]] && x.slot == 1 && |x.hist| == |x4.hist| + 2 && x4.hist <= x.hist
    ensures x.hist[|x4.hist|].slot == 0 && x.hist[|x4.hist|].piece == FIRST
    ensures x.hist[|x4.hist| + 1].slot == 0 && x.hist[|x4.hist| + 1].piece == LAST
  {
    hide NetStep, NetEnabled, Process, Leads, Uncancelled;
    var cfg := OneByte(3);
    var e5, e6, e7 := Give(Offer([4, 5, 6], false), false), Give(Room(false), false), Give(Room(false), true);
    OfferStep(3, FOUR, x4, [4, 5, 6]);
    LeadsOne(cfg, FOUR, x4, e5);
    var x5 := NetStep(cfg, FOUR, x4, e5);
    ArriveStep(3, FOUR, x5, [4, 5, 6], 0);
    LeadsOne(cfg, FOUR, x5, e6);
    var x6 := NetStep(cfg, FOUR, x5, e6);
    LoseStep(3, FOUR, x6, [4, 5, 6], 1);
    LeadsOne(cfg, FOUR, x6, e7);
    var x7 := NetStep(cfg, FOUR, x6, e7);
    ArriveStep(3, FOUR, x7, [4, 5, 6], 2);
    LeadsOne(cfg, FOUR, x7, e6);
    x := NetStep(cfg, FOUR, x7, e6);
    LeadsOn(cfg, FOUR, x4, [e5], x5, [e6], x6);
    LeadsOn(cfg, FOUR, x4, [e5] + [e6], x6, [e7], x7);
    LeadsOn(cfg, FOUR, x4, [e5] + [e6] + [e7], x7, [e6], x);
    assert [e5] + [e6] + [e7] + [e6] == MIXING[4..];
  }

  lemma AbortStep(mtu: nat, acfg: Config, x: Net)
    requires mtu < TWO_16 && SenderOk(OneByte(mtu), x.s) && x.s.input.Some? && |x.sent| == 1
    ensures NetEnabled(OneByte(mtu), x, Abort)
    ensures var y := NetStep(OneByte(mtu), acfg, x, Abort);
      && y.s == x.s.(input := None) && y.sent == [] && y.open == x.open && y.slot == x.slot && y.hist == x.hist
  {
  }

  /** The first half of the run. */
  lemma MixingHalf() returns (x: Net)
    ensures Leads(OneByte(3), FOUR, NET_INIT, MIXING[..4], x)
    ensures x.s == Sender(None, None, 0) && x.sent == [] && x.open == [] && x.slot == 0
    ensures |x.hist| == 1 && x.hist[0].slot == 0 && x.hist[0].piece == LEFT_OVER
  {
    hide NetStep, NetEnabled, Process, Leads;
    var cfg := OneByte(3);
    var e1, e2, e3 := Give(Offer([1, 2, 3], false), false), Give(Room(false), true), Give(Room(false), false);
    OfferStep(3, FOUR, NET_INIT, [1, 2, 3]);
    LeadsOne(cfg, FOUR, NET_INIT, e1);
    var x1 := NetStep(cfg, FOUR, NET_INIT, e1);
    LoseStep(3, FOUR, x1, [1, 2, 3], 0);
    LeadsOne(cfg, FOUR, x1, e2);
    var x2 := NetStep(cfg, FOUR, x1, e2);
    ArriveStep(3, FOUR, x2, [1, 2, 3], 1);
    LeadsOne(cfg, FOUR, x2, e3);
    var x3 := NetStep(cfg, FOUR, x2, e3);
    AbortStep(3, FOUR, x3);
    LeadsOne(cfg, FOUR, x3, Abort);
    x := NetStep(cfg, FOUR, x3, Abort);
    LeadsOn(cfg, FOUR, NET_INIT, [e1], x1, [e2], x2);
    LeadsOn(cfg, FOUR, NET_INIT, [e1] + [e2], x2, [e3], x3);
    LeadsOn(cfg, FOUR, NET_INIT, [e1] + [e2] + [e3], x3, [Abort], x);
    assert [e1] + [e2] + [e3] + [Abort] == MIXING[..4];
  }
}
