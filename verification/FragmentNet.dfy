/**
 * Disassembler and assembler over a network that loses packets, with frames cancelled at any time: which frames get
 * through, over every run.
 */
module FragmentNet {
  import opened Common
  import opened FragmentModel
  import opened FragmentDisassembler
  import opened FragmentEndToEnd
  import opened FragmentCancel
  import opened FragmentSlots
  import opened FragmentLoss

  /** A chunk handed to the network. */
  datatype Sent = Sent(slot: nat, piece: Piece, lost: bool)

  /**
   * Both ends with what has passed between them. `sent` are the frames taken in and not cancelled; the frame
   * `sent[n]` has slot `n`. `stale[n]` are the pieces that were written under slot `n` of frames that were cancelled.
   * `open` are the chunks of the packet at hand, `wire` all chunks handed to the network, `hist` those that arrived.
   */
  datatype Net = Net(s: Sender, m: Model, sent: seq<seq<Byte>>, got: seq<seq<Byte>>, slot: nat,
                     stale: seq<seq<Piece>>, open: seq<Tagged>, wire: seq<Sent>, hist: seq<Stamped>)

  const NET_INIT := Net(SenderInit, EmptyModel, [], [], 0, [[]], [], [], [])

  /**
   * A step of the sender, the packet it finishes, if any, being lost or not; or the frame being written is cancelled.
   */
  datatype NetEvent = Give(e: Event, lost: bool) | Abort

  // ---- the pieces of one slot ----

  function PostedIn(wire: seq<Sent>, n: nat): seq<Posted> {
    if wire == [] then []
    else
      var w := wire[|wire| - 1];
      PostedIn(wire[..|wire| - 1], n) + if w.slot == n then [Posted(w.piece, w.lost)] else []
  }

  function TaggedIn(ts: seq<Tagged>, n: nat): seq<Piece> {
    if ts == [] then []
    else TaggedIn(ts[..|ts| - 1], n) + if ts[|ts| - 1].slot == n then [ts[|ts| - 1].piece] else []
  }

  function Post(ts: seq<Tagged>, lost: bool): (ws: seq<Sent>)
    ensures |ws| == |ts| && forall i :: 0 <= i < |ts| ==> ws[i] == Sent(ts[i].slot, ts[i].piece, lost)
  {
    seq(|ts|, i requires 0 <= i < |ts| => Sent(ts[i].slot, ts[i].piece, lost))
  }

  function Tag(slot: nat, ps: seq<Piece>): (ts: seq<Tagged>)
    ensures |ts| == |ps| && forall i :: 0 <= i < |ps| ==> ts[i] == Tagged(slot, ps[i])
  {
    seq(|ps|, i requires 0 <= i < |ps| => Tagged(slot, ps[i]))
  }

  function Mark(ps: seq<Piece>, lost: bool): (ws: seq<Posted>)
    ensures |ws| == |ps| && forall i :: 0 <= i < |ps| ==> ws[i] == Posted(ps[i], lost)
  {
    seq(|ps|, i requires 0 <= i < |ps| => Posted(ps[i], lost))
  }

  lemma PostedNext(wire: seq<Sent>, w: Sent, n: nat)
    ensures w.slot == n ==> PostedIn(wire + [w], n) == PostedIn(wire, n) + [Posted(w.piece, w.lost)]
    ensures w.slot != n ==> PostedIn(wire + [w], n) == PostedIn(wire, n)
  {
    assert (wire + [w])[..|wire|] == wire;
    assert PostedIn(wire, n) + [] == PostedIn(wire, n);
  }

  lemma TaggedNext(ts: seq<Tagged>, t: Tagged, n: nat)
    ensures t.slot == n ==> TaggedIn(ts + [t], n) == TaggedIn(ts, n) + [t.piece]
    ensures t.slot != n ==> TaggedIn(ts + [t], n) == TaggedIn(ts, n)
  {
    assert (ts + [t])[..|ts|] == ts;
    assert TaggedIn(ts, n) + [] == TaggedIn(ts, n);
  }

  lemma KeptNext(ws: seq<Posted>, w: Posted)
    ensures Pieces(ws + [w]) == Pieces(ws) + [w.piece]
    ensures Kept(ws + [w]) == if w.lost then Kept(ws) else Kept(ws) + [w.piece]
  {
    assert (ws + [w])[..|ws|] == ws;
    assert Kept(ws) + [] == Kept(ws);
  }

  lemma {:induction false} PostedPost(wire: seq<Sent>, ts: seq<Tagged>, lost: bool, n: nat)
    ensures PostedIn(wire + Post(ts, lost), n) == PostedIn(wire, n) + Mark(TaggedIn(ts, n), lost)
    decreases |ts|
  {
    if ts == [] {
      assert wire + Post(ts, lost) == wire;
    } else {
      hide PostedIn, TaggedIn;
      var init, t := ts[..|ts| - 1], ts[|ts| - 1];
      PostedPost(wire, init, lost, n);
      assert wire + Post(ts, lost) == wire + Post(init, lost) + [Sent(t.slot, t.piece, lost)];
      PostedNext(wire + Post(init, lost), Sent(t.slot, t.piece, lost), n);
      assert ts == init + [t];
      TaggedNext(init, t, n);
      assert Mark(TaggedIn(init, n) + [t.piece], lost) == Mark(TaggedIn(init, n), lost) + [Posted(t.piece, lost)];
    }
  }

  lemma {:induction false} StampedIn(hist: seq<Stamped>, now: nat, ts: seq<Tagged>, n: nat)
    ensures PiecesIn(hist + Stamp(now, ts), n) == PiecesIn(hist, n) + TaggedIn(ts, n)
    decreases |ts|
  {
    if ts == [] {
      assert hist + Stamp(now, ts) == hist;
    } else {
      hide PiecesIn, TaggedIn;
      var init, t := ts[..|ts| - 1], ts[|ts| - 1];
      StampedIn(hist, now, init, n);
      assert hist + Stamp(now, ts) == hist + Stamp(now, init) + [Stamped(now, t.slot, t.piece)];
      PiecesNext(hist + Stamp(now, init), Stamped(now, t.slot, t.piece), n);
      assert ts == init + [t];
      TaggedNext(init, t, n);
    }
  }

  lemma {:induction false} MarkedPieces(ws: seq<Posted>, ps: seq<Piece>, lost: bool)
    ensures Pieces(ws + Mark(ps, lost)) == Pieces(ws) + ps
    ensures Kept(ws + Mark(ps, lost)) == if lost then Kept(ws) else Kept(ws) + ps
    decreases |ps|
  {
    hide Pieces, Kept;
    if ps == [] {
      assert ws + Mark(ps, lost) == ws;
    } else {
      var init, p := ps[..|ps| - 1], ps[|ps| - 1];
      MarkedPieces(ws, init, lost);
      assert ws + Mark(ps, lost) == ws + Mark(init, lost) + [Posted(p, lost)];
      KeptNext(ws + Mark(init, lost), Posted(p, lost));
      assert Pieces(ws) + init + [p] == Pieces(ws) + ps;
      assert Kept(ws) + init + [p] == Kept(ws) + ps;
    }
  }

  lemma {:induction false} TaggedTag(ts: seq<Tagged>, slot: nat, ps: seq<Piece>, n: nat)
    ensures TaggedIn(ts + Tag(slot, ps), n) == TaggedIn(ts, n) + if n == slot then ps else []
    decreases |ps|
  {
    if ps == [] {
      assert ts + Tag(slot, ps) == ts;
    } else {
      var init, p := ps[..|ps| - 1], ps[|ps| - 1];
      TaggedTag(ts, slot, init, n);
      var all := ts + Tag(slot, ps);
      assert all[..|all| - 1] == ts + Tag(slot, init);
      assert TaggedIn(ts, n) + init + [p] == TaggedIn(ts, n) + ps;
    }
  }

  lemma {:induction false} NonePosted(wire: seq<Sent>, n: nat)
    requires forall i :: 0 <= i < |wire| ==> wire[i].slot != n
    ensures PostedIn(wire, n) == []
    decreases |wire|
  {
    if wire != [] {
      NonePosted(wire[..|wire| - 1], n);
    }
  }

  lemma {:induction false} NoneTagged(ts: seq<Tagged>, n: nat)
    requires forall i :: 0 <= i < |ts| ==> ts[i].slot != n
    ensures TaggedIn(ts, n) == []
    decreases |ts|
  {
    if ts != [] {
      NoneTagged(ts[..|ts| - 1], n);
    }
  }

  // ---- the steps ----

  predicate CanGive(cfg: SendConfig, s: Sender, e: Event) {
    && TimerRuns(s, e)
    && match e
       case Offer(frame, _) => s.input == None && |frame| <= cfg.inputMtu
       case Room(_) => s.out == None
       case Expire(_) => s.out.Some?
       case Withdraw(_) => s.input.Some? && s.input.value.used == 0
  }

  ghost predicate NetEnabled(cfg: SendConfig, x: Net, ne: NetEvent) {
    && SendConfigOk(cfg) && SenderOk(cfg, x.s)
    && match ne
       case Abort => x.s.input.Some?
       case Give(e, _) => CanGive(cfg, x.s, e)
  }

  /** The pieces a step writes. */
  function Writes(cfg: SendConfig, s: Sender, e: Event): seq<Piece>
    requires SendConfigOk(cfg) && SenderOk(cfg, s) && CanGive(cfg, s, e)
  {
    match e
    case Offer(frame, _) => if s.out.Some? then Write(cfg, frame, 0, Fill(s.out.value)) else []
    case Room(_) => if s.input.Some? then Write(cfg, s.input.value.frame, s.input.value.used, Fill([])) else []
    case _ => []
  }

  /** All pieces written under slot `n`. */
  function AllIn(x: Net, n: nat): seq<Piece> {
    Pieces(PostedIn(x.wire, n)) + TaggedIn(x.open, n)
  }

  function AfterOffer(sent: seq<seq<Byte>>, e: Event): seq<seq<Byte>> {
    match e
    case Offer(frame, _) => sent + [frame]
    case Withdraw(_) => if sent == [] then [] else sent[..|sent| - 1]
    case _ => sent
  }

  /** The sender's share of a step: the chunks written go to the packet at hand. */
  function Given(cfg: SendConfig, x: Net, e: Event): (Net, Option<seq<Chunk>>)
    requires SendConfigOk(cfg) && SenderOk(cfg, x.s) && CanGive(cfg, x.s, e)
  {
    var (s1, eff) := match e
      case Offer(frame, _) => Send(cfg, x.s, frame)
      case Room(_) => Recv(cfg, x.s)
      case Expire(_) => Timer(cfg, x.s)
      case Withdraw(_) => Cancel(x.s);
    var finished := eff.inputDone && !e.Withdraw?;
    (x.(s := s1, sent := AfterOffer(x.sent, e), open := x.open + Tag(x.slot, Writes(cfg, x.s, e)),
        slot := if finished then x.slot + 1 else x.slot, stale := if finished then x.stale + [[]] else x.stale),
     eff.packet)
  }

  /** The network's share: the packet is lost, or reaches the receiver, which purges before ticking if `purge`. */
  ghost function Carried(acfg: Config, x: Net, packet: seq<Chunk>, lost: bool, purge: bool): Net {
    var x1 := x.(open := [], wire := x.wire + Post(x.open, lost));
    if lost then x1
    else
      var (m1, fs) := Receive(acfg, x.m, Some(packet), purge);
      x1.(m := m1, got := x.got + fs, hist := x.hist + Stamp(x.m.now, x.open))
  }

  /** What was written of the frame stays behind. */
  function Aborted(x: Net): Net
    requires x.s.input.Some?
  {
    x.(s := Cancel(x.s).0, sent := if x.sent == [] then [] else x.sent[..|x.sent| - 1],
       stale := if x.slot < |x.stale| then x.stale[x.slot := AllIn(x, x.slot)] else x.stale)
  }

  ghost function NetStep(cfg: SendConfig, acfg: Config, x: Net, ne: NetEvent): Net
    requires NetEnabled(cfg, x, ne)
  {
    match ne
    case Abort => Aborted(x)
    case Give(e, lost) =>
      var (x1, packet) := Given(cfg, x, e);
      if packet.None? then x1 else Carried(acfg, x1, packet.value, lost, e.purge)
  }

  // ---- what holds between steps ----

  /** The packet at hand holds the open chunks. */
  ghost predicate AtHand(cfg: SendConfig, x: Net) {
    && SenderOk(cfg, x.s) && x.s.frameId == x.slot % TWO_16
    && (x.s.out.None? ==> x.open == []) && (x.s.out.Some? ==> x.s.out.value == Chunks(x.open))
  }

  /** The pieces of slot `n` written after those of cancelled frames. */
  function Fresh(x: Net, n: nat): seq<Piece>
    requires n < |x.stale| && |x.stale[n]| <= |AllIn(x, n)|
  {
    AllIn(x, n)[|x.stale[n]|..]
  }

  ghost predicate SlotOk(cfg: SendConfig, x: Net, n: nat) {
    && n < |x.stale| && Unfinished(x.stale[n]) && x.stale[n] <= Pieces(PostedIn(x.wire, n))
    && |x.stale[n]| <= |AllIn(x, n)|
    && (n < x.slot ==>
          && n < |x.sent| && |x.sent[n]| <= cfg.inputMtu
          && Fresh(x, n) != [] && InOrder(cfg, x.sent[n], Fresh(x, n), |x.sent[n]|))
    && (n == x.slot && x.s.input.None? ==> Fresh(x, n) == [])
    && (n == x.slot && x.s.input.Some? ==>
          var i := x.s.input.value;
          && n < |x.sent| && x.sent[n] == i.frame && |i.frame| <= cfg.inputMtu && i.used <= |i.frame|
          && InOrder(cfg, i.frame, Fresh(x, n), i.used) && !Whole(i.frame, Fresh(x, n), i.used))
  }

  ghost predicate Written(cfg: SendConfig, x: Net) {
    && |x.stale| == x.slot + 1 && |x.sent| == x.slot + |Unwritten(x.s)|
    && forall n :: 0 <= n <= x.slot ==> SlotOk(cfg, x, n)
  }

  /** Chunks go out and arrive in the order of their slots. */
  ghost predicate InTurn(cfg: SendConfig, x: Net) {
    && (forall i :: 0 <= i < |x.wire| ==> x.wire[i].slot <= x.slot)
    && (forall i :: 0 <= i < |x.open| ==> x.open[i].slot <= x.slot && x.open[i].piece.End() <= cfg.inputMtu)
    && (forall i :: 0 <= i < |x.hist| ==> x.hist[i].slot <= x.slot)
    && (forall i, j :: 0 <= i < j < |x.open| ==> x.open[i].slot <= x.open[j].slot)
    && (forall i, j :: 0 <= i < |x.hist| && 0 <= j < |x.open| ==> x.hist[i].slot <= x.open[j].slot)
    && Ordered(x.hist)
  }

  /** What arrived is what was handed to the network and not lost. */
  ghost predicate Heard(x: Net) {
    && (forall n: nat :: PiecesIn(x.hist, n) == Kept(PostedIn(x.wire, n)))
    && x.m.now == if x.hist == [] then 0 else x.hist[|x.hist| - 1].at + 1
  }

  /** The receiver treats every slot as if it were alone. */
  ghost predicate Alone(acfg: Config, x: Net) {
    Spaced(acfg, x.hist) ==> Isolated(acfg, x.m, x.hist) && x.got == Frames(acfg, x.hist, x.slot + 1)
  }

  ghost predicate NetInv(cfg: SendConfig, acfg: Config, x: Net) {
    AtHand(cfg, x) && Written(cfg, x) && InTurn(cfg, x) && Heard(x) && Alone(acfg, x)
  }

  // ---- the sender writes ----

  /** The sender has a frame and a packet, as write_chunks demands. */
  ghost predicate ToWrite(cfg: SendConfig, y: Net) {
    && SendConfigOk(cfg) && Writing(cfg, y.s) && y.s.frameId == y.slot % TWO_16 && y.s.out.value == Chunks(y.open)
    && Written(cfg, y) && InTurn(cfg, y)
  }

  /** The net after write_chunks, with the packet not yet on its way. */
  function Wrote(cfg: SendConfig, y: Net): Net
    requires SendConfigOk(cfg) && Writing(cfg, y.s)
  {
    var (s1, eff) := WriteChunks(cfg, y.s);
    var ps := Write(cfg, y.s.input.value.frame, y.s.input.value.used, Fill(y.s.out.value));
    y.(s := s1, open := y.open + Tag(y.slot, ps), slot := if eff.inputDone then y.slot + 1 else y.slot,
       stale := if eff.inputDone then y.stale + [[]] else y.stale)
  }

  lemma TaggedAll(y: Net, open1: seq<Tagged>, ps: seq<Piece>, n: nat)
    requires open1 == y.open + Tag(y.slot, ps)
    ensures AllIn(y.(open := open1), n) == AllIn(y, n) + if n == y.slot then ps else []
  {
    hide PostedIn, TaggedIn, Pieces;
    TaggedTag(y.open, y.slot, ps, n);
    assert Pieces(PostedIn(y.wire, n)) + (TaggedIn(y.open, n) + ps) == AllIn(y, n) + ps;
    assert Pieces(PostedIn(y.wire, n)) + (TaggedIn(y.open, n) + []) == AllIn(y, n) + [];
  }

  /** The slot being written to: the frame's own pieces go on where they ended. */
  lemma WroteOwn(cfg: SendConfig, y: Net)
    requires ToWrite(cfg, y)
    ensures SlotOk(cfg, Wrote(cfg, y), y.slot)
  {
    hide InTurn, Write, InOrder, Unfinished, PostedIn, TaggedIn, Pieces, Size, Label, EncodeAll, AllIn, Tag, Chunks,
        WireOk;
    var i, n := y.s.input.value, y.slot;
    var ps := Write(cfg, i.frame, i.used, Fill(y.s.out.value));
    var y1 := Wrote(cfg, y);
    assert SlotOk(cfg, y, n);
    TaggedAll(y, y1.open, ps, n);
    SameAll(y.(open := y1.open), y1, n);
    WriteFacts(cfg, i.frame, i.used, Fill(y.s.out.value));
    FillNone();
    assert Fresh(y1, n) == Fresh(y, n) + ps;
    WriteInOrder(cfg, i.frame, Fresh(y, n), i.used, Fill(y.s.out.value));
  }

  lemma SameAll(x: Net, y: Net, n: nat)
    requires x.wire == y.wire && x.open == y.open
    ensures AllIn(x, n) == AllIn(y, n)
  {
  }

  lemma WroteOther(cfg: SendConfig, y: Net, n: nat)
    requires ToWrite(cfg, y) && n < y.slot
    ensures SlotOk(cfg, Wrote(cfg, y), n)
  {
    hide InTurn, Write, InOrder, Unfinished, PostedIn, TaggedIn, Pieces, Size, Label, EncodeAll, AllIn, Tag, Chunks,
        WireOk;
    var i := y.s.input.value;
    var ps := Write(cfg, i.frame, i.used, Fill(y.s.out.value));
    var y1 := Wrote(cfg, y);
    assert SlotOk(cfg, y, n);
    TaggedAll(y, y1.open, ps, n);
    SameAll(y.(open := y1.open), y1, n);
    assert AllIn(y, n) + [] == AllIn(y, n);
  }

  lemma NewSlot(cfg: SendConfig, x: Net)
    requires x.s.input.None? && |x.stale| == x.slot + 1 && x.stale[x.slot] == []
    requires forall i :: 0 <= i < |x.wire| ==> x.wire[i].slot != x.slot
    requires forall i :: 0 <= i < |x.open| ==> x.open[i].slot != x.slot
    ensures SlotOk(cfg, x, x.slot)
  {
    hide PostedIn, TaggedIn;
    NonePosted(x.wire, x.slot);
    NoneTagged(x.open, x.slot);
  }

  lemma NothingBeyond(cfg: SendConfig, y: Net)
    requires InTurn(cfg, y)
    ensures forall i :: 0 <= i < |y.wire| ==> y.wire[i].slot <= y.slot
    ensures forall i :: 0 <= i < |y.open| ==> y.open[i].slot <= y.slot
    ensures forall i :: 0 <= i < |y.hist| ==> y.hist[i].slot <= y.slot
  {
  }

  lemma WroteInTurn(cfg: SendConfig, y: Net)
    requires ToWrite(cfg, y)
    ensures InTurn(cfg, Wrote(cfg, y))
  {
    hide Written, InOrder, Size, Label, EncodeAll, Ordered;
    var i := y.s.input.value;
    var ps := Write(cfg, i.frame, i.used, Fill(y.s.out.value));
    forall k | 0 <= k < |ps| ensures ps[k].End() <= cfg.inputMtu {
      WritePieces(cfg, i.frame, i.used, Fill(y.s.out.value), k);
    }
  }

  lemma TagLabel(slot: nat, open: seq<Tagged>, ps: seq<Piece>)
    ensures Chunks(open + Tag(slot, ps)) == Chunks(open) + Label(slot % TWO_16, ps)
  {
  }

  lemma WroteWritten(cfg: SendConfig, y: Net)
    requires ToWrite(cfg, y)
    ensures Written(cfg, Wrote(cfg, y))
  {
    hide SlotOk, InTurn, Write, Size, Label, EncodeAll, Chunks, Tag;
    var i := y.s.input.value;
    var ps := Write(cfg, i.frame, i.used, Fill(y.s.out.value));
    var y1 := Wrote(cfg, y);
    NothingBeyond(cfg, y);
    TagSlots(y.slot, ps);
    forall n | 0 <= n <= y1.slot ensures SlotOk(cfg, y1, n) {
      if n < y.slot {
        WroteOther(cfg, y, n);
      } else if n == y.slot {
        WroteOwn(cfg, y);
      } else {
        NewSlot(cfg, y1);
      }
    }
  }

  /** write_chunks seen from the net. */
  lemma WroteOk(cfg: SendConfig, y: Net)
    requires ToWrite(cfg, y)
    ensures var y1 := Wrote(cfg, y); var packet := WriteChunks(cfg, y.s).1.packet;
      && Written(cfg, y1) && InTurn(cfg, y1) && SenderOk(cfg, y1.s) && y1.s.frameId == y1.slot % TWO_16
      && y1.open != [] && y1.s.out == (if packet.None? then Some(Chunks(y1.open)) else None)
      && (packet.Some? ==> packet.value == Chunks(y1.open) && forall c :: c in packet.value ==> WireOk(c))
  {
    hide Written, InTurn, Write, Size, Label, EncodeAll, SenderOk, WireOk, Chunks, Tag;
    var i := y.s.input.value;
    var ps := Write(cfg, i.frame, i.used, Fill(y.s.out.value));
    WriteChunksKeeps(cfg, y.s);
    TagLabel(y.slot, y.open, ps);
    WroteInTurn(cfg, y);
    WroteWritten(cfg, y);
  }

  lemma TagSlots(slot: nat, ps: seq<Piece>)
    ensures forall i :: 0 <= i < |Tag(slot, ps)| ==> Tag(slot, ps)[i].slot == slot
  {
  }

  // ---- the sender's share of a step ----

  /** After the sender's share: the packet it hands on, if any, holds the open chunks, of which there are some. */
  ghost predicate GivenOk(cfg: SendConfig, x: Net, x1: Net, packet: Option<seq<Chunk>>) {
    && Written(cfg, x1) && InTurn(cfg, x1)
    && SenderOk(cfg, x1.s) && x1.s.frameId == x1.slot % TWO_16
    && (packet.None? ==> AtHand(cfg, x1))
    && (packet.Some? ==>
          && x1.s.out.None? && x1.open != [] && packet.value == Chunks(x1.open)
          && forall c :: c in packet.value ==> WireOk(c))
    && x1.m == x.m && x1.got == x.got && x1.wire == x.wire && x1.hist == x.hist && x.slot <= x1.slot <= x.slot + 1
  }

  lemma OfferedWritten(cfg: SendConfig, x: Net, frame: seq<Byte>)
    requires Written(cfg, x) && x.s.input.None? && |frame| <= cfg.inputMtu
    ensures Written(cfg, x.(s := x.s.(input := Some(Input(frame, 0))), sent := x.sent + [frame]))
  {
    var y := x.(s := x.s.(input := Some(Input(frame, 0))), sent := x.sent + [frame]);
    forall n | 0 <= n <= y.slot ensures SlotOk(cfg, y, n) {
      assert SlotOk(cfg, x, n);
      assert AllIn(y, n) == AllIn(x, n);
    }
  }

  lemma OfferGiven(cfg: SendConfig, x: Net, e: Event)
    requires AtHand(cfg, x) && Written(cfg, x) && InTurn(cfg, x) && NetEnabled(cfg, x, Give(e, false)) && e.Offer?
    ensures GivenOk(cfg, x, Given(cfg, x, e).0, Given(cfg, x, e).1)
  {
    hide Written, WriteChunks, Chunks, Write, WireOk, EncodeAll;
    var y := x.(s := x.s.(input := Some(Input(e.frame, 0))), sent := x.sent + [e.frame]);
    OfferedWritten(cfg, x, e.frame);
    if x.s.out.Some? {
      assert InTurn(cfg, y);
      WroteOk(cfg, y);
      assert Given(cfg, x, e).0 == Wrote(cfg, y);
    } else {
      TagNone(x);
      assert Given(cfg, x, e).0 == y;
    }
  }

  lemma TagNone(x: Net)
    ensures x.open + Tag(x.slot, []) == x.open
  {
  }

  lemma RoomGiven(cfg: SendConfig, x: Net, e: Event)
    requires AtHand(cfg, x) && Written(cfg, x) && InTurn(cfg, x) && NetEnabled(cfg, x, Give(e, false)) && e.Room?
    ensures GivenOk(cfg, x, Given(cfg, x, e).0, Given(cfg, x, e).1)
  {
    hide WriteChunks, Write, WireOk, EncodeAll, SlotOk;
    var y := x.(s := x.s.(out := Some([])));
    FillNone();
    assert Chunks([]) == [];
    OutWritten(cfg, x, Some([]));
    assert InTurn(cfg, y);
    if x.s.input.Some? {
      WroteOk(cfg, y);
      assert Given(cfg, x, e).0 == Wrote(cfg, y);
    } else {
      TagNone(x);
      assert Given(cfg, x, e).0 == y;
    }
  }

  lemma OutWritten(cfg: SendConfig, x: Net, out: Option<seq<Chunk>>)
    requires Written(cfg, x)
    ensures Written(cfg, x.(s := x.s.(out := out)))
  {
    var y := x.(s := x.s.(out := out));
    forall n | 0 <= n <= y.slot ensures SlotOk(cfg, y, n) {
      assert SlotOk(cfg, x, n);
      assert AllIn(y, n) == AllIn(x, n);
    }
  }

  lemma ExpireGiven(cfg: SendConfig, x: Net, e: Event)
    requires AtHand(cfg, x) && Written(cfg, x) && InTurn(cfg, x) && NetEnabled(cfg, x, Give(e, false)) && e.Expire?
    ensures GivenOk(cfg, x, Given(cfg, x, e).0, Given(cfg, x, e).1)
  {
    hide SlotOk, WireOk, EncodeAll;
    OutWritten(cfg, x, None);
    TagNone(x);
    assert Given(cfg, x, e).0 == x.(s := x.s.(out := None));
  }

  lemma WithdrawGiven(cfg: SendConfig, x: Net, e: Event)
    requires AtHand(cfg, x) && Written(cfg, x) && InTurn(cfg, x) && NetEnabled(cfg, x, Give(e, false)) && e.Withdraw?
    ensures GivenOk(cfg, x, Given(cfg, x, e).0, Given(cfg, x, e).1)
  {
    hide WireOk, EncodeAll, PostedIn, TaggedIn, Pieces, Unfinished;
    TagNone(x);
    var y := Given(cfg, x, e).0;
    assert y == x.(s := x.s.(input := None), sent := x.sent[..|x.sent| - 1]);
    forall n | 0 <= n <= y.slot ensures SlotOk(cfg, y, n) {
      assert SlotOk(cfg, x, n);
      assert AllIn(y, n) == AllIn(x, n);
    }
  }

  lemma AllGiven(cfg: SendConfig, x: Net, e: Event)
    requires AtHand(cfg, x) && Written(cfg, x) && InTurn(cfg, x) && NetEnabled(cfg, x, Give(e, false))
    ensures GivenOk(cfg, x, Given(cfg, x, e).0, Given(cfg, x, e).1)
  {
    hide AtHand, Written, InTurn, Given, GivenOk, SenderOk;
    match e
    case Offer(_, _) => OfferGiven(cfg, x, e);
    case Room(_) => RoomGiven(cfg, x, e);
    case Expire(_) => ExpireGiven(cfg, x, e);
    case Withdraw(_) => WithdrawGiven(cfg, x, e);
  }

  // ---- the network's share ----

  lemma CarriedAll(acfg: Config, x: Net, packet: seq<Chunk>, lost: bool, purge: bool, n: nat)
    ensures var y := Carried(acfg, x, packet, lost, purge);
      AllIn(y, n) == AllIn(x, n) && Pieces(PostedIn(y.wire, n)) == Pieces(PostedIn(x.wire, n)) + TaggedIn(x.open, n)
  {
    hide PostedIn, Pieces, Receive;
    PostedPost(x.wire, x.open, lost, n);
    MarkedPieces(PostedIn(x.wire, n), TaggedIn(x.open, n), lost);
  }

  lemma CarriedWritten(cfg: SendConfig, acfg: Config, x: Net, packet: seq<Chunk>, lost: bool, purge: bool)
    requires Written(cfg, x)
    ensures Written(cfg, Carried(acfg, x, packet, lost, purge))
  {
    hide PostedIn, TaggedIn, Pieces, Receive, Unfinished, InOrder;
    var y := Carried(acfg, x, packet, lost, purge);
    forall n | 0 <= n <= y.slot ensures SlotOk(cfg, y, n) {
      assert SlotOk(cfg, x, n);
      CarriedAll(acfg, x, packet, lost, purge, n);
    }
  }

  lemma CarriedInTurn(cfg: SendConfig, acfg: Config, x: Net, packet: seq<Chunk>, lost: bool, purge: bool)
    requires InTurn(cfg, x)
    ensures InTurn(cfg, Carried(acfg, x, packet, lost, purge))
    ensures Ordered(x.hist + Stamp(x.m.now, x.open))
  {
    hide Receive;
    var h1 := x.hist + Stamp(x.m.now, x.open);
    forall i, j | 0 <= i < j < |h1| ensures h1[i].slot <= h1[j].slot {
      if j < |x.hist| {
        assert h1[i] == x.hist[i] && h1[j] == x.hist[j];
      } else if i < |x.hist| {
        assert h1[i] == x.hist[i] && h1[j].slot == x.open[j - |x.hist|].slot;
      } else {
        assert h1[i].slot == x.open[i - |x.hist|].slot && h1[j].slot == x.open[j - |x.hist|].slot;
      }
    }
  }

  lemma {:induction false} ProcessAllNow(acfg: Config, m: Model, cs: seq<Chunk>)
    ensures ProcessAll(acfg, m, cs).0.now == m.now
    decreases |cs|
  {
    if cs != [] {
      ProcessNow(acfg, m, cs[0]);
      ProcessAllNow(acfg, Process(acfg, m, cs[0]).0, cs[1..]);
    }
  }

  lemma ProcessNow(acfg: Config, m: Model, c: Chunk)
    ensures Process(acfg, m, c).0.now == m.now
  {
    hide Judge;
  }

  lemma CarriedHeard(acfg: Config, x: Net, packet: seq<Chunk>, lost: bool, purge: bool)
    requires Heard(x) && x.open != []
    ensures Heard(Carried(acfg, x, packet, lost, purge))
  {
    hide PostedIn, TaggedIn, Pieces, Kept, PiecesIn, ProcessAll, ParseAll, EncodeAll;
    var y := Carried(acfg, x, packet, lost, purge);
    forall n: nat ensures PiecesIn(y.hist, n) == Kept(PostedIn(y.wire, n)) {
      PostedPost(x.wire, x.open, lost, n);
      MarkedPieces(PostedIn(x.wire, n), TaggedIn(x.open, n), lost);
      StampedIn(x.hist, x.m.now, x.open, n);
    }
    ProcessAllNow(acfg, x.m, ParseAll(EncodeAll(packet)));
  }

  lemma CarriedAlone(cfg: SendConfig, acfg: Config, x: Net, packet: seq<Chunk>, lost: bool, purge: bool)
    requires Enough(cfg, acfg) && InTurn(cfg, x) && Alone(acfg, x)
    requires x.open != [] && packet == Chunks(x.open) && forall c :: c in packet ==> WireOk(c)
    ensures Alone(acfg, Carried(acfg, x, packet, lost, purge))
  {
    hide Spaced, Ordered, Isolated, Frames, ProcessAll, ParseAll, EncodeAll, EndPacket, WireOk;
    if !lost {
      CarriedInTurn(cfg, acfg, x, packet, lost, purge);
      var h1 := x.hist + Stamp(x.m.now, x.open);
      if Spaced(acfg, h1) {
        SpacedPrefix(acfg, x.hist, Stamp(x.m.now, x.open));
        ArriveAll(acfg, x.m, x.hist, x.open, x.slot + 1);
        ParseEncodeAll(packet);
        var (m1, fs) := ProcessAll(acfg, x.m, packet);
        assert h1[|h1| - 1].at == x.m.now;
        TickIsolated(acfg, m1, h1, purge);
      }
    }
  }

  lemma GivenAlone(acfg: Config, x: Net, x1: Net)
    requires Alone(acfg, x) && x1.m == x.m && x1.got == x.got && x1.hist == x.hist
    requires x.slot <= x1.slot <= x.slot + 1 && forall i :: 0 <= i < |x.hist| ==> x.hist[i].slot <= x.slot
    ensures Alone(acfg, x1)
  {
    hide Spaced, Isolated, Replay, PiecesIn;
    if x1.slot == x.slot + 1 {
      NoneIn(x.hist, x1.slot);
      ReplayNone(acfg);
      assert Frames(acfg, x.hist, x1.slot) + [] == Frames(acfg, x.hist, x1.slot);
    }
  }

  lemma GiveKeeps(cfg: SendConfig, acfg: Config, x: Net, e: Event, lost: bool)
    requires Enough(cfg, acfg) && NetInv(cfg, acfg, x) && NetEnabled(cfg, x, Give(e, lost))
    ensures NetInv(cfg, acfg, NetStep(cfg, acfg, x, Give(e, lost)))
  {
    hide Written, InTurn, Alone, Given, SenderOk, Carried, WireOk, Enough;
    AllGiven(cfg, x, e);
    var (x1, packet) := Given(cfg, x, e);
    NothingBeyond(cfg, x);
    GivenAlone(acfg, x, x1);
    if packet.Some? {
      CarriedWritten(cfg, acfg, x1, packet.value, lost, e.purge);
      CarriedInTurn(cfg, acfg, x1, packet.value, lost, e.purge);
      CarriedHeard(acfg, x1, packet.value, lost, e.purge);
      CarriedAlone(cfg, acfg, x1, packet.value, lost, e.purge);
      CarriedSender(acfg, x1, packet.value, lost, e.purge);
    }
  }

  lemma CarriedSender(acfg: Config, x: Net, packet: seq<Chunk>, lost: bool, purge: bool)
    ensures var y := Carried(acfg, x, packet, lost, purge); y.s == x.s && y.slot == x.slot && y.open == []
  {
    hide Receive;
  }

  // ---- cancelling ----

  lemma AbortKeeps(cfg: SendConfig, acfg: Config, x: Net)
    requires NetInv(cfg, acfg, x) && NetEnabled(cfg, x, Abort)
    ensures NetInv(cfg, acfg, NetStep(cfg, acfg, x, Abort))
  {
    hide PostedIn, Pieces, Frames, Isolated, Spaced, Kept, PiecesIn, Replay;
    var y, n := Aborted(x), x.slot;
    assert SlotOk(cfg, x, n);
    var i := x.s.input.value;
    InOrderUnfinished(cfg, i.frame, Fresh(x, n), i.used);
    hide Unfinished, InOrder;
    AbortedStale(x.stale[n], AllIn(x, n));
    assert TaggedIn(x.open, n) == [] && AllIn(x, n) + [] == AllIn(x, n);
    forall k | 0 <= k <= n ensures SlotOk(cfg, y, k) {
      assert SlotOk(cfg, x, k);
      assert AllIn(y, k) == AllIn(x, k);
    }
  }

  lemma AbortedStale(st: seq<Piece>, all: seq<Piece>)
    requires Unfinished(st) && st <= all && Unfinished(all[|st|..])
    ensures Unfinished(all)
  {
    forall k | 0 <= k < |all| ensures |all[k].data| > 0 && !all[k].last {
      if k >= |st| {
        assert all[k] == all[|st|..][k - |st|];
      } else {
        assert all[k] == st[k];
      }
    }
  }

  // ---- runs ----

  ghost predicate NetCanRun(cfg: SendConfig, acfg: Config, x: Net, es: seq<NetEvent>)
    decreases |es|
  {
    es != [] ==> NetEnabled(cfg, x, es[0]) && NetCanRun(cfg, acfg, NetStep(cfg, acfg, x, es[0]), es[1..])
  }

  ghost function NetRun(cfg: SendConfig, acfg: Config, x: Net, es: seq<NetEvent>): Net
    requires NetCanRun(cfg, acfg, x, es)
    decreases |es|
  {
    if es == [] then x else NetRun(cfg, acfg, NetStep(cfg, acfg, x, es[0]), es[1..])
  }

  lemma {:induction false} NetRunKeeps(cfg: SendConfig, acfg: Config, x: Net, es: seq<NetEvent>)
    requires Enough(cfg, acfg) && NetInv(cfg, acfg, x) && NetCanRun(cfg, acfg, x, es)
    ensures NetInv(cfg, acfg, NetRun(cfg, acfg, x, es))
    decreases |es|
  {
    hide NetInv, NetStep, NetEnabled, Enough;
    if es != [] {
      match es[0] {
        case Abort => AbortKeeps(cfg, acfg, x);
        case Give(e, lost) => GiveKeeps(cfg, acfg, x, e, lost);
      }
      NetRunKeeps(cfg, acfg, NetStep(cfg, acfg, x, es[0]), es[1..]);
    }
  }

  lemma NetInitOk(cfg: SendConfig, acfg: Config)
    ensures NetInv(cfg, acfg, NET_INIT)
  {
    ReplayNone(acfg);
    assert Frames(acfg, [], 1) == Frames(acfg, [], 0) + Replay(acfg, PiecesIn([], 0)).1;
    assert AllIn(NET_INIT, 0) == [];
  }

  /**
   * Over every run, whatever is lost and cancelled: as long as no id comes round to pieces left behind under it that
   * have not timed out, the frames delivered are those that every slot, taken alone, makes of the pieces of it that
   * arrived.
   */
  lemma SlotsAlone(cfg: SendConfig, acfg: Config, es: seq<NetEvent>)
    requires Enough(cfg, acfg) && NetCanRun(cfg, acfg, NET_INIT, es)
    requires Spaced(acfg, NetRun(cfg, acfg, NET_INIT, es).hist)
    ensures var x := NetRun(cfg, acfg, NET_INIT, es); x.got == Frames(acfg, x.hist, x.slot + 1)
  {
    hide Enough, NetCanRun, NetRun, Spaced, Frames, AtHand, Written, InTurn, Heard, Isolated;
    NetInitOk(cfg, acfg);
    NetRunKeeps(cfg, acfg, NET_INIT, es);
  }

  // ---- which frames get through ----

  /**
   * Frame `n` gets through: it is all handed to the network, no packet with a piece of it was lost, and nothing is left
   * standing of frames cancelled before it.
   */
  ghost predicate Arrives(acfg: Config, x: Net, n: nat) {
    && n < x.slot && n < |x.stale| && TaggedIn(x.open, n) == []
    && NoneLost(PostedIn(x.wire, n)) && Replay(acfg, x.stale[n]).0 == []
  }

  /** Of the frames `sent[..n]` those that get through. */
  ghost function Through(acfg: Config, x: Net, n: nat): seq<seq<Byte>> {
    if n == 0 then []
    else Through(acfg, x, n - 1) + if Arrives(acfg, x, n - 1) && n <= |x.sent| then [x.sent[n - 1]] else []
  }

  /** No packet was lost with pieces of a slot in which a frame was cancelled when partly written. */
  ghost predicate Separate(x: Net) {
    forall n :: 0 <= n < |x.stale| ==> x.stale[n] == [] || NoneLost(PostedIn(x.wire, n))
  }

  lemma NothingPosted()
    ensures Pieces([]) == [] && Kept([]) == []
  {
  }

  lemma {:induction false} PiecesConcat(a: seq<Posted>, b: seq<Posted>)
    ensures Pieces(a + b) == Pieces(a) + Pieces(b) && Kept(a + b) == Kept(a) + Kept(b)
    decreases |b|
  {
    hide Pieces, Kept;
    if b == [] {
      assert a + b == a;
      NothingPosted();
    } else {
      var init, w := b[..|b| - 1], b[|b| - 1];
      PiecesConcat(a, init);
      assert a + b == a + init + [w] && b == init + [w];
      KeptNext(a + init, w);
      KeptNext(init, w);
      assert Pieces(a) + Pieces(init) + [w.piece] == Pieces(a) + (Pieces(init) + [w.piece]);
      assert Kept(a) + Kept(init) + [w.piece] == Kept(a) + (Kept(init) + [w.piece]);
    }
  }

  lemma {:induction false} InOrderPrefix(cfg: SendConfig, frame: seq<Byte>, ps: seq<Piece>, used: nat, k: nat)
    returns (u: nat)
    requires InOrder(cfg, frame, ps, used) && k <= |ps|
    ensures InOrder(cfg, frame, ps[..k], u) && (k == |ps| ==> u == used) && (k < |ps| ==> !Whole(frame, ps[..k], u))
    decreases |ps|
  {
    if k == |ps| {
      assert ps[..k] == ps;
      u := used;
    } else {
      hide InOrder;
      InOrderLast(cfg, frame, ps, used);
      var init := ps[..|ps| - 1];
      u := InOrderPrefix(cfg, frame, init, ps[|ps| - 1].start, k);
      assert ps[..k] == init[..k];
    }
  }

  /** The handed over pieces of a slot: first those of cancelled frames, then the frame's own in order. */
  lemma SlotPosted(cfg: SendConfig, x: Net, n: nat)
    requires SlotOk(cfg, x, n)
    ensures var ws := PostedIn(x.wire, n); var k := |x.stale[n]|;
      && k <= |ws| && Pieces(ws[..k]) == x.stale[n]
      && Pieces(ws) == Pieces(ws[..k]) + Pieces(ws[k..]) && Kept(ws) == Kept(ws[..k]) + Kept(ws[k..])
      && Fresh(x, n) == Pieces(ws[k..]) + TaggedIn(x.open, n)
  {
    hide Unfinished, InOrder, Pieces, Kept, TaggedIn, PostedIn;
    var ws := PostedIn(x.wire, n);
    var k := |x.stale[n]|;
    PiecesLength(ws);
    PiecesLength(ws[..k]);
    PiecesConcat(ws[..k], ws[k..]);
    assert ws[..k] + ws[k..] == ws;
    assert Pieces(ws)[..k] == x.stale[n];
    assert Fresh(x, n) == (Pieces(ws[..k]) + Pieces(ws[k..]) + TaggedIn(x.open, n))[k..];
  }

  /** What the pieces of one slot that arrived make. */
  lemma SlotExact(cfg: SendConfig, acfg: Config, x: Net, n: nat)
    requires Enough(cfg, acfg) && Written(cfg, x) && n <= x.slot
    requires x.stale[n] == [] || NoneLost(PostedIn(x.wire, n))
    ensures Replay(acfg, Kept(PostedIn(x.wire, n))).1 ==
              if Arrives(acfg, x, n) && n < |x.sent| then [x.sent[n]] else []
  {
    hide Pieces, Kept, TaggedIn, PostedIn, Replay, Enough, InOrder, Unfinished;
    assert SlotOk(cfg, x, n);
    SlotPosted(cfg, x, n);
    var ws, st, k := PostedIn(x.wire, n), x.stale[n], |x.stale[n]|;
    var own, rest := ws[k..], TaggedIn(x.open, n);
    var frame, used := SlotFrame(cfg, x, n);
    var u := InOrderPrefix(cfg, frame, Fresh(x, n), used, |Pieces(own)|);
    assert Fresh(x, n)[..|Pieces(own)|] == Pieces(own);
    if NoneLost(ws) {
      NoneLostKept(ws[..k]);
    } else {
      assert k == 0 && own == ws && ws[..k] == [];
    }
    StaleKept(ws, st);
    SlotOutcome(cfg, acfg, st, frame, own, u);
    assert NoneLost(own) <==> NoneLost(ws) by {
      OwnLost(ws, k, st);
    }
  }

  lemma StaleKept(ws: seq<Posted>, st: seq<Piece>)
    requires |st| <= |ws| && Pieces(ws[..|st|]) == st && (st == [] || NoneLost(ws))
    ensures Kept(ws[..|st|]) == st
  {
    if st != [] {
      NoneLostKept(ws[..|st|]);
    }
  }

  lemma OwnLost(ws: seq<Posted>, k: nat, st: seq<Piece>)
    requires k == |st| <= |ws| && (st == [] || NoneLost(ws))
    ensures NoneLost(ws[k..]) <==> NoneLost(ws)
  {
    if st == [] {
      assert ws[0..] == ws;
    }
  }

  /** The frame of a slot and how much of it is written; none of the empty frame while there is no frame yet. */
  lemma SlotFrame(cfg: SendConfig, x: Net, n: nat) returns (frame: seq<Byte>, used: nat)
    requires SlotOk(cfg, x, n) && n <= x.slot
    ensures |frame| <= cfg.inputMtu && InOrder(cfg, frame, Fresh(x, n), used)
    ensures Whole(frame, Fresh(x, n), used) <==> n < x.slot
    ensures n < x.slot ==> n < |x.sent| && frame == x.sent[n]
  {
    hide Unfinished, AllIn;
    if n < x.slot {
      frame, used := x.sent[n], |x.sent[n]|;
    } else if x.s.input.Some? {
      frame, used := x.s.input.value.frame, x.s.input.value.used;
    } else {
      frame, used := [], 0;
    }
  }

  lemma {:induction false} ThroughFrames(cfg: SendConfig, acfg: Config, x: Net, n: nat)
    requires Enough(cfg, acfg) && Written(cfg, x) && Heard(x) && Separate(x) && n <= x.slot + 1
    ensures Frames(acfg, x.hist, n) == Through(acfg, x, n)
    decreases n
  {
    hide Replay, Kept, PostedIn, PiecesIn, Arrives, NoneLost, Enough, SlotOk;
    if n > 0 {
      ThroughFrames(cfg, acfg, x, n - 1);
      SlotExact(cfg, acfg, x, n - 1);
    }
  }

  /**
   * Exactly which frames get through, over every run with any losses and any cancellations: those of which no packet
   * was lost and under whose id nothing stands of frames cancelled before. They arrive unaltered, in order, each
   * once. It takes that no id comes round to pieces left behind too soon, and that no slot has both cancellations and
   * losses.
   */
  lemma NetExact(cfg: SendConfig, acfg: Config, es: seq<NetEvent>)
    requires Enough(cfg, acfg) && NetCanRun(cfg, acfg, NET_INIT, es)
    requires var x := NetRun(cfg, acfg, NET_INIT, es); Spaced(acfg, x.hist) && Separate(x)
    ensures var x := NetRun(cfg, acfg, NET_INIT, es); x.got == Through(acfg, x, x.slot + 1)
  {
    hide Enough, NetCanRun, NetRun, Spaced, Frames, AtHand, Written, InTurn, Heard, Isolated, Through, Separate;
    NetInitOk(cfg, acfg);
    NetRunKeeps(cfg, acfg, NET_INIT, es);
    var x := NetRun(cfg, acfg, NET_INIT, es);
    ThroughFrames(cfg, acfg, x, x.slot + 1);
  }

  /** `got` is `sent` at the increasing positions `at`. */
  ghost predicate Drawn(got: seq<seq<Byte>>, sent: seq<seq<Byte>>, at: seq<nat>) {
    && |at| == |got| && (forall i, j :: 0 <= i < j < |at| ==> at[i] < at[j])
    && forall i :: 0 <= i < |at| ==> at[i] < |sent| && got[i] == sent[at[i]]
  }

  lemma {:induction false} ThroughDrawn(acfg: Config, x: Net, n: nat) returns (at: seq<nat>)
    ensures Drawn(Through(acfg, x, n), x.sent, at) && forall i :: 0 <= i < |at| ==> at[i] < n
    decreases n
  {
    hide Arrives;
    if n == 0 {
      at := [];
    } else {
      at := ThroughDrawn(acfg, x, n - 1);
      if Arrives(acfg, x, n - 1) && n <= |x.sent| {
        at := at + [n - 1];
      }
    }
  }

  /** In particular what is delivered is a subsequence of what was sent. */
  lemma NetSubsequence(cfg: SendConfig, acfg: Config, es: seq<NetEvent>)
    requires Enough(cfg, acfg) && NetCanRun(cfg, acfg, NET_INIT, es)
    requires var x := NetRun(cfg, acfg, NET_INIT, es); Spaced(acfg, x.hist) && Separate(x)
    ensures var x := NetRun(cfg, acfg, NET_INIT, es); exists at :: Drawn(x.got, x.sent, at)
  {
    hide Enough, NetCanRun, NetRun, Spaced, Through, Separate;
    NetExact(cfg, acfg, es);
    var x := NetRun(cfg, acfg, NET_INIT, es);
    var at := ThroughDrawn(acfg, x, x.slot + 1);
  }

  /**
   * Losses alone: if fewer than 2^16 frames are begun in any stretch in which the receiver sees too few packets to time
   * out an entry, then whatever is lost the frames delivered are exactly those of which no packet was lost, in order.
   */
  lemma LossyExact(cfg: SendConfig, acfg: Config, es: seq<NetEvent>)
    requires Enough(cfg, acfg) && NetCanRun(cfg, acfg, NET_INIT, es)
    requires var x := NetRun(cfg, acfg, NET_INIT, es); Paced(acfg, x.hist) && Uncancelled(x)
    ensures var x := NetRun(cfg, acfg, NET_INIT, es);
      && x.got == Through(acfg, x, x.slot + 1) && (exists at :: Drawn(x.got, x.sent, at))
      && forall n :: 0 <= n < x.slot && TaggedIn(x.open, n) == [] ==>
           (Arrives(acfg, x, n) <==> NoneLost(PostedIn(x.wire, n)))
  {
    hide Enough, NetCanRun, NetRun, Spaced, Through, Paced, NoneLost, PostedIn, TaggedIn, SlotOk;
    var x := NetRun(cfg, acfg, NET_INIT, es);
    PacedSpaced(acfg, x.hist);
    NetExact(cfg, acfg, es);
    NetSubsequence(cfg, acfg, es);
    NetInitOk(cfg, acfg);
    NetRunKeeps(cfg, acfg, NET_INIT, es);
    ReplayNone(acfg);
  }

  /** No frame was cancelled when partly written. */
  ghost predicate Uncancelled(x: Net) {
    forall n :: 0 <= n < |x.stale| ==> x.stale[n] == []
  }

  // ---- nothing lost, nothing cancelled late ----

  /** A frame that gets through leaves nothing behind. */
  lemma ArrivedLeavesNothing(cfg: SendConfig, acfg: Config, x: Net, n: nat)
    requires Enough(cfg, acfg) && Written(cfg, x) && Heard(x) && Arrives(acfg, x, n)
    ensures !Left(acfg, x.hist, n)
  {
    hide Pieces, Kept, TaggedIn, PostedIn, PiecesIn, Replay, Enough, InOrder, Unfinished;
    assert SlotOk(cfg, x, n);
    SlotPosted(cfg, x, n);
    var ws, k := PostedIn(x.wire, n), |x.stale[n]|;
    var frame, used := SlotFrame(cfg, x, n);
    NoneLostKept(ws[..k]);
    NoneLostKept(ws[k..]);
    assert Fresh(x, n) + [] == Fresh(x, n) && Pieces(ws[k..]) + [] == Pieces(ws[k..]);
    CleanReplay(cfg, acfg, x.stale[n], frame, Kept(ws[k..]), used);
  }

  /** Nothing was lost, and no frame cancelled when partly written. */
  ghost predicate Smooth(x: Net) {
    (forall i :: 0 <= i < |x.wire| ==> !x.wire[i].lost) && Uncancelled(x)
  }

  lemma {:induction false} SmoothPosted(wire: seq<Sent>, n: nat)
    requires forall i :: 0 <= i < |wire| ==> !wire[i].lost
    ensures NoneLost(PostedIn(wire, n))
    decreases |wire|
  {
    if wire != [] {
      SmoothPosted(wire[..|wire| - 1], n);
    }
  }

  lemma SmoothArrives(acfg: Config, x: Net, n: nat)
    requires Smooth(x) && n < x.slot && n < |x.stale| && TaggedIn(x.open, n) == []
    ensures Arrives(acfg, x, n)
  {
    SmoothPosted(x.wire, n);
    ReplayNone(acfg);
  }

  lemma SmoothSpaced(cfg: SendConfig, acfg: Config, x: Net)
    requires Enough(cfg, acfg) && Written(cfg, x) && InTurn(cfg, x) && Heard(x) && Smooth(x)
    ensures Spaced(acfg, x.hist)
  {
    hide Left, Enough, SlotOk, PostedIn, PiecesIn, Smooth;
    forall i, j | 0 <= i < j < |x.hist| && Reused(x.hist[i].slot, x.hist[j].slot)
      ensures !Left(acfg, x.hist, x.hist[i].slot)
    {
      var a := x.hist[i].slot;
      NoneTagged(x.open, a);
      SmoothArrives(acfg, x, a);
      ArrivedLeavesNothing(cfg, acfg, x, a);
    }
  }

  /** While pieces of a slot are still open, nothing of the later slots has gone out. */
  lemma OpenBlocks(cfg: SendConfig, x: Net, n: nat, k: nat)
    requires Written(cfg, x) && InTurn(cfg, x) && Heard(x) && Smooth(x)
    requires n < k < x.slot && TaggedIn(x.open, n) != []
    ensures TaggedIn(x.open, k) != []
  {
    hide TaggedIn, PostedIn, PiecesIn, Pieces, Kept, InOrder, Ordered, NoneLost;
    var j := SomeTagged(x.open, n);
    NoneIn(x.hist, k);
    SmoothPosted(x.wire, k);
    NoneLostKept(PostedIn(x.wire, k));
    assert SlotOk(cfg, x, k);
  }

  lemma SomeTagged(ts: seq<Tagged>, n: nat) returns (j: nat)
    requires TaggedIn(ts, n) != []
    ensures j < |ts| && ts[j].slot == n
  {
    if forall i :: 0 <= i < |ts| ==> ts[i].slot != n {
      NoneTagged(ts, n);
    }
    j :| 0 <= j < |ts| && ts[j].slot == n;
  }

  /** The frames that have got through so far are the first ones. */
  lemma {:induction false} SmoothThrough(cfg: SendConfig, acfg: Config, x: Net, n: nat) returns (k: nat)
    requires Written(cfg, x) && InTurn(cfg, x) && Heard(x) && Smooth(x) && n <= x.slot
    ensures k <= n <= |x.sent| && Through(acfg, x, n) == x.sent[..k]
    ensures k < n ==> TaggedIn(x.open, k) != []
    decreases n
  {
    hide Smooth, SlotOk, TaggedIn, InTurn, Heard;
    if n == 0 {
      k := 0;
    } else {
      k := SmoothThrough(cfg, acfg, x, n - 1);
      if k < n - 1 {
        OpenBlocks(cfg, x, k, n - 1);
      } else if TaggedIn(x.open, n - 1) == [] {
        SmoothArrives(acfg, x, n - 1);
        k := n;
      }
    }
  }

  /**
   * Without losses and late cancellations the frames delivered are a prefix of those sent, and all of them once nothing
   * waits at the sender, whatever the numbers of frames and packets.
   */
  lemma NetSmooth(cfg: SendConfig, acfg: Config, es: seq<NetEvent>)
    requires Enough(cfg, acfg) && NetCanRun(cfg, acfg, NET_INIT, es) && Smooth(NetRun(cfg, acfg, NET_INIT, es))
    ensures var x := NetRun(cfg, acfg, NET_INIT, es);
      x.got <= x.sent && (x.s.input.None? && x.open == [] ==> x.got == x.sent)
  {
    hide Enough, NetCanRun, NetRun, Spaced, SlotOk, InTurn, Heard, Alone, AtHand, Arrives, NoneLost, PostedIn;
    NetInitOk(cfg, acfg);
    NetRunKeeps(cfg, acfg, NET_INIT, es);
    var x := NetRun(cfg, acfg, NET_INIT, es);
    SmoothSpaced(cfg, acfg, x);
    NetExact(cfg, acfg, es);
    var k := SmoothThrough(cfg, acfg, x, x.slot);
    NotYetArrived(acfg, x);
    assert x.sent[..k] + [] == x.sent[..k];
  }

  lemma NotYetArrived(acfg: Config, x: Net)
    ensures !Arrives(acfg, x, x.slot)
  {
  }
}
