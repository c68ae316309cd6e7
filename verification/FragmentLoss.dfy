/**
 * One frame over a link that loses packets, and the frames that shared its id because they were cancelled when partly
 * written: what the assembler makes of their pieces.
 */
module FragmentLoss {
  import opened Common
  import opened FragmentModel
  import opened FragmentDisassembler
  import opened FragmentEndToEnd
  import opened FragmentSlots

  /** A piece handed to the network, and whether its packet was lost. */
  datatype Posted = Posted(piece: Piece, lost: bool)

  function Pieces(ws: seq<Posted>): seq<Piece> {
    if ws == [] then [] else Pieces(ws[..|ws| - 1]) + [ws[|ws| - 1].piece]
  }

  /** The pieces that arrived. */
  function Kept(ws: seq<Posted>): seq<Piece> {
    if ws == [] then []
    else Kept(ws[..|ws| - 1]) + if ws[|ws| - 1].lost then [] else [ws[|ws| - 1].piece]
  }

  predicate NoneLost(ws: seq<Posted>) {
    forall i :: 0 <= i < |ws| ==> !ws[i].lost
  }

  /** `ps` cut `frame` from its start up to `used`, in order, and as few of them as the sender makes. */
  ghost predicate InOrder(cfg: SendConfig, frame: seq<Byte>, ps: seq<Piece>, used: nat)
    decreases |ps|
  {
    if ps == [] then used == 0
    else
      var p := ps[|ps| - 1];
      && CutFrom(frame, p) && p.End() == used
      && (p.start < |frame| || (frame == [] && |ps| == 1)) && (|p.data| > 0 || frame == [])
      && (used < |frame| ==> Packed(cfg, |ps|, used))
      && InOrder(cfg, frame, ps[..|ps| - 1], p.start)
  }

  /** The frame is all there. */
  predicate Whole(frame: seq<Byte>, ps: seq<Piece>, used: nat) {
    ps != [] && used == |frame|
  }

  lemma InOrderNext(cfg: SendConfig, frame: seq<Byte>, ps: seq<Piece>, used: nat, p: Piece)
    requires InOrder(cfg, frame, ps, used) && CutFrom(frame, p) && p.start == used
    requires (used < |frame| && |p.data| > 0) || (frame == [] && ps == [])
    requires p.End() < |frame| ==> Packed(cfg, |ps| + 1, p.End())
    ensures InOrder(cfg, frame, ps + [p], p.End())
  {
    assert (ps + [p])[..|ps|] == ps;
  }

  lemma InOrderLast(cfg: SendConfig, frame: seq<Byte>, ps: seq<Piece>, used: nat)
    requires InOrder(cfg, frame, ps, used) && ps != []
    ensures var init, p := ps[..|ps| - 1], ps[|ps| - 1];
      && CutFrom(frame, p) && p.End() == used && InOrder(cfg, frame, init, p.start)
      && !Whole(frame, init, p.start) && (|p.data| > 0 || frame == [])
      && (used < |frame| ==> Packed(cfg, |ps|, used))
      && (init != [] ==> p.start > 0)
  {
  }

  lemma PrefixNone(cfg: SendConfig, frame: seq<Byte>, used: nat)
    requires InOrder(cfg, frame, [], used)
    ensures used == 0 && Prefix(frame, [], used)
  {
  }

  // ---- nothing lost, nothing in the way ----

  /** Pieces in order, with nothing standing under their id before them, are held until they make the frame. */
  lemma {:induction false} CleanReplay(cfg: SendConfig, acfg: Config, st: seq<Piece>, frame: seq<Byte>, ps: seq<Piece>,
                                       used: nat)
    requires Enough(cfg, acfg) && |frame| <= cfg.inputMtu && InOrder(cfg, frame, ps, used)
    requires Replay(acfg, st).0 == []
    ensures used <= |frame|
    ensures Whole(frame, ps, used) ==> Replay(acfg, st + ps) == ([], Replay(acfg, st).1 + [frame])
    ensures !Whole(frame, ps, used) ==> Replay(acfg, st + ps) == (ps, Replay(acfg, st).1) && Prefix(frame, ps, used)
    decreases |ps|
  {
    hide Replay, Prefix, InOrder, Judge, Enough, Packed;
    if ps == [] {
      assert st + ps == st;
      PrefixNone(cfg, frame, used);
    } else {
      var init, p := ps[..|ps| - 1], ps[|ps| - 1];
      InOrderLast(cfg, frame, ps, used);
      CleanReplay(cfg, acfg, st, frame, init, p.start);
      assert st + ps == st + init + [p] && ps == init + [p];
      ReplayNext(acfg, st + init, p);
      PrefixExtend(acfg, frame, init, p.start, p);
      if p.End() < |frame| {
        PackedLeavesRoom(cfg, acfg, |ps|, used);
      }
    }
  }

  // ---- pieces of a cancelled frame in the way ----

  /** Pieces that were written of frames cancelled before they were finished. */
  ghost predicate Unfinished(ps: seq<Piece>) {
    forall i :: 0 <= i < |ps| ==> |ps[i].data| > 0 && !ps[i].last
  }

  lemma {:induction false} UnfinishedReplay(acfg: Config, st: seq<Piece>)
    requires Unfinished(st)
    ensures Replay(acfg, st).1 == [] && Unfinished(Replay(acfg, st).0)
    decreases |st|
  {
    if st != [] {
      var init, p := st[..|st| - 1], st[|st| - 1];
      UnfinishedReplay(acfg, init);
      var h := Replay(acfg, init).0;
      LengthNegative(h + [p]);
    }
  }

  /** Some piece lies where the frame is still to come. */
  ghost predicate Ahead(h: seq<Piece>, used: nat) {
    Unfinished(h) && exists i :: 0 <= i < |h| && h[i].start >= used
  }

  /** The start of the frame is missing. */
  ghost predicate NoStart(h: seq<Piece>) {
    forall i :: 0 <= i < |h| ==> h[i].start > 0
  }

  /** A piece of the frame runs into what lies ahead of it, or leaves it ahead. */
  lemma AheadNext(acfg: Config, h: seq<Piece>, frame: seq<Byte>, p: Piece)
    requires Ahead(h, p.start) && CutFrom(frame, p) && (|p.data| > 0 || frame == [])
    ensures !Judge(acfg, h, p).Deliver?
    ensures Judge(acfg, h, p).Keep? ==> Ahead(h + [p], p.End())
  {
    var i :| 0 <= i < |h| && h[i].start >= p.start;
    if Fits(h, p) {
      assert !Overlap(h[i], p);
      LengthNegative(h + [p]);
      assert !p.last;
      assert (h + [p])[i] == h[i];
    }
  }

  lemma NoStartNext(acfg: Config, h: seq<Piece>, p: Piece)
    requires NoStart(h) && p.start > 0
    ensures !Judge(acfg, h, p).Deliver? && NoStart(h + [p])
  {
    var qs := h + [p];
    LengthNegative(qs);
    if Length(qs) >= 0 {
      LengthIsEnd(qs);
    }
    assert !Covered(qs, 0);
    Incomplete(qs, 0);
  }

  lemma Incomplete(ps: seq<Piece>, z: nat)
    requires !Covered(ps, z) && (Length(ps) >= 0 ==> z < Length(ps))
    ensures !Complete(ps)
  {
  }

  lemma {:induction false} LengthIsEnd(ps: seq<Piece>)
    requires Length(ps) >= 0
    ensures exists i :: 0 <= i < |ps| && ps[i].last && ps[i].End() == Length(ps)
    decreases |ps|
  {
    if !ps[|ps| - 1].last {
      LengthIsEnd(ps[..|ps| - 1]);
      var i :| 0 <= i < |ps| - 1 && ps[..|ps| - 1][i].last && ps[..|ps| - 1][i].End() == Length(ps);
      assert ps[i].last;
    }
  }

  /** With pieces of a cancelled frame left under its id, a frame is not delivered. */
  lemma {:induction false} BlockedReplay(cfg: SendConfig, acfg: Config, st: seq<Piece>, frame: seq<Byte>,
                                         ps: seq<Piece>,
                                         used: nat)
    requires Unfinished(st) && Replay(acfg, st).0 != [] && InOrder(cfg, frame, ps, used)
    ensures var (h, fs) := Replay(acfg, st + ps); fs == [] && (Ahead(h, used) || (ps != [] && NoStart(h)))
    decreases |ps|
  {
    hide Replay, InOrder, Ahead, NoStart, Judge, Unfinished;
    if ps == [] {
      UnfinishedReplay(acfg, st);
      assert st + ps == st;
      AheadAtStart(Replay(acfg, st).0);
      PrefixNone(cfg, frame, used);
    } else {
      var init, p := ps[..|ps| - 1], ps[|ps| - 1];
      InOrderLast(cfg, frame, ps, used);
      BlockedReplay(cfg, acfg, st, frame, init, p.start);
      assert st + ps == st + init + [p];
      ReplayNext(acfg, st + init, p);
      var h := Replay(acfg, st + init).0;
      NoStartEmpty();
      if Ahead(h, p.start) {
        AheadNext(acfg, h, frame, p);
      } else {
        NoStartNext(acfg, h, p);
      }
      JudgeKeeps(acfg, h, p);
    }
  }

  lemma AheadAtStart(h: seq<Piece>)
    requires Unfinished(h) && h != []
    ensures Ahead(h, 0)
  {
    assert h[0].start >= 0;
  }

  lemma NoStartEmpty()
    ensures NoStart([])
  {
  }

  lemma JudgeKeeps(acfg: Config, h: seq<Piece>, p: Piece)
    ensures Judge(acfg, h, p).Keep? ==> Judge(acfg, h, p).pieces == h + [p]
  {
  }

  // ---- pieces lost ----

  /** Position `z` of the frame is missing for good: the pieces to come lie beyond it. */
  ghost predicate Hole(frame: seq<Byte>, h: seq<Piece>, z: nat, used: nat) {
    AllCutFrom(frame, h) && z < used <= |frame| && !Covered(h, z)
  }

  lemma HoleNext(acfg: Config, frame: seq<Byte>, h: seq<Piece>, z: nat, used: nat, p: Piece)
    requires Hole(frame, h, z, used) && CutFrom(frame, p) && p.start == used
    ensures !Judge(acfg, h, p).Deliver? && Hole(frame, h + [p], z, p.End()) && Hole(frame, [], z, p.End())
  {
    var qs := h + [p];
    forall i | 0 <= i < |qs| ensures !Covers(qs[i], z) && CutFrom(frame, qs[i]) {
      if i < |h| {
        assert qs[i] == h[i];
      }
    }
    if Length(qs) >= 0 {
      LengthIsEnd(qs);
    }
    assert !Covered(qs, z);
    Incomplete(qs, z);
  }

  /** A frame that lost a piece is not delivered. */
  lemma {:induction false} HoledReplay(cfg: SendConfig, acfg: Config, frame: seq<Byte>, ws: seq<Posted>, used: nat)
    requires Enough(cfg, acfg) && |frame| <= cfg.inputMtu && InOrder(cfg, frame, Pieces(ws), used) && !NoneLost(ws)
    ensures Replay(acfg, Kept(ws)).1 == []
    ensures frame != [] ==> exists z: nat :: Hole(frame, Replay(acfg, Kept(ws)).0, z, used)
    decreases |ws|
  {
    hide Replay, InOrder, Judge, Hole, NoneLost, Pieces, Kept, Enough;
    FewLost(ws);
    var init, last := ws[..|ws| - 1], ws[|ws| - 1];
    var p := last.piece;
    PostedLast(ws);
    InOrderLast(cfg, frame, Pieces(ws), used);
    if NoneLost(init) {
      LastLost(ws);
      NoneLostKept(init);
      assert [] + Kept(init) == Kept(init);
      ReplayNone(acfg);
      CleanReplay(cfg, acfg, [], frame, Kept(init), p.start);
      if frame != [] {
        HoleFirst(frame, Kept(init), p);
      }
    } else {
      HoledReplay(cfg, acfg, frame, init, p.start);
      if frame == [] {
        OneOfNone(cfg, Pieces(ws), used);
        PiecesLength(ws);
        FewLost(init);
      } else {
        var z: nat :| Hole(frame, Replay(acfg, Kept(init)).0, z, p.start);
        var h := Replay(acfg, Kept(init)).0;
        HoleNext(acfg, frame, h, z, p.start, p);
        ReplayNext(acfg, Kept(init), p);
        JudgeKeeps(acfg, h, p);
        if last.lost {
          HoleLater(frame, h, z, p.start, used);
        }
      }
    }
  }

  lemma PostedLast(ws: seq<Posted>)
    requires ws != []
    ensures var init, w := ws[..|ws| - 1], ws[|ws| - 1];
      && Pieces(ws) == Pieces(init) + [w.piece] && Pieces(ws)[..|Pieces(ws)| - 1] == Pieces(init)
      && Kept(ws) == (if w.lost then Kept(init) else Kept(init) + [w.piece])
  {
    assert Kept(ws[..|ws| - 1]) + [] == Kept(ws[..|ws| - 1]);
  }

  lemma LastLost(ws: seq<Posted>)
    requires ws != [] && NoneLost(ws[..|ws| - 1]) && !NoneLost(ws)
    ensures ws[|ws| - 1].lost
  {
    forall i | 0 <= i < |ws| - 1 ensures !ws[i].lost {
      assert ws[..|ws| - 1][i] == ws[i];
    }
  }

  lemma FewLost(ws: seq<Posted>)
    ensures ws == [] ==> NoneLost(ws)
  {
  }

  /** A frame without data has one piece at most. */
  lemma OneOfNone(cfg: SendConfig, ps: seq<Piece>, used: nat)
    requires InOrder(cfg, [], ps, used)
    ensures |ps| <= 1
  {
  }

  lemma {:induction false} PiecesLength(ws: seq<Posted>)
    ensures |Pieces(ws)| == |ws|
    decreases |ws|
  {
    if ws != [] {
      PiecesLength(ws[..|ws| - 1]);
    }
  }

  lemma {:induction false} NoneLostKept(ws: seq<Posted>)
    requires NoneLost(ws)
    ensures Kept(ws) == Pieces(ws)
    decreases |ws|
  {
    if ws != [] {
      NoneLostKept(ws[..|ws| - 1]);
    }
  }

  lemma HoleFirst(frame: seq<Byte>, ps: seq<Piece>, p: Piece)
    requires Prefix(frame, ps, p.start) && CutFrom(frame, p) && |p.data| > 0
    ensures Hole(frame, ps, p.start, p.End())
  {
  }

  lemma HoleLater(frame: seq<Byte>, h: seq<Piece>, z: nat, used: nat, later: nat)
    requires Hole(frame, h, z, used) && used <= later <= |frame|
    ensures Hole(frame, h, z, later)
  {
  }

  /**
   * One slot: its frame is delivered exactly if it is all there, no piece of it was lost, and nothing was left
   * standing of frames cancelled before it. Only a slot with both cancelled frames and losses is outside this.
   */
  lemma SlotOutcome(cfg: SendConfig, acfg: Config, st: seq<Piece>, frame: seq<Byte>, ws: seq<Posted>, used: nat)
    requires Enough(cfg, acfg) && |frame| <= cfg.inputMtu && Unfinished(st) && InOrder(cfg, frame, Pieces(ws), used)
    requires st == [] || NoneLost(ws)
    ensures Replay(acfg, st + Kept(ws)).1 ==
              if Whole(frame, Pieces(ws), used) && NoneLost(ws) && Replay(acfg, st).0 == [] then [frame] else []
  {
    hide Replay, InOrder, Enough;
    UnfinishedReplay(acfg, st);
    if NoneLost(ws) {
      NoneLostKept(ws);
      if Replay(acfg, st).0 == [] {
        CleanReplay(cfg, acfg, st, frame, Kept(ws), used);
      } else {
        BlockedReplay(cfg, acfg, st, frame, Kept(ws), used);
      }
    } else {
      HoledReplay(cfg, acfg, frame, ws, used);
      assert [] + Kept(ws) == Kept(ws);
    }
  }

  /** A frame cancelled when partly written leaves only pieces that do not end it. */
  lemma {:induction false} InOrderUnfinished(cfg: SendConfig, frame: seq<Byte>, ps: seq<Piece>, used: nat)
    requires InOrder(cfg, frame, ps, used) && !Whole(frame, ps, used)
    ensures Unfinished(ps)
    decreases |ps|
  {
    if ps != [] {
      InOrderUnfinished(cfg, frame, ps[..|ps| - 1], ps[|ps| - 1].start);
    }
  }

  // ---- what the sender writes ----

  /** The pieces of one call of write_chunks go on where the earlier ones ended. */
  lemma {:induction false} WriteInOrder(cfg: SendConfig, frame: seq<Byte>, qs: seq<Piece>, used: nat, outUsed: nat)
    requires SendConfigOk(cfg) && InOrder(cfg, frame, qs, used) && used <= |frame| && !Whole(frame, qs, used)
    requires OutAvail(cfg, outUsed) > 0 && (cfg.chunkMtu < 0 && used > 0 ==> outUsed == 0)
    ensures var ps := Write(cfg, frame, used, outUsed); InOrder(cfg, frame, qs + ps, Reach(ps))
    decreases cfg.outputMtu - outUsed
  {
    hide InOrder, NextPiece, Packed;
    var p := NextPiece(cfg, frame, used, outUsed);
    var out1 := outUsed + HEADER_LEN + |p.data|;
    NextInOrder(cfg, frame, qs, used, outUsed);
    if p.End() < |frame| && OutAvail(cfg, out1) > 0 {
      FullPacket(cfg, frame, used, outUsed);
      WriteInOrder(cfg, frame, qs + [p], p.End(), out1);
      var rest := Write(cfg, frame, p.End(), out1);
      assert qs + [p] + rest == qs + ([p] + rest);
    }
  }

  lemma NextInOrder(cfg: SendConfig, frame: seq<Byte>, qs: seq<Piece>, used: nat, outUsed: nat)
    requires SendConfigOk(cfg) && InOrder(cfg, frame, qs, used) && used <= |frame| && !Whole(frame, qs, used)
    requires OutAvail(cfg, outUsed) > 0 && (cfg.chunkMtu < 0 && used > 0 ==> outUsed == 0)
    ensures var p := NextPiece(cfg, frame, used, outUsed); InOrder(cfg, frame, qs + [p], p.End())
  {
    var p := NextPiece(cfg, frame, used, outUsed);
    if p.End() < |frame| {
      assert Packed(cfg, |qs|, used);
      PackedNext(cfg, frame, used, outUsed, |qs|);
    }
    hide NextPiece, Packed, InOrder;
    InOrderNext(cfg, frame, qs, used, p);
  }
}
