/**
 * The disassembler of client/FragmentProtoDisassembler.c: frames are cut into chunks that are packed into output
 * packets, several frames to a packet when the latency timer allows it.
 */
module FragmentDisassembler {
  import opened Common
  import opened FragmentModel

  /** `batching` is the source's latency >= 0; `chunkMtu` is negative when chunks are only limited by the packet. */
  datatype SendConfig = SendConfig(inputMtu: nat, outputMtu: nat, chunkMtu: int, batching: bool)

  ghost predicate SendConfigOk(cfg: SendConfig) {
    cfg.inputMtu < TWO_16 && HEADER_LEN < cfg.outputMtu && cfg.chunkMtu != 0
  }

  /** The macro OUT_AVAIL. */
  function OutAvail(cfg: SendConfig, outUsed: nat): int {
    cfg.outputMtu - outUsed - HEADER_LEN
  }

  function ChunkLen(cfg: SendConfig, inAvail: nat, outUsed: nat): int {
    var n := Min(inAvail, OutAvail(cfg, outUsed));
    if cfg.chunkMtu > 0 then Min(n, cfg.chunkMtu) else n
  }

  /** The next piece of `frame`, of which `used` bytes are already written. */
  function NextPiece(cfg: SendConfig, frame: seq<Byte>, used: nat, outUsed: nat): (p: Piece)
    requires used <= |frame| && OutAvail(cfg, outUsed) > 0 && cfg.chunkMtu != 0
    ensures p.start == used && used <= p.End() <= |frame| && p.data == frame[used..p.End()]
    ensures p.last <==> p.End() == |frame|
    ensures used < |frame| ==> |p.data| > 0
    ensures outUsed + HEADER_LEN + |p.data| <= cfg.outputMtu
    ensures cfg.chunkMtu > 0 ==> |p.data| <= cfg.chunkMtu
    ensures p.last || outUsed + HEADER_LEN + |p.data| == cfg.outputMtu || |p.data| == cfg.chunkMtu
  {
    var n := ChunkLen(cfg, |frame| - used, outUsed);
    Piece(used, frame[used..used + n], n == |frame| - used)
  }

  /** What one call of write_chunks writes: pieces until the frame or the room in the packet is used up. */
  function Write(cfg: SendConfig, frame: seq<Byte>, used: nat, outUsed: nat): (ps: seq<Piece>)
    requires used <= |frame| && OutAvail(cfg, outUsed) > 0 && cfg.chunkMtu != 0
    ensures ps != []
    decreases cfg.outputMtu - outUsed
  {
    var p := NextPiece(cfg, frame, used, outUsed);
    var out1 := outUsed + HEADER_LEN + |p.data|;
    if p.End() < |frame| && OutAvail(cfg, out1) > 0 then [p] + Write(cfg, frame, p.End(), out1) else [p]
  }

  function Size(ps: seq<Piece>): nat {
    if ps == [] then 0 else HEADER_LEN + |ps[0].data| + Size(ps[1..])
  }

  /** End of the written part of the frame after `ps`. */
  function Reach(ps: seq<Piece>): nat
    requires ps != []
  {
    ps[|ps| - 1].End()
  }

  lemma {:induction false} WriteFacts(cfg: SendConfig, frame: seq<Byte>, used: nat, outUsed: nat)
    requires used <= |frame| && OutAvail(cfg, outUsed) > 0 && cfg.chunkMtu != 0
    ensures var ps := Write(cfg, frame, used, outUsed);
      && used <= Reach(ps) <= |frame|
      && (used < |frame| ==> used < Reach(ps))
      && outUsed < outUsed + Size(ps) <= cfg.outputMtu
      && (Reach(ps) < |frame| ==> OutAvail(cfg, outUsed + Size(ps)) <= 0)
    decreases cfg.outputMtu - outUsed
  {
    hide Size, Reach, Label, NextPiece;
    var p := NextPiece(cfg, frame, used, outUsed);
    var out1 := outUsed + HEADER_LEN + |p.data|;
    if p.End() < |frame| && OutAvail(cfg, out1) > 0 {
      WriteFacts(cfg, frame, p.End(), out1);
      LabelCons([], 0, p, Write(cfg, frame, p.End(), out1));
    } else {
      LabelOne([], 0, p);
    }
  }

  function Label(id: FrameId, ps: seq<Piece>): (cs: seq<Chunk>)
    ensures |cs| == |ps|
    ensures forall i :: 0 <= i < |ps| ==> cs[i] == Chunk(id, ps[i])
  {
    seq(|ps|, i requires 0 <= i < |ps| => Chunk(id, ps[i]))
  }

  /** One turn of the loop. */
  lemma WriteUnfold(cfg: SendConfig, frame: seq<Byte>, used: nat, outUsed: nat, before: seq<Chunk>, id: FrameId)
    requires used <= |frame| && OutAvail(cfg, outUsed) > 0 && cfg.chunkMtu != 0
    ensures var p := NextPiece(cfg, frame, used, outUsed); var out1 := outUsed + HEADER_LEN + |p.data|;
      if p.End() < |frame| && OutAvail(cfg, out1) > 0
      then Outcome(cfg, frame, used, outUsed, before, id) ==
          Outcome(cfg, frame, p.End(), out1, before + [Chunk(id, p)], id)
      else Outcome(cfg, frame, used, outUsed, before, id) == (before + [Chunk(id, p)], p.End(), out1)
  {
    hide Label, Size, Reach, NextPiece;
    var p := NextPiece(cfg, frame, used, outUsed);
    var out1 := outUsed + HEADER_LEN + |p.data|;
    if p.End() < |frame| && OutAvail(cfg, out1) > 0 {
      LabelCons(before, id, p, Write(cfg, frame, p.End(), out1));
    } else {
      LabelOne(before, id, p);
    }
  }

  lemma LabelOne(before: seq<Chunk>, id: FrameId, p: Piece)
    ensures before + Label(id, [p]) == before + [Chunk(id, p)]
    ensures Size([p]) == HEADER_LEN + |p.data| && Reach([p]) == p.End()
  {
    assert Size([p]) == HEADER_LEN + |p.data| + Size([]);
  }

  lemma LabelCons(before: seq<Chunk>, id: FrameId, p: Piece, rest: seq<Piece>)
    ensures before + Label(id, [p] + rest) == before + [Chunk(id, p)] + Label(id, rest)
    ensures Size([p] + rest) == HEADER_LEN + |p.data| + Size(rest)
    ensures Reach([p] + rest) == if rest == [] then p.End() else Reach(rest)
  {
    assert ([p] + rest)[1..] == rest;
  }

  /** Chunks, input position and output position when write_chunks leaves its loop. */
  ghost function Outcome(cfg: SendConfig, frame: seq<Byte>, used: nat, outUsed: nat, before: seq<Chunk>, id: FrameId)
    : (seq<Chunk>, nat, nat)
    requires used <= |frame| && OutAvail(cfg, outUsed) > 0 && cfg.chunkMtu != 0
  {
    var ps := Write(cfg, frame, used, outUsed);
    (before + Label(id, ps), Reach(ps), outUsed + Size(ps))
  }

  // ---- the handlers as steps ----

  /** A frame being written, and how much of it has been written. */
  datatype Input = Input(frame: seq<Byte>, used: nat)

  /** `out` holds the chunks written so far to the output packet at hand. */
  datatype Sender = Sender(input: Option<Input>, out: Option<seq<Chunk>>, frameId: nat)

  const SenderInit := Sender(None, None, 0)

  /** What a step hands on: a finished packet, and whether the input frame was taken. */
  datatype Effect = Effect(packet: Option<seq<Chunk>>, inputDone: bool)

  function Fill(out: seq<Chunk>): nat { |EncodeAll(out)| }

  ghost predicate SenderOk(cfg: SendConfig, s: Sender) {
    && s.frameId < TWO_16
    && (s.input.Some? ==> s.out == None)
    && (s.input.Some? ==> |s.input.value.frame| <= cfg.inputMtu)
    && (s.input.Some? ==> s.input.value.used == 0 || s.input.value.used < |s.input.value.frame|)
    && (s.out.Some? ==> OutAvail(cfg, Fill(s.out.value)) > 0)
    && (s.out.Some? ==> forall c :: c in s.out.value ==> WireOk(c))
  }

  function WriteChunks(cfg: SendConfig, s: Sender): (r: (Sender, Effect))
    requires SendConfigOk(cfg) && s.input.Some? && s.out.Some?
    requires s.input.value.used <= |s.input.value.frame| && OutAvail(cfg, Fill(s.out.value)) > 0
  {
    var frame := s.input.value.frame;
    var ps := Write(cfg, frame, s.input.value.used, Fill(s.out.value));
    var out1 := s.out.value + Label(s.frameId, ps);
    var finished := Reach(ps) == |frame|;
    var full := OutAvail(cfg, Fill(s.out.value) + Size(ps)) <= 0 || !cfg.batching;
    (Sender(if finished then None else Some(Input(frame, Reach(ps))),
            if full then None else Some(out1),
            if finished then (s.frameId + 1) % TWO_16 else s.frameId),
     Effect(if full then Some(out1) else None, finished))
  }

  /** input_handler_send */
  function Send(cfg: SendConfig, s: Sender, frame: seq<Byte>): (r: (Sender, Effect))
    requires SendConfigOk(cfg) && SenderOk(cfg, s) && s.input == None && |frame| <= cfg.inputMtu
  {
    var s1 := s.(input := Some(Input(frame, 0)));
    if s.out == None then (s1, Effect(None, false)) else WriteChunks(cfg, s1)
  }

  /** output_handler_recv */
  function Recv(cfg: SendConfig, s: Sender): (r: (Sender, Effect))
    requires SendConfigOk(cfg) && SenderOk(cfg, s) && s.out == None
  {
    var s1 := s.(out := Some([]));
    if s.input == None then (s1, Effect(None, false)) else WriteChunks(cfg, s1)
  }

  /** timer_handler */
  function Timer(cfg: SendConfig, s: Sender): (r: (Sender, Effect))
    requires s.out.Some?
  {
    (s.(out := None), Effect(s.out, false))
  }

  /** input_handler_requestcancel; the frame id is not advanced. */
  function Cancel(s: Sender): (r: (Sender, Effect))
    requires s.input.Some?
  {
    (s.(input := None), Effect(None, true))
  }

  // ---- encoded sizes ----

  lemma {:induction false} FillAppend(out: seq<Chunk>, id: FrameId, ps: seq<Piece>)
    ensures Fill(out + Label(id, ps)) == Fill(out) + Size(ps)
    decreases |ps|
  {
    hide EncodeAll;
    if ps == [] {
      assert out + Label(id, ps) == out;
    } else {
      var out1 := out + [Chunk(id, ps[0])];
      EncodeAppend(out, Chunk(id, ps[0]));
      FillAppend(out1, id, ps[1..]);
      assert [ps[0]] + ps[1..] == ps;
      LabelCons(out, id, ps[0], ps[1..]);
    }
  }

  lemma {:induction false} WritePieces(cfg: SendConfig, frame: seq<Byte>, used: nat, outUsed: nat, i: nat)
    requires used <= |frame| && OutAvail(cfg, outUsed) > 0 && cfg.chunkMtu != 0
    requires i < |Write(cfg, frame, used, outUsed)|
    ensures var p := Write(cfg, frame, used, outUsed)[i];
      && used <= p.start <= p.End() <= |frame| && p.data == frame[p.start..p.End()] && (p.last <==> p.End() == |frame|)
      && (cfg.chunkMtu > 0 ==> |p.data| <= cfg.chunkMtu)
    decreases i
  {
    hide NextPiece, ChunkLen;
    var p := NextPiece(cfg, frame, used, outUsed);
    if i > 0 {
      WritePieces(cfg, frame, p.End(), outUsed + HEADER_LEN + |p.data|, i - 1);
    }
  }

  lemma WriteChunksKeeps(cfg: SendConfig, s: Sender)
    requires SendConfigOk(cfg) && s.frameId < TWO_16 && s.input.Some? && s.out.Some?
    requires |s.input.value.frame| <= cfg.inputMtu && s.input.value.used <= |s.input.value.frame|
    requires OutAvail(cfg, Fill(s.out.value)) > 0 && forall c :: c in s.out.value ==> WireOk(c)
    ensures SenderOk(cfg, WriteChunks(cfg, s).0)
    ensures var p := WriteChunks(cfg, s).1.packet;
      p.Some? ==> Fill(p.value) <= cfg.outputMtu && forall c :: c in p.value ==> WireOk(c)
  {
    hide Write, EncodeAll, Size;
    var frame, used, out := s.input.value.frame, s.input.value.used, s.out.value;
    var ps := Write(cfg, frame, used, Fill(out));
    WriteFacts(cfg, frame, used, Fill(out));
    FillAppend(out, s.frameId, ps);
    var out1 := out + Label(s.frameId, ps);
    forall c | c in out1 ensures WireOk(c) {
      var i :| 0 <= i < |out1| && out1[i] == c;
      if i < |out| {
        assert c in out;
      } else {
        WritePieces(cfg, frame, used, Fill(out), i - |out|);
      }
    }
  }

  /** Every handler keeps the invariant; in particular input and output are never both left waiting. */
  lemma HandlersKeep(cfg: SendConfig, s: Sender, frame: seq<Byte>)
    requires SendConfigOk(cfg) && SenderOk(cfg, s)
    ensures s.input == None && |frame| <= cfg.inputMtu ==> SenderOk(cfg, Send(cfg, s, frame).0)
    ensures s.out == None ==> SenderOk(cfg, Recv(cfg, s).0)
    ensures s.out.Some? ==> SenderOk(cfg, Timer(cfg, s).0) && s.input == None
    ensures s.input.Some? ==> SenderOk(cfg, Cancel(s).0) && s.out == None
  {
    hide WriteChunks;
    if s.input == None && |frame| <= cfg.inputMtu && s.out.Some? {
      WriteChunksKeeps(cfg, s.(input := Some(Input(frame, 0))));
    }
    if s.out == None && s.input.Some? {
      WriteChunksKeeps(cfg, s.(out := Some([])));
    }
  }

  // ---- the object ----

  class Disassembler {
    const inputMtu: nat
    const outputMtu: nat
    const chunkMtu: int
    const latency: int
    var inLen: int
    var input: seq<Byte>
    var inUsed: nat
    var haveOut: bool
    var out: seq<Byte>
    var outUsed: nat
    var frameId: nat
    var timerRunning: bool
    ghost var pending: seq<Chunk>

    ghost function Cfg(): SendConfig {
      SendConfig(inputMtu, outputMtu, chunkMtu, latency >= 0)
    }

    ghost function View(): Sender
      reads this
    {
      Sender(if inLen >= 0 then Some(Input(input, inUsed)) else None, if haveOut then Some(pending) else None, frameId)
    }

    /** The output packet holds the encoding of the pending chunks. */
    ghost predicate Encoded()
      reads this
    {
      && SendConfigOk(Cfg())
      && (inLen >= 0 ==> inLen == |input|)
      && (haveOut ==> |out| == outputMtu && outUsed <= outputMtu && out[..outUsed] == EncodeAll(pending))
    }

    ghost predicate Valid()
      reads this
    {
      && Encoded() && SenderOk(Cfg(), View())
      && (latency >= 0 ==> (timerRunning <==> haveOut && outUsed > 0))
      && (latency < 0 ==> !timerRunning && (haveOut ==> outUsed == 0))
    }

    constructor (inputMtu: nat, outputMtu: nat, chunkMtu: int, latency: int)
      requires inputMtu < TWO_16 && outputMtu > HEADER_LEN && chunkMtu != 0
      ensures Valid() && Cfg() == SendConfig(inputMtu, outputMtu, chunkMtu, latency >= 0) && View() == SenderInit
    {
      this.inputMtu, this.outputMtu, this.chunkMtu, this.latency := inputMtu, outputMtu, chunkMtu, latency;
      inLen, input, inUsed := -1, [], 0;
      haveOut, out, outUsed := false, [], 0;
      frameId, timerRunning := 0, false;
      pending := [];
    }

    /** The body of the loop of write_chunks. */
    method WriteOne()
      requires Encoded() && inLen >= 0 && haveOut && inUsed <= inLen && OutAvail(Cfg(), outUsed) > 0
      modifies this`inUsed, this`out, this`outUsed, this`pending
      ensures Encoded()
      ensures var p := NextPiece(Cfg(), input, old(inUsed), old(outUsed));
        && pending == old(pending) + [Chunk(frameId, p)]
        && inUsed == p.End() && outUsed == old(outUsed) + HEADER_LEN + |p.data|
    {
      hide EncodeAll, EncodeChunk;
      var chunkLen := Min(inLen - inUsed, outputMtu - outUsed - HEADER_LEN);
      if chunkMtu > 0 {
        chunkLen := Min(chunkLen, chunkMtu);
      }
      var c := Chunk(frameId, Piece(inUsed, input[inUsed..inUsed + chunkLen], chunkLen == inLen - inUsed));
      EncodeAppend(pending, c);
      out := Splice(out, outUsed, EncodeChunk(c));
      assert out[..outUsed + HEADER_LEN + chunkLen] == old(out[..outUsed]) + EncodeChunk(c);
      pending := pending + [c];
      inUsed := inUsed + chunkLen;
      outUsed := outUsed + HEADER_LEN + chunkLen;
    }

    /** The loop of write_chunks. */
    method WriteLoop()
      requires Encoded() && inLen >= 0 && haveOut && inUsed <= inLen && OutAvail(Cfg(), outUsed) > 0
      modifies this`inUsed, this`out, this`outUsed, this`pending
      ensures Encoded()
      ensures (pending, inUsed, outUsed) == old(Outcome(Cfg(), input, inUsed, outUsed, pending, frameId))
    {
      hide Outcome, EncodeAll, NextPiece;
      ghost var goal := Outcome(Cfg(), input, inUsed, outUsed, pending, frameId);
      while true
        invariant Encoded() && inUsed <= inLen && OutAvail(Cfg(), outUsed) > 0
        invariant goal == Outcome(Cfg(), input, inUsed, outUsed, pending, frameId)
        decreases outputMtu - outUsed
      {
        WriteUnfold(Cfg(), input, inUsed, outUsed, pending, frameId);
        WriteOne();
        if !(inLen - inUsed > 0 && outputMtu - outUsed - HEADER_LEN > 0) {
          break;
        }
      }
    }

    method DoWriteChunks() returns (packet: Option<seq<Byte>>, inputDone: bool)
      requires Encoded() && inLen >= 0 && haveOut && |input| <= inputMtu && inUsed <= inLen && frameId < TWO_16
      requires OutAvail(Cfg(), outUsed) > 0 && (latency < 0 ==> outUsed == 0 && !timerRunning)
      requires forall c :: c in pending ==> WireOk(c)
      modifies this`inUsed, this`out, this`outUsed, this`pending
      modifies this`inLen, this`frameId, this`haveOut, this`timerRunning
      ensures Valid()
      ensures var (s, e) := WriteChunks(Cfg(), old(View()));
        && View() == s && inputDone == e.inputDone
        && packet == (if e.packet.Some? then Some(EncodeAll(e.packet.value)) else None)
    {
      hide Write, Size, EncodeAll, SenderOk, WireOk, Label;
      assert Fill(pending) == outUsed;
      WriteChunksKeeps(Cfg(), View());
      WriteFacts(Cfg(), input, inUsed, outUsed);
      WriteLoop();
      inputDone := FinishInput();
      packet := FinishOutput();
    }

    /** The input is done with when all of it is written, and the next frame gets the next id. */
    method FinishInput() returns (inputDone: bool)
      requires inLen >= 0 && inUsed <= inLen
      modifies this`inLen, this`frameId
      ensures inputDone == (inUsed == old(inLen))
      ensures inLen == (if inputDone then -1 else old(inLen))
      ensures frameId == if inputDone then (old(frameId) + 1) % TWO_16 else old(frameId)
    {
      inputDone := inLen - inUsed == 0;
      if inputDone {
        inLen := -1;
        frameId := (frameId + 1) % TWO_16;
      }
    }

    /** A packet that is full, or that must not wait, is handed on; otherwise the timer runs. */
    method FinishOutput() returns (packet: Option<seq<Byte>>)
      requires haveOut && outUsed <= |out|
      modifies this`haveOut, this`timerRunning
      ensures packet.Some? == (OutAvail(Cfg(), outUsed) <= 0 || latency < 0)
      ensures packet.Some? ==> packet.value == out[..outUsed]
      ensures haveOut == packet.None? && timerRunning == packet.None?
    {
      packet := None;
      if outputMtu - outUsed - HEADER_LEN <= 0 || latency < 0 {
        haveOut := false;
        timerRunning := false;
        packet := Some(out[..outUsed]);
      } else if !timerRunning {
        timerRunning := true;
      }
    }

    method InputSend(data: seq<Byte>) returns (packet: Option<seq<Byte>>, inputDone: bool)
      requires Valid() && inLen == -1 && |data| <= inputMtu
      modifies this
      ensures Valid()
      ensures var (s, e) := Send(Cfg(), old(View()), data);
        && View() == s && inputDone == e.inputDone
        && packet == (if e.packet.Some? then Some(EncodeAll(e.packet.value)) else None)
    {
      hide WriteChunks, EncodeAll;
      inLen, input, inUsed := |data|, data, 0;
      if !haveOut {
        return None, false;
      }
      assert Fill(pending) == outUsed;
      packet, inputDone := DoWriteChunks();
    }

    method OutputRecv(buffer: seq<Byte>) returns (packet: Option<seq<Byte>>, inputDone: bool)
      requires Valid() && !haveOut && |buffer| == outputMtu
      modifies this
      ensures Valid()
      ensures var (s, e) := Recv(Cfg(), old(View()));
        && View() == s && inputDone == e.inputDone
        && packet == (if e.packet.Some? then Some(EncodeAll(e.packet.value)) else None)
    {
      hide WriteChunks;
      haveOut, out, outUsed := true, buffer, 0;
      pending := [];
      if inLen < 0 {
        return None, false;
      }
      packet, inputDone := DoWriteChunks();
    }

    method TimerExpired() returns (packet: seq<Byte>)
      requires Valid() && timerRunning
      modifies this`haveOut, this`timerRunning
      ensures Valid() && old(View()).out.Some? && old(inLen) < 0
      ensures View() == Timer(Cfg(), old(View())).0 && packet == EncodeAll(old(View()).out.value)
    {
      hide EncodeAll;
      haveOut, timerRunning := false, false;
      packet := out[..outUsed];
    }

    method RequestCancel()
      requires Valid() && inLen >= 0
      modifies this`inLen
      ensures Valid() && old(View()).input.Some? && View() == Cancel(old(View())).0
    {
      hide EncodeAll;
      inLen := -1;
    }
  }
}
