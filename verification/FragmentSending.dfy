/**
 * When chunks go out: a packet is sent when it is full, or at once if no latency is allowed; then nothing is ever
 * held back.
 */
module FragmentSending {
  import opened Common
  import opened FragmentModel
  import opened FragmentDisassembler
  import opened FragmentEndToEnd

  /** A packet being written goes out exactly when no further chunk fits into it, or no latency is allowed. */
  lemma SentWhenFull(cfg: SendConfig, s: Sender)
    requires SendConfigOk(cfg) && s.input.Some? && s.out.Some?
    requires s.input.value.used <= |s.input.value.frame| && OutAvail(cfg, Fill(s.out.value)) > 0
    ensures var (s1, eff) := WriteChunks(cfg, s);
      if eff.packet.Some? then
        s1.out == None && s.out.value < eff.packet.value &&
            (!cfg.batching || OutAvail(cfg, Fill(eff.packet.value)) <= 0)
      else
        s1.out.Some? && s.out.value < s1.out.value && cfg.batching && OutAvail(cfg, Fill(s1.out.value)) > 0
  {
    hide Write, EncodeAll, Size;
    var ps := Write(cfg, s.input.value.frame, s.input.value.used, Fill(s.out.value));
    FillAppend(s.out.value, s.frameId, ps);
    assert s.out.value + Label(s.frameId, ps) != s.out.value;
  }

  /** A frame is done with exactly when its last byte is written. */
  lemma DoneWhenWritten(cfg: SendConfig, s: Sender)
    requires SendConfigOk(cfg) && s.input.Some? && s.out.Some?
    requires s.input.value.used <= |s.input.value.frame| && OutAvail(cfg, Fill(s.out.value)) > 0
    ensures var (s1, eff) := WriteChunks(cfg, s); var all := if eff.packet.Some? then eff.packet else s1.out;
      && all.Some? && all.value != []
      && (eff.inputDone <==> s1.input == None) && (eff.inputDone <==> all.value[|all.value| - 1].piece.last)
      && (s1.input.Some? ==>
            && s1.input.value.frame == s.input.value.frame
            && s1.input.value.used == all.value[|all.value| - 1].piece.End() && eff.packet.Some?)
  {
    hide EncodeAll, Size;
    var frame, used, fill := s.input.value.frame, s.input.value.used, Fill(s.out.value);
    var ps := Write(cfg, frame, used, fill);
    WriteFacts(cfg, frame, used, fill);
    var out1 := s.out.value + Label(s.frameId, ps);
    assert out1[|out1| - 1] == Chunk(s.frameId, ps[|ps| - 1]);
    WritePieces(cfg, frame, used, fill, |ps| - 1);
  }

  /** Without latency no chunk waits. */
  ghost predicate NothingHeld(s: Sender) {
    Pending(s) == []
  }

  lemma StepHoldsNothing(cfg: SendConfig, acfg: Config, x: System, e: Event)
    requires SendConfigOk(cfg) && !cfg.batching && SystemInv(cfg, acfg, x) && Enabled(cfg, x, e) && NothingHeld(x.s)
    ensures NothingHeld(Step(cfg, acfg, x, e).s)
  {
    hide WriteChunks, Receive, InStep;
    match e {
      case Offer(frame, _) =>
        if x.s.out.Some? {
          SentWhenFull(cfg, x.s.(input := Some(Input(frame, 0))));
        }
      case Room(_) =>
        if x.s.input.Some? {
          SentWhenFull(cfg, x.s.(out := Some([])));
        }
      case _ =>
    }
  }

  lemma {:induction false} RunHoldsNothing(cfg: SendConfig, acfg: Config, x: System, es: seq<Event>)
    requires Enough(cfg, acfg) && !cfg.batching
    requires SystemInv(cfg, acfg, x) && CanRun(cfg, acfg, x, es) && NothingHeld(x.s)
    ensures NothingHeld(Run(cfg, acfg, x, es).s)
    decreases |es|
  {
    hide SystemInv, Step, NothingHeld;
    if es != [] {
      StepKeeps(cfg, acfg, x, es[0]);
      StepHoldsNothing(cfg, acfg, x, es[0]);
      RunHoldsNothing(cfg, acfg, Step(cfg, acfg, x, es[0]), es[1..]);
    }
  }

  /**
   * Without latency the frames delivered are at all times all those sent, except one that is not written to its end.
   */
  lemma DeliveredAtOnce(cfg: SendConfig, acfg: Config, es: seq<Event>)
    requires Enough(cfg, acfg) && !cfg.batching && CanRun(cfg, acfg, SystemInit, es)
    ensures var x := Run(cfg, acfg, SystemInit, es); x.got + Unwritten(x.s) == x.sent
  {
    hide SenderOk, CanRun, Run, Quiet, Ready, ProcessAll;
    InitKeeps(cfg, acfg);
    RunKeeps(cfg, acfg, SystemInit, es);
    RunHoldsNothing(cfg, acfg, SystemInit, es);
    var x := Run(cfg, acfg, SystemInit, es);
    ProcessNothing(acfg, x.m);
    assert x.got + [] == x.got;
  }
}
