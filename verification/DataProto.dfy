/**
 * Flows, their buffers and the sinks they send through, as in client/DataProto.c. A buffer whose packet is being sent
 * cannot leave its sink at once: the detach is scheduled, and finished when the queue reports the packet done or the
 * sink goes away. Meanwhile the flow may ask for another sink, or be freed.
 */
module DataProto {
  import opened Common

  type FlowId = nat
  type BufferId = nat
  type SinkId = nat

  datatype Flow = Flow(buffer: BufferId, desired: Option<SinkId>)

  /** `flow` is None once the flow is freed; `handler` says that the busy handler of the queue flow is set. */
  datatype Buffer = Buffer(flow: Option<FlowId>, sink: Option<SinkId>, handler: bool)

  /** `sending` is the buffer whose queue flow is busy. */
  datatype Sink = Sink(detaching: Option<BufferId>, sending: Option<BufferId>)

  datatype State = State(flows: map<FlowId, Flow>, buffers: map<BufferId, Buffer>, sinks: map<SinkId, Sink>)

  const StateInit := State(map[], map[], map[])

  // ---- flow_buffer_* ----

  predicate Busy(x: State, b: BufferId)
    requires b in x.buffers
  {
    var s := x.buffers[b].sink;
    s.Some? && s.value in x.sinks && x.sinks[s.value].sending == Some(b)
  }

  predicate IsDetaching(x: State, b: BufferId)
    requires b in x.buffers
  {
    var s := x.buffers[b].sink;
    s.Some? && s.value in x.sinks && x.sinks[s.value].detaching == Some(b)
  }

  function AttachBuffer(x: State, b: BufferId, k: SinkId): State
    requires b in x.buffers
  {
    x.(buffers := x.buffers[b := x.buffers[b].(sink := Some(k), handler := false)])
  }

  /** flow_buffer_detach; the sink forgets the buffer, and its queue forgets the flow. */
  function DetachBuffer(x: State, b: BufferId): State
    requires b in x.buffers && x.buffers[b].sink.Some? && x.buffers[b].sink.value in x.sinks
  {
    var k := x.buffers[b].sink.value;
    var s := x.sinks[k];
    State(x.flows,
          x.buffers[b := x.buffers[b].(sink := None, handler := false)],
          x.sinks[k := Sink(if s.detaching == Some(b) then None else s.detaching,
                            if s.sending == Some(b) then None else s.sending)])
  }

  function ScheduleDetach(x: State, b: BufferId): State
    requires b in x.buffers && x.buffers[b].sink.Some? && x.buffers[b].sink.value in x.sinks
  {
    var k := x.buffers[b].sink.value;
    if x.sinks[k].detaching == Some(b) then x
    else x.(buffers := x.buffers[b := x.buffers[b].(handler := true)],
            sinks := x.sinks[k := x.sinks[k].(detaching := Some(b))])
  }

  function FinishDetach(x: State, b: BufferId): State
    requires b in x.buffers && x.buffers[b].sink.Some? && x.buffers[b].sink.value in x.sinks
    requires x.buffers[b].flow.Some? ==> x.buffers[b].flow.value in x.flows
  {
    var x1 := DetachBuffer(x, b);
    var f := x.buffers[b].flow;
    if f == None then x1.(buffers := x1.buffers - {b})
    else if x.flows[f.value].desired.Some? then AttachBuffer(x1, b, x.flows[f.value].desired.value)
    else x1
  }

  // ---- the invariant ----

  ghost predicate Linked(x: State) {
    && (forall f :: f in x.flows ==> x.flows[f].buffer in x.buffers && x.buffers[x.flows[f].buffer].flow == Some(f))
    && (forall b :: b in x.buffers && x.buffers[b].flow.Some? ==>
          x.buffers[b].flow.value in x.flows && x.flows[x.buffers[b].flow.value].buffer == b)
    && (forall f :: f in x.flows && x.flows[f].desired.Some? ==> x.flows[f].desired.value in x.sinks)
    && (forall b :: b in x.buffers && x.buffers[b].sink.Some? ==> x.buffers[b].sink.value in x.sinks)
  }

  /** A sink's busy buffer and detaching buffer are attached to it; only a busy buffer is ever detaching. */
  ghost predicate SinkOk(x: State, k: SinkId)
    requires k in x.sinks
  {
    var s := x.sinks[k];
    && (s.sending.Some? ==> s.sending.value in x.buffers && x.buffers[s.sending.value].sink == Some(k))
    && (s.detaching.Some? ==>
          s.detaching == s.sending && s.detaching.value in x.buffers && x.buffers[s.detaching.value].handler)
  }

  /** Where the flow of a buffer wants it; an orphaned buffer is wanted nowhere. */
  function Desired(x: State, b: BufferId): Option<SinkId>
    requires b in x.buffers && (x.buffers[b].flow.Some? ==> x.buffers[b].flow.value in x.flows)
  {
    if x.buffers[b].flow.Some? then x.flows[x.buffers[b].flow.value].desired else None
  }

  /** A buffer is where its flow wants it, or its sink is detaching it; an orphan is always being detached. */
  ghost predicate BufferOk(x: State, b: BufferId)
    requires b in x.buffers && (x.buffers[b].flow.Some? ==> x.buffers[b].flow.value in x.flows)
  {
    && (x.buffers[b].sink == Desired(x, b) || IsDetaching(x, b))
    && (x.buffers[b].flow == None ==> IsDetaching(x, b))
    && (x.buffers[b].handler <==> IsDetaching(x, b))
  }

  ghost predicate Inv(x: State) {
    && Linked(x)
    && (forall k :: k in x.sinks ==> SinkOk(x, k))
    && (forall b :: b in x.buffers ==> BufferOk(x, b))
  }

  // ---- events ----

  datatype Event =
    | SinkInit(k: SinkId)
    | SinkFree(k: SinkId)
    | FlowInit(f: FlowId, b: BufferId)
    | FlowFree(f: FlowId)
    | Attach(f: FlowId, k: SinkId)
    | Detach(f: FlowId)
    | Start(b: BufferId)
    | Done(k: SinkId)

  /** What the callers and the queue keep to. */
  ghost predicate Enabled(x: State, e: Event) {
    match e
    case SinkInit(k) => k !in x.sinks
    case SinkFree(k) => k in x.sinks && forall f :: f in x.flows ==> x.flows[f].desired != Some(k)
    case FlowInit(f, b) => f !in x.flows && b !in x.buffers
    case FlowFree(f) => f in x.flows && x.flows[f].desired == None
    case Attach(f, k) => f in x.flows && x.flows[f].desired == None && k in x.sinks
    case Detach(f) => f in x.flows && x.flows[f].desired.Some?
    case Start(b) => b in x.buffers && x.buffers[b].sink.Some? && x.buffers[b].sink.value in x.sinks
                     && x.sinks[x.buffers[b].sink.value].sending == None
    case Done(k) => k in x.sinks && x.sinks[k].sending.Some?
  }

  function SetDesired(x: State, f: FlowId, k: Option<SinkId>): State
    requires f in x.flows
  {
    x.(flows := x.flows[f := x.flows[f].(desired := k)])
  }

  function DoFlowFree(x: State, f: FlowId): State
    requires Linked(x) && f in x.flows
  {
    var b := x.flows[f].buffer;
    if x.buffers[b].sink.Some? then
      if Busy(x, b) then
        var x1 := ScheduleDetach(x, b);
        State(x1.flows - {f}, x1.buffers[b := x1.buffers[b].(flow := None)], x1.sinks)
      else
        var x1 := DetachBuffer(x, b);
        State(x1.flows - {f}, x1.buffers - {b}, x1.sinks)
    else State(x.flows - {f}, x.buffers - {b}, x.sinks)
  }

  function DoAttach(x: State, f: FlowId, k: SinkId): State
    requires Linked(x) && f in x.flows
  {
    var b := x.flows[f].buffer;
    var x1 :=
      if x.buffers[b].sink.Some? then
        if Busy(x, b) then ScheduleDetach(x, b) else AttachBuffer(DetachBuffer(x, b), b, k)
      else AttachBuffer(x, b, k);
    SetDesired(x1, f, Some(k))
  }

  function DoDetach(x: State, f: FlowId): State
    requires Linked(x) && f in x.flows && x.buffers[x.flows[f].buffer].sink.Some?
  {
    var b := x.flows[f].buffer;
    SetDesired(if Busy(x, b) then ScheduleDetach(x, b) else DetachBuffer(x, b), f, None)
  }

  /** The queue finished the packet of its busy flow and calls the one-shot busy handler if it is set. */
  function DoDone(x: State, k: SinkId): State
    requires Inv(x) && k in x.sinks && x.sinks[k].sending.Some?
  {
    var b := x.sinks[k].sending.value;
    assert SinkOk(x, k);
    var x1 := x.(sinks := x.sinks[k := x.sinks[k].(sending := None)]);
    if x.buffers[b].handler then FinishDetach(x1, b) else x1
  }

  function DoSinkFree(x: State, k: SinkId): State
    requires Inv(x) && k in x.sinks
  {
    var d := x.sinks[k].detaching;
    assert SinkOk(x, k);
    var x1 := if d.Some? then FinishDetach(x, d.value) else x;
    x1.(sinks := x1.sinks - {k})
  }

  ghost function Step(x: State, e: Event): State
    requires Inv(x) && Enabled(x, e)
  {
    match e
    case SinkInit(k) => x.(sinks := x.sinks[k := Sink(None, None)])
    case SinkFree(k) => DoSinkFree(x, k)
    case FlowInit(f, b) =>
      x.(flows := x.flows[f := Flow(b, None)], buffers := x.buffers[b := Buffer(Some(f), None, false)])
    case FlowFree(f) => DoFlowFree(x, f)
    case Attach(f, k) => DoAttach(x, f, k)
    case Detach(f) => DetachHasSink(x, f); DoDetach(x, f)
    case Start(b) =>
      x.(sinks := x.sinks[x.buffers[b].sink.value := x.sinks[x.buffers[b].sink.value].(sending := Some(b))])
    case Done(k) => DoDone(x, k)
  }

  /** The assertion of DataProtoFlow_Detach: a flow that wants a sink has a buffer on some sink. */
  lemma DetachHasSink(x: State, f: FlowId)
    requires Inv(x) && f in x.flows && x.flows[f].desired.Some?
    ensures x.buffers[x.flows[f].buffer].sink.Some?
  {
    assert BufferOk(x, x.flows[f].buffer);
  }

  /**
   * The assertions of flow_buffer_schedule_detach: a buffer on a sink its flow does not want is busy there and is the
   * sink's detaching buffer. So the branches of DataProtoFlow_Attach and DataProtoFlow_Free that detach an idle
   * buffer at once are never taken.
   */
  lemma UnwantedIsDetaching(x: State, f: FlowId)
    requires Inv(x) && f in x.flows && x.flows[f].desired == None && x.buffers[x.flows[f].buffer].sink.Some?
    ensures var b := x.flows[f].buffer; Busy(x, b) && IsDetaching(x, b) && ScheduleDetach(x, b) == x
  {
    var b := x.flows[f].buffer;
    assert BufferOk(x, b);
    assert SinkOk(x, x.buffers[b].sink.value);
  }

  /** When a busy buffer is to be detached, no other buffer of its sink is being detached. */
  lemma DetachingUnique(x: State, b: BufferId)
    requires Inv(x) && b in x.buffers && Busy(x, b)
    ensures var s := x.sinks[x.buffers[b].sink.value]; s.detaching == None || s.detaching == Some(b)
  {
    assert SinkOk(x, x.buffers[b].sink.value);
  }

  // ---- every event keeps the invariant ----

  lemma ScheduleDetachKeeps(x: State, b: BufferId)
    requires Inv(x) && b in x.buffers && Busy(x, b)
    ensures Inv(ScheduleDetach(x, b)) && IsDetaching(ScheduleDetach(x, b), b)
  {
    DetachingUnique(x, b);
    var x1 := ScheduleDetach(x, b);
    forall c | c in x1.buffers ensures BufferOk(x1, c) {
      assert BufferOk(x, c);
    }
    forall k | k in x1.sinks ensures SinkOk(x1, k) {
      assert SinkOk(x, k);
    }
  }

  /** A buffer with a flow that is attached and not detaching may be wanted anywhere, if it is detaching. */
  lemma SetDesiredKeeps(x: State, f: FlowId, k: Option<SinkId>)
    requires Inv(x) && f in x.flows && (k.Some? ==> k.value in x.sinks)
    requires x.buffers[x.flows[f].buffer].sink == k || IsDetaching(x, x.flows[f].buffer)
    ensures Inv(SetDesired(x, f, k))
  {
    hide BufferOk, IsDetaching;
    var x1 := SetDesired(x, f, k);
    assert Linked(x1);
    forall c | c in x1.buffers ensures BufferOk(x1, c) {
      SetDesiredBuffer(x, f, k, c);
    }
    forall j | j in x1.sinks ensures SinkOk(x1, j) {
      assert SinkOk(x, j);
    }
  }

  lemma SetDesiredBuffer(x: State, f: FlowId, k: Option<SinkId>, c: BufferId)
    requires Linked(x) && f in x.flows && c in x.buffers && BufferOk(x, c)
    requires x.buffers[x.flows[f].buffer].sink == k || IsDetaching(x, x.flows[f].buffer)
    ensures BufferOk(SetDesired(x, f, k), c)
  {
  }

  lemma DetachIdleLinked(x: State, f: FlowId)
    requires Linked(x) && f in x.flows && x.buffers[x.flows[f].buffer].sink.Some?
    ensures var x1 := SetDesired(DetachBuffer(x, x.flows[f].buffer), f, None);
      Linked(x1) && x1.buffers.Keys == x.buffers.Keys && x1.sinks.Keys == x.sinks.Keys
  {
  }

  /** Detaching an idle buffer, or one whose sink has stopped sending it, and wanting it nowhere. */
  lemma DetachIdleKeeps(x: State, f: FlowId)
    requires Inv(x) && f in x.flows && x.buffers[x.flows[f].buffer].sink.Some? && !Busy(x, x.flows[f].buffer)
    ensures Inv(SetDesired(DetachBuffer(x, x.flows[f].buffer), f, None))
  {
    var b := x.flows[f].buffer;
    DetachIdleLinked(x, f);
    DetachIdleShape(x, f);
    hide Linked, DetachBuffer, SetDesired, BufferOk, SinkOk, Busy, IsDetaching;
    var x1 := SetDesired(DetachBuffer(x, b), f, None);
    forall c | c in x1.buffers ensures BufferOk(x1, c) {
      DetachIdleBuffer(x, f, b, x1, c);
    }
    forall j | j in x1.sinks ensures SinkOk(x1, j) {
      DetachIdleSink(x, b, x1, j);
    }
  }

  lemma DetachIdleBuffer(x: State, f: FlowId, b: BufferId, x1: State, c: BufferId)
    requires b in x.buffers && c in x.buffers && x1.sinks == x.sinks && !IsDetaching(x, b)
    requires x1.buffers == x.buffers[b := Buffer(Some(f), None, false)] && x1.flows == x.flows[f := Flow(b, None)]
    requires x.buffers[c].flow.Some? ==> x.buffers[c].flow.value in x.flows
    requires c != b ==> x.buffers[c].flow != Some(f)
    requires BufferOk(x, c)
    ensures BufferOk(x1, c)
  {
  }

  lemma DetachIdleSink(x: State, b: BufferId, x1: State, j: SinkId)
    requires b in x.buffers && x1.sinks == x.sinks && j in x.sinks && !Busy(x, b) && SinkOk(x, j)
    requires b in x1.buffers && x1.buffers == x.buffers[b := x1.buffers[b]]
    ensures SinkOk(x1, j)
  {
  }

  lemma DetachIdleShape(x: State, f: FlowId)
    requires Inv(x) && f in x.flows && x.buffers[x.flows[f].buffer].sink.Some? && !Busy(x, x.flows[f].buffer)
    ensures var b := x.flows[f].buffer; var x1 := SetDesired(DetachBuffer(x, b), f, None);
      && x1.sinks == x.sinks && !IsDetaching(x, b) && x.buffers[b].flow == Some(f)
      && x1.buffers == x.buffers[b := Buffer(Some(f), None, false)] && x1.flows == x.flows[f := Flow(b, None)]
      && (forall c :: c in x.buffers && x.buffers[c].flow.Some? ==> x.buffers[c].flow.value in x.flows)
      && (forall c :: c in x.buffers && c != b ==> x.buffers[c].flow != Some(f))
  {
    assert SinkOk(x, x.buffers[x.flows[f].buffer].sink.value);
  }

  lemma AttachFreshKeeps(x: State, f: FlowId, k: SinkId)
    requires Inv(x) && f in x.flows && x.buffers[x.flows[f].buffer].sink == None && k in x.sinks
    ensures Inv(SetDesired(AttachBuffer(x, x.flows[f].buffer, k), f, Some(k)))
  {
    hide BufferOk, SinkOk;
    var b := x.flows[f].buffer;
    var x1 := SetDesired(AttachBuffer(x, b, k), f, Some(k));
    AttachFreshLinked(x, f, k);
    forall j | j in x1.sinks ensures SinkOk(x1, j) {
      AttachFreshSink(x, f, k, j);
    }
    forall c | c in x1.buffers ensures BufferOk(x1, c) {
      AttachFreshBuffer(x, f, k, c);
    }
  }

  lemma AttachFreshLinked(x: State, f: FlowId, k: SinkId)
    requires Linked(x) && f in x.flows && x.buffers[x.flows[f].buffer].sink == None && k in x.sinks
    ensures Linked(SetDesired(AttachBuffer(x, x.flows[f].buffer, k), f, Some(k)))
  {
  }

  lemma AttachFreshSink(x: State, f: FlowId, k: SinkId, j: SinkId)
    requires Linked(x) && f in x.flows && x.buffers[x.flows[f].buffer].sink == None && k in x.sinks
    requires j in x.sinks && SinkOk(x, j)
    ensures SinkOk(SetDesired(AttachBuffer(x, x.flows[f].buffer, k), f, Some(k)), j)
  {
  }

  lemma AttachFreshBuffer(x: State, f: FlowId, k: SinkId, c: BufferId)
    requires Linked(x) && f in x.flows && x.buffers[x.flows[f].buffer].sink == None && k in x.sinks
    requires c in x.buffers && BufferOk(x, c) && SinkOk(x, k)
    ensures BufferOk(SetDesired(AttachBuffer(x, x.flows[f].buffer, k), f, Some(k)), c)
  {
  }

  /** `x1` is `x` with the detaching buffer of sink `k` moved to where its flow wants it, or freed. */
  ghost predicate Settled(x: State, k: SinkId, b: BufferId, x1: State)
    requires k in x.sinks && b in x.buffers && (x.buffers[b].flow.Some? ==> x.buffers[b].flow.value in x.flows)
  {
    && x1.sinks == x.sinks[k := Sink(None, None)] && x1.flows == x.flows
    && x1.buffers == if x.buffers[b].flow == None then x.buffers - {b}
                     else x.buffers[b := Buffer(x.buffers[b].flow, Desired(x, b), false)]
  }

  lemma SettledLinked(x: State, k: SinkId, b: BufferId, x1: State)
    requires Linked(x) && k in x.sinks && b in x.buffers && Settled(x, k, b, x1)
    ensures Linked(x1)
  {
  }

  lemma SettledInv(x: State, k: SinkId, b: BufferId, x1: State)
    requires Inv(x) && k in x.sinks && x.sinks[k].detaching == Some(b) && b in x.buffers && Settled(x, k, b, x1)
    ensures Inv(x1)
  {
    SettledLinked(x, k, b, x1);
    hide BufferOk, SinkOk;
    forall j | j in x1.sinks ensures SinkOk(x1, j) {
      SettledSink(x, k, b, x1, j);
    }
    forall c | c in x1.buffers ensures BufferOk(x1, c) {
      SettledBuffer(x, k, b, x1, c);
    }
  }

  lemma SettledSink(x: State, k: SinkId, b: BufferId, x1: State, j: SinkId)
    requires Linked(x) && k in x.sinks && x.sinks[k].detaching == Some(b) && b in x.buffers && Settled(x, k, b, x1)
    requires j in x.sinks && SinkOk(x, j) && SinkOk(x, k)
    ensures SinkOk(x1, j)
  {
  }

  lemma SettledBuffer(x: State, k: SinkId, b: BufferId, x1: State, c: BufferId)
    requires Linked(x) && k in x.sinks && x.sinks[k].detaching == Some(b) && b in x.buffers && Settled(x, k, b, x1)
    requires Linked(x1) && c in x1.buffers && BufferOk(x, c) && BufferOk(x, b)
    requires forall j :: j in x.sinks ==> SinkOk(x, j)
    ensures BufferOk(x1, c)
  {
    assert SinkOk(x, k);
  }

  lemma FinishDetachShape(x: State, k: SinkId, b: BufferId)
    requires Inv(x) && k in x.sinks && x.sinks[k].detaching == Some(b)
    ensures b in x.buffers && x.buffers[b].sink == Some(k)
    ensures x.buffers[b].flow.Some? ==> x.buffers[b].flow.value in x.flows
    ensures x.sinks[k].sending == Some(b) && Settled(x, k, b, FinishDetach(x, b))
  {
    assert SinkOk(x, k);
  }

  lemma FinishDetachSettles(x: State, k: SinkId, b: BufferId)
    requires Inv(x) && k in x.sinks && x.sinks[k].detaching == Some(b)
    ensures b in x.buffers && x.buffers[b].sink == Some(k)
    ensures x.buffers[b].flow.Some? ==> x.buffers[b].flow.value in x.flows
    ensures Settled(x, k, b, FinishDetach(x, b)) && Inv(FinishDetach(x, b))
  {
    hide FinishDetach, Settled, Inv;
    FinishDetachShape(x, k, b);
    SettledInv(x, k, b, FinishDetach(x, b));
  }

  /**
   * When the packet of a detaching buffer is done, the buffer ends on the sink its flow wants now, unattached if the
   * flow wants none, or freed if the flow is gone; nothing else moves.
   */
  lemma DoneSettles(x: State, k: SinkId)
    requires Inv(x) && Enabled(x, Done(k))
    ensures var b := x.sinks[k].sending.value; var x1 := Step(x, Done(k));
      && b in x.buffers && Inv(x1) && (x.buffers[b].flow.Some? ==> x.buffers[b].flow.value in x.flows)
      && (x.sinks[k].detaching == Some(b) ==> Settled(x, k, b, x1))
      && (x.sinks[k].detaching != Some(b) ==> x1 == x.(sinks := x.sinks[k := Sink(None, None)]))
  {
    var b := x.sinks[k].sending.value;
    assert SinkOk(x, k);
    assert BufferOk(x, b);
    if x.sinks[k].detaching == Some(b) {
      hide FinishDetach, Settled;
      FinishDetachSettles(x, k, b);
      SendingForgotten(x, k, b);
    } else {
      var x1 := Step(x, Done(k));
      forall j | j in x1.sinks ensures SinkOk(x1, j) {
        assert SinkOk(x, j);
      }
      forall c | c in x1.buffers ensures BufferOk(x1, c) {
        assert BufferOk(x, c);
      }
    }
  }

  /** Finishing a detach clears the busy mark anyway, so clearing it first changes nothing. */
  lemma SendingForgotten(x: State, k: SinkId, b: BufferId)
    requires k in x.sinks && x.sinks[k].detaching == Some(b) && x.sinks[k].sending == Some(b)
    requires b in x.buffers && x.buffers[b].sink == Some(k)
    requires x.buffers[b].flow.Some? ==> x.buffers[b].flow.value in x.flows
    ensures FinishDetach(x.(sinks := x.sinks[k := x.sinks[k].(sending := None)]), b) == FinishDetach(x, b)
  {
    var x0 := x.(sinks := x.sinks[k := x.sinks[k].(sending := None)]);
    assert DetachBuffer(x0, b).sinks == DetachBuffer(x, b).sinks;
    assert DetachBuffer(x0, b) == DetachBuffer(x, b);
  }

  /** Once a sink is freed no buffer is attached to it. */
  lemma SinkFreeKeeps(x: State, k: SinkId)
    requires Inv(x) && Enabled(x, SinkFree(k))
    ensures Inv(Step(x, SinkFree(k)))
  {
    assert SinkOk(x, k);
    var d := x.sinks[k].detaching;
    if d.Some? {
      FinishDetachSettles(x, k, d.value);
    }
    var x0 := if d.Some? then FinishDetach(x, d.value) else x;
    var x1 := Step(x, SinkFree(k));
    forall b | b in x0.buffers ensures x0.buffers[b].sink != Some(k) {
      assert BufferOk(x0, b);
      if x0.buffers[b].flow.Some? {
        assert x0.flows[x0.buffers[b].flow.value].desired != Some(k);
      }
    }
    hide Desired;
    SinkGone(x0, k);
  }

  lemma SinkGone(x: State, k: SinkId)
    requires Inv(x) && k in x.sinks && forall f :: f in x.flows ==> x.flows[f].desired != Some(k)
    requires forall b :: b in x.buffers ==> x.buffers[b].sink != Some(k)
    ensures Inv(x.(sinks := x.sinks - {k}))
  {
    var x1 := x.(sinks := x.sinks - {k});
    forall j | j in x1.sinks ensures SinkOk(x1, j) {
      assert SinkOk(x, j);
    }
    forall c | c in x1.buffers ensures BufferOk(x1, c) {
      assert BufferOk(x, c);
    }
  }

  lemma FlowFreeKeeps(x: State, f: FlowId)
    requires Inv(x) && Enabled(x, FlowFree(f))
    ensures Inv(Step(x, FlowFree(f)))
  {
    hide BufferOk, SinkOk, Busy, IsDetaching, ScheduleDetach;
    var b := x.flows[f].buffer;
    var x1 := Step(x, FlowFree(f));
    if x.buffers[b].sink.Some? {
      UnwantedIsDetaching(x, f);
    } else {
      UnattachedIsIdle(x, b);
    }
    FlowFreeLinked(x, f, x1);
    forall j | j in x1.sinks ensures SinkOk(x1, j) {
      FlowFreeSink(x, f, x1, j);
    }
    forall c | c in x1.buffers ensures BufferOk(x1, c) {
      FlowFreeBuffer(x, f, x1, c);
    }
  }

  /** `x1` is `x` without flow `f`: its buffer goes too, unless it is still being detached. */
  ghost predicate Orphaned(x: State, f: FlowId, x1: State)
    requires f in x.flows && x.flows[f].buffer in x.buffers
  {
    var b := x.flows[f].buffer;
    && x1.flows == x.flows - {f} && x1.sinks == x.sinks
    && x1.buffers == if x.buffers[b].sink.Some? then x.buffers[b := x.buffers[b].(flow := None)] else x.buffers - {b}
  }

  lemma UnattachedIsIdle(x: State, b: BufferId)
    requires Inv(x) && b in x.buffers && x.buffers[b].sink == None
    ensures !Busy(x, b)
  {
  }

  lemma FlowFreeLinked(x: State, f: FlowId, x1: State)
    requires Linked(x) && f in x.flows && Orphaned(x, f, x1)
    ensures Linked(x1)
  {
  }

  lemma FlowFreeSink(x: State, f: FlowId, x1: State, j: SinkId)
    requires Linked(x) && f in x.flows && Orphaned(x, f, x1) && j in x.sinks && SinkOk(x, j)
    ensures SinkOk(x1, j)
  {
  }

  lemma FlowFreeBuffer(x: State, f: FlowId, x1: State, c: BufferId)
    requires Linked(x) && f in x.flows && Orphaned(x, f, x1) && Linked(x1) && c in x1.buffers && BufferOk(x, c)
    requires x.buffers[x.flows[f].buffer].sink.Some? ==> IsDetaching(x, x.flows[f].buffer)
    ensures BufferOk(x1, c)
  {
  }

  lemma AttachKeeps(x: State, f: FlowId, k: SinkId)
    requires Inv(x) && Enabled(x, Attach(f, k))
    ensures Inv(Step(x, Attach(f, k)))
  {
    var b := x.flows[f].buffer;
    if x.buffers[b].sink.Some? {
      UnwantedIsDetaching(x, f);
      SetDesiredKeeps(x, f, Some(k));
    } else {
      AttachFreshKeeps(x, f, k);
    }
  }

  lemma DetachKeeps(x: State, f: FlowId)
    requires Inv(x) && Enabled(x, Detach(f))
    ensures Inv(Step(x, Detach(f)))
  {
    var b := x.flows[f].buffer;
    DetachHasSink(x, f);
    if Busy(x, b) {
      ScheduleDetachKeeps(x, b);
      SetDesiredKeeps(ScheduleDetach(x, b), f, None);
    } else {
      DetachIdleKeeps(x, f);
    }
  }

  lemma SinkInitKeeps(x: State, k: SinkId)
    requires Inv(x) && Enabled(x, SinkInit(k))
    ensures Inv(Step(x, SinkInit(k)))
  {
    var x1 := Step(x, SinkInit(k));
    forall j | j in x1.sinks ensures SinkOk(x1, j) {
      assert j != k ==> SinkOk(x, j);
    }
    forall c | c in x1.buffers ensures BufferOk(x1, c) {
      assert BufferOk(x, c);
    }
  }

  lemma FlowInitLinked(x: State, f: FlowId, b: BufferId)
    requires Linked(x) && f !in x.flows && b !in x.buffers
    ensures Linked(x.(flows := x.flows[f := Flow(b, None)], buffers := x.buffers[b := Buffer(Some(f), None, false)]))
  {
  }

  lemma FlowInitKeeps(x: State, f: FlowId, b: BufferId)
    requires Inv(x) && Enabled(x, FlowInit(f, b))
    ensures Inv(Step(x, FlowInit(f, b)))
  {
    var x1 := Step(x, FlowInit(f, b));
    FlowInitLinked(x, f, b);
    forall j | j in x1.sinks ensures SinkOk(x1, j) {
      assert SinkOk(x, j);
    }
    forall c | c in x1.buffers ensures BufferOk(x1, c) {
      assert c != b ==> BufferOk(x, c);
    }
  }

  lemma StartKeeps(x: State, b: BufferId)
    requires Inv(x) && Enabled(x, Start(b))
    ensures Inv(Step(x, Start(b)))
  {
    var x1 := Step(x, Start(b));
    forall j | j in x1.sinks ensures SinkOk(x1, j) {
      assert SinkOk(x, j);
    }
    forall c | c in x1.buffers ensures BufferOk(x1, c) {
      assert BufferOk(x, c);
    }
  }

  /** In every reachable state each buffer is on its desired sink, or its sink's unique, busy, detaching buffer. */
  lemma StepKeeps(x: State, e: Event)
    requires Inv(x) && Enabled(x, e)
    ensures Inv(Step(x, e))
  {
    hide Inv, Step, Enabled;
    match e {
      case SinkFree(k) => SinkFreeKeeps(x, k);
      case FlowFree(f) => FlowFreeKeeps(x, f);
      case Attach(f, k) => AttachKeeps(x, f, k);
      case Detach(f) => DetachKeeps(x, f);
      case Done(k) => DoneSettles(x, k);
      case SinkInit(k) => SinkInitKeeps(x, k);
      case FlowInit(f, b) => FlowInitKeeps(x, f, b);
      case Start(b) => StartKeeps(x, b);
    }
  }

  /**
   * Freed flows leave no buffer behind once their sinks are gone or have reported done: an orphan is always
   * detaching.
   */
  lemma NoLeak(x: State, b: BufferId)
    requires Inv(x) && b in x.buffers && x.buffers[b].flow == None
    ensures exists k :: k in x.sinks && x.sinks[k].detaching == Some(b) && x.sinks[k].sending == Some(b)
  {
    assert BufferOk(x, b);
    var k := x.buffers[b].sink.value;
    assert SinkOk(x, k);
    assert x.sinks[k].detaching == Some(b);
  }

  ghost predicate CanRun(x: State, es: seq<Event>)
    requires Inv(x)
    decreases |es|
  {
    es != [] ==> Enabled(x, es[0]) && (StepKeeps(x, es[0]); CanRun(Step(x, es[0]), es[1..]))
  }

  ghost function Run(x: State, es: seq<Event>): (r: State)
    requires Inv(x) && CanRun(x, es)
    ensures Inv(r)
    decreases |es|
  {
    if es == [] then x
    else
      StepKeeps(x, es[0]);
      Run(Step(x, es[0]), es[1..])
  }
}
