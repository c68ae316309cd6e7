/**
 * Flows and sinks told from outside: which sink each flow was last attached to, and which buffer each sink's queue is
 * sending. These come from the events alone, and they decide where every buffer is, however attaches, detaches and
 * sends cross.
 */
module DataProtoAccount {
  import opened Common
  import opened DataProto

  /** The buffer and the wanted sink of each flow, and the send in progress of each sink. */
  datatype Account = Account(flows: map<FlowId, Flow>, sending: map<SinkId, Option<BufferId>>)

  const AccountInit := Account(map[], map[])

  /** A flow with buffer `b` wants sink `k`. */
  ghost predicate WantedAt(flows: map<FlowId, Flow>, b: BufferId, k: SinkId) {
    exists f :: f in flows && flows[f] == Flow(b, Some(k))
  }

  /** The flows after an event, from the event alone. */
  function RecordFlows(flows: map<FlowId, Flow>, e: Event): map<FlowId, Flow> {
    match e
    case FlowInit(f, b) => flows[f := Flow(b, None)]
    case FlowFree(f) => flows - {f}
    case Attach(f, k) => if f in flows then flows[f := Flow(flows[f].buffer, Some(k))] else flows
    case Detach(f) => if f in flows then flows[f := Flow(flows[f].buffer, None)] else flows
    case _ => flows
  }

  ghost function Record(a: Account, e: Event): Account {
    Account(RecordFlows(a.flows, e),
            match e
            case SinkInit(k) => a.sending[k := None]
            case SinkFree(k) => a.sending - {k}
            case Start(b) => map k | k in a.sending :: if WantedAt(a.flows, b, k) then Some(b) else a.sending[k]
            case Done(k) => a.sending[k := None]
            case _ => a.sending)
  }

  ghost function RecordAll(a: Account, es: seq<Event>): Account
    decreases |es|
  {
    if es == [] then a else RecordAll(Record(a, es[0]), es[1..])
  }

  ghost predicate Agree(x: State, a: Account) {
    && x.flows == a.flows
    && x.sinks.Keys == a.sending.Keys
    && forall k :: k in x.sinks ==> x.sinks[k].sending == a.sending[k]
  }

  /** Every event changes what the flows want exactly as it says, also while a buffer is busy or being detached. */
  lemma FlowsExactly(x: State, e: Event)
    requires Inv(x) && Enabled(x, e)
    ensures Step(x, e).flows == RecordFlows(x.flows, e)
  {
    hide SinkOk, BufferOk, FinishDetach;
    match e {
      case SinkFree(k) => FinishKeepsFlows(x, k);
      case Done(k) => DoneKeepsFlows(x, k);
      case Detach(f) => DetachHasSink(x, f);
      case _ =>
    }
  }

  lemma DoneKeepsFlows(x: State, k: SinkId)
    requires Inv(x) && Enabled(x, Done(k))
    ensures Step(x, Done(k)).flows == x.flows
  {
    hide Inv, Step;
    DoneSettles(x, k);
  }

  lemma FinishKeepsFlows(x: State, k: SinkId)
    requires Inv(x) && k in x.sinks
    ensures DoSinkFree(x, k).flows == x.flows
  {
    hide BufferOk;
    assert SinkOk(x, k);
  }

  /** A sink sends what its queue started and has not finished. */
  lemma SendingExactly(x: State, e: Event, k: SinkId)
    requires Inv(x) && Enabled(x, e)
    ensures k in Step(x, e).sinks <==> (k in x.sinks && e != SinkFree(k)) || e == SinkInit(k)
    ensures k in Step(x, e).sinks ==>
      Step(x, e).sinks[k].sending ==
        if e == SinkInit(k) || e == Done(k) then None
        else if e.Start? && x.buffers[e.b].sink == Some(k) then Some(e.b)
        else x.sinks[k].sending
  {
    hide BufferOk;
    match e {
      case SinkFree(j) => SinkFreeSending(x, j, k);
      case FlowFree(f) => FlowFreeSinks(x, f);
      case Attach(f, j) => AttachSinks(x, f, j);
      case Detach(f) => DetachSending(x, f, k);
      case Done(j) => DoneSending(x, j, k);
      case _ =>
    }
  }

  lemma SinkFreeSending(x: State, j: SinkId, k: SinkId)
    requires Inv(x) && Enabled(x, SinkFree(j))
    ensures var x1 := Step(x, SinkFree(j));
      && (k in x1.sinks <==> k in x.sinks && k != j)
      && (k in x1.sinks ==> x1.sinks[k] == x.sinks[k])
  {
    hide FinishDetach, Settled;
    if x.sinks[j].detaching.Some? {
      FinishDetachShape(x, j, x.sinks[j].detaching.value);
      SettledSinks(x, j, x.sinks[j].detaching.value);
    }
  }

  lemma SettledSinks(x: State, k: SinkId, b: BufferId)
    requires Inv(x) && k in x.sinks && x.sinks[k].detaching == Some(b)
    ensures b in x.buffers && x.buffers[b].sink == Some(k)
    ensures x.buffers[b].flow.Some? ==> x.buffers[b].flow.value in x.flows
    ensures FinishDetach(x, b).sinks == x.sinks[k := Sink(None, None)]
  {
    hide FinishDetach, BufferOk, SinkOk;
    FinishDetachShape(x, k, b);
  }

  lemma FlowFreeSinks(x: State, f: FlowId)
    requires Inv(x) && Enabled(x, FlowFree(f))
    ensures Step(x, FlowFree(f)).sinks == x.sinks
  {
    hide BufferOk, SinkOk;
    if x.buffers[x.flows[f].buffer].sink.Some? {
      UnwantedIsDetaching(x, f);
    }
  }

  lemma AttachSinks(x: State, f: FlowId, k: SinkId)
    requires Inv(x) && Enabled(x, Attach(f, k))
    ensures Step(x, Attach(f, k)).sinks == x.sinks
  {
    hide BufferOk, SinkOk;
    if x.buffers[x.flows[f].buffer].sink.Some? {
      UnwantedIsDetaching(x, f);
    }
  }

  lemma DetachSending(x: State, f: FlowId, k: SinkId)
    requires Inv(x) && Enabled(x, Detach(f))
    ensures var x1 := Step(x, Detach(f));
      (k in x1.sinks <==> k in x.sinks) && (k in x.sinks ==> x1.sinks[k].sending == x.sinks[k].sending)
  {
    hide BufferOk, SinkOk;
    DetachHasSink(x, f);
  }

  lemma DoneSending(x: State, j: SinkId, k: SinkId)
    requires Inv(x) && Enabled(x, Done(j))
    ensures var x1 := Step(x, Done(j));
      && (k in x1.sinks <==> k in x.sinks)
      && (k in x.sinks ==> x1.sinks[k].sending == if k == j then None else x.sinks[k].sending)
  {
    hide Inv, Step;
    DoneSettles(x, j);
  }

  /** A buffer whose send can start is on the sink its flow wants. */
  lemma StartsWhereWanted(x: State, b: BufferId, k: SinkId)
    requires Inv(x) && Enabled(x, Start(b)) && k in x.sinks
    ensures x.buffers[b].sink == Some(k) <==> WantedAt(x.flows, b, k)
  {
    assert BufferOk(x, b);
    assert SinkOk(x, x.buffers[b].sink.value);
    if WantedAt(x.flows, b, k) {
      var f :| f in x.flows && x.flows[f] == Flow(b, Some(k));
      assert x.buffers[b].flow == Some(f);
    } else {
      var f := x.buffers[b].flow.value;
      assert x.flows[f] == Flow(b, x.buffers[b].sink);
    }
  }

  /** The account stays true with every event. */
  lemma StepAgrees(x: State, a: Account, e: Event)
    requires Inv(x) && Enabled(x, e) && Agree(x, a)
    ensures Agree(Step(x, e), Record(a, e))
  {
    hide Inv, Step, WantedAt, RecordFlows;
    FlowsExactly(x, e);
    var x1, a1 := Step(x, e), Record(a, e);
    forall k ensures k in x1.sinks <==> k in a1.sending {
      SendingExactly(x, e, k);
    }
    forall k | k in x1.sinks ensures x1.sinks[k].sending == a1.sending[k] {
      SendingExactly(x, e, k);
      if e.Start? {
        StartsWhereWanted(x, e.b, k);
      }
    }
  }

  lemma {:induction false} RunAgrees(x: State, a: Account, es: seq<Event>)
    requires Inv(x) && Agree(x, a) && CanRun(x, es)
    ensures Agree(Run(x, es), RecordAll(a, es))
    decreases |es|
  {
    hide Inv, Step, Enabled, Agree, Record;
    if es != [] {
      StepKeeps(x, es[0]);
      StepAgrees(x, a, es[0]);
      RunAgrees(Step(x, es[0]), Record(a, es[0]), es[1..]);
    }
  }

  /** What the account says of a buffer's sink: the one sending it, or else the one its flow wants. */
  ghost predicate Placed(x: State, a: Account, b: BufferId) {
    if exists k :: k in a.sending && a.sending[k] == Some(b) then
      b in x.buffers && forall k :: k in a.sending && a.sending[k] == Some(b) ==> x.buffers[b].sink == Some(k)
    else if exists f :: f in a.flows && a.flows[f].buffer == b then
      b in x.buffers && forall f :: f in a.flows && a.flows[f].buffer == b ==> x.buffers[b].sink == a.flows[f].desired
    else b !in x.buffers
  }

  lemma BufferPlaced(x: State, a: Account, b: BufferId)
    requires Inv(x) && Agree(x, a)
    ensures Placed(x, a, b)
  {
    if k :| k in a.sending && a.sending[k] == Some(b) {
      forall j | j in a.sending && a.sending[j] == Some(b) ensures b in x.buffers && x.buffers[b].sink == Some(j) {
        assert SinkOk(x, j);
      }
      assert SinkOk(x, k);
    } else if b in x.buffers {
      NotSending(x, a, b);
    }
  }

  lemma NotSending(x: State, a: Account, b: BufferId)
    requires Inv(x) && Agree(x, a) && b in x.buffers && !exists k :: k in a.sending && a.sending[k] == Some(b)
    ensures x.buffers[b].flow.Some? && x.buffers[b].flow.value in x.flows
    ensures x.flows[x.buffers[b].flow.value] == Flow(b, x.buffers[b].sink)
    ensures forall f :: f in x.flows && x.flows[f].buffer == b ==> x.buffers[b].flow == Some(f)
  {
    assert BufferOk(x, b);
    assert !IsDetaching(x, b) by {
      if x.buffers[b].sink.Some? {
        assert SinkOk(x, x.buffers[b].sink.value);
      }
    }
  }

  /**
   * After every run: the flows there are, and what each wants, are those of its last attach or detach; each sink's
   * send is the one started last and not finished; and a buffer is on the sink that is sending its packet, or else on
   * the sink its flow was last attached to, on none if it was detached since, and gone once its flow is freed and
   * nothing is being sent.
   */
  lemma EveryRun(es: seq<Event>, b: BufferId)
    requires CanRun(StateInit, es)
    ensures var x, a := Run(StateInit, es), RecordAll(AccountInit, es); Agree(x, a) && Placed(x, a, b)
  {
    hide Agree, Placed, Inv;
    InitAgrees();
    RunAgrees(StateInit, AccountInit, es);
    BufferPlaced(Run(StateInit, es), RecordAll(AccountInit, es), b);
  }

  lemma InitAgrees()
    ensures Inv(StateInit) && Agree(StateInit, AccountInit)
  {
  }

  /** A flow attached to another sink while its packet is being sent ends there when the packet is done. */
  lemma MovesWhenDone(x: State, f: FlowId, k: SinkId)
    requires Inv(x) && Enabled(x, Attach(f, k)) && Busy(x, x.flows[f].buffer)
    ensures var b := x.flows[f].buffer; var j := x.buffers[b].sink.value; var x1 := Step(x, Attach(f, k));
      && Inv(x1) && Enabled(x1, Done(j))
      && var x2 := Step(x1, Done(j));
      && b in x2.buffers && x2.buffers[b].sink == Some(k)
      && x2.flows == x.flows[f := Flow(b, Some(k))] && x2.sinks == x.sinks[j := Sink(None, None)]
  {
    hide SinkOk, BufferOk, Step;
    var b := x.flows[f].buffer;
    var j, x1 := x.buffers[b].sink.value, Step(x, Attach(f, k));
    BusyAttach(x, f, k);
    StepKeeps(x, Attach(f, k));
    DoneSettles(x1, j);
  }

  /** Attaching then only notes the sink. */
  lemma BusyAttach(x: State, f: FlowId, k: SinkId)
    requires Inv(x) && Enabled(x, Attach(f, k)) && x.flows[f].buffer in x.buffers && Busy(x, x.flows[f].buffer)
    ensures Step(x, Attach(f, k)) == x.(flows := x.flows[f := Flow(x.flows[f].buffer, Some(k))])
    ensures x.buffers[x.flows[f].buffer].flow == Some(f) && IsDetaching(x, x.flows[f].buffer)
  {
    UnwantedIsDetaching(x, f);
  }
}
