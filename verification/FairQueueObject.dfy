/** The fair queue as the source writes it, every handler proved to be the step of `FairQueue` it stands for. */
module FairQueueObject {
  import opened Common
  import opened FairQueue

  /** The subtraction loop of increment_sent_flow after the first `k` flows of the list. */
  ghost predicate Lowered(before: map<FlowId, Flow>, now: map<FlowId, Flow>, list: seq<FlowId>, k: nat, s: nat,
                          sent: FlowId) {
    && k <= |list| && now.Keys == before.Keys
    && forall g :: g in before ==>
         now[g] == before[g].(time := if g in list[..k] then Reduced(before[g].time, s, g == sent) else before[g].time)
  }

  lemma LoweredNext(before: map<FlowId, Flow>, now: map<FlowId, Flow>, list: seq<FlowId>, k: nat, s: nat, sent: FlowId)
    requires Lowered(before, now, list, k, s, sent) && k < |list| && NoDup(list) && list[k] in before
    ensures var g := list[k];
      && now[g] == before[g]
      && Lowered(before, now[g := now[g].(time := Reduced(now[g].time, s, g == sent))], list, k + 1, s, sent)
  {
    assert list[..k + 1] == list[..k] + [list[k]];
    assert list[k] !in list[..k];
  }

  lemma LoweredNone(before: map<FlowId, Flow>, list: seq<FlowId>, s: nat, sent: FlowId)
    ensures Lowered(before, before, list, 0, s, sent)
  {
  }

  lemma ReducedCases(time: nat, s: nat, justSent: bool)
    ensures Reduced(time, s, justSent) == if s > time && !justSent then 0 else Sub64(time, s)
  {
  }

  lemma LoweredAll(q: Queue, now: map<FlowId, Flow>, f: FlowId, amount: nat, s: nat)
    requires Closed(q) && Linked(q) && f in q.flows && amount > MAX_TIME - T(q, f) && s == Shift(q, f, amount)
    requires Lowered(q.flows, now, q.list, |q.list|, s, f)
    ensures f in now && now[f := now[f].(time := Add64(now[f].time, amount))] == Increment(q, f, amount)
  {
    hide Reduced;
    assert q.list[..|q.list|] == q.list;
  }

  lemma NoOverflow(q: Queue, f: FlowId, amount: nat)
    requires Closed(q) && f in q.flows && T(q, f) <= MAX_TIME && amount <= MAX_TIME - T(q, f)
    ensures q.flows[f := q.flows[f].(time := Add64(T(q, f), amount))] == Increment(q, f, amount)
  {
  }

  class PacketPassFairQueue {
    const packetWeight: nat
    const mtu: nat
    var sendingFlow: Option<FlowId>
    var sendingLen: nat
    var previousFlow: Option<FlowId>
    var queuedTree: seq<FlowId>
    var flowsList: seq<FlowId>
    var flows: map<FlowId, Flow>
    var scheduleJob: bool
    var freeing: bool

    ghost function P(): Params { Params(packetWeight, mtu) }

    ghost function View(): Queue
      reads this
    {
      Queue(flowsList, flows, queuedTree, sendingFlow, sendingLen, previousFlow, scheduleJob)
    }

    /** While the queue is being freed nothing is scheduled any more, and flows only go. */
    ghost predicate Valid()
      reads this
    {
      ParamsOk(P()) && Closed(View()) && if freeing then Linked(View()) else Inv(P(), View())
    }

    /** Fails when the MTU and the packet weight together do not fit the clock. */
    constructor (mtu: nat, packetWeight: nat)
      requires packetWeight > 0 && mtu <= MAX_TIME && packetWeight <= MAX_TIME - mtu
      ensures Valid() && !freeing && P() == Params(packetWeight, mtu) && View() == QueueInit
    {
      this.mtu, this.packetWeight := mtu, packetWeight;
      sendingFlow, sendingLen, previousFlow := None, 0, None;
      queuedTree, flowsList, flows, scheduleJob, freeing := [], [], map[], false, false;
    }

    method GetCurrentTime() returns (time: nat)
      requires Closed(View())
      ensures time == CurrentTime(View())
    {
      if sendingFlow.Some? {
        return flows[sendingFlow.value].time;
      }
      var have := false;
      time := 0;
      if queuedTree != [] {
        assert queuedTree[0] in queuedTree;
        time := flows[queuedTree[0]].time;
        have := true;
      }
      if previousFlow.Some? {
        if !have || flows[previousFlow.value].time < time {
          time := flows[previousFlow.value].time;
        }
      }
    }

    /** Subtract time from all flows; only the flow just sent may wrap. */
    method SubtractFromAll(subtract: nat, flow: FlowId)
      requires Linked(View())
      modifies this`flows
      ensures Lowered(old(flows), flows, flowsList, |flowsList|, subtract, flow)
    {
      hide Reduced, NoDup;
      ghost var before := flows;
      var k: nat := 0;
      LoweredNone(before, flowsList, subtract, flow);
      while k < |flowsList|
        invariant k <= |flowsList| && flows.Keys == before.Keys && Lowered(before, flows, flowsList, k, subtract, flow)
      {
        hide Lowered;
        var some := flowsList[k];
        assert some in flowsList;
        LoweredNext(before, flows, flowsList, k, subtract, flow);
        ReducedCases(flows[some].time, subtract, some == flow);
        if subtract > flows[some].time && some != flow {
          flows := flows[some := flows[some].(time := 0)];
        } else {
          flows := flows[some := flows[some].(time := Sub64(flows[some].time, subtract))];
        }
        k := k + 1;
      }
    }

    method IncrementSentFlow(flow: FlowId, amount: nat)
      requires Closed(View()) && Linked(View()) && flow in flows && flows[flow].time <= MAX_TIME && amount <= MAX_TIME
      modifies this`flows
      ensures flows == Increment(old(View()), flow, amount)
    {
      hide Increment, Lowered;
      ghost var q := View();
      if amount > MAX_TIME - flows[flow].time {
        var subtract: nat;
        if queuedTree == [] {
          subtract := flows[flow].time;
        } else {
          assert queuedTree[0] in queuedTree;
          subtract := flows[queuedTree[0]].time;
        }
        SubtractFromAll(subtract, flow);
        LoweredAll(q, flows, flow, amount, subtract);
      } else {
        NoOverflow(q, flow, amount);
      }
      flows := flows[flow := flows[flow].(time := Add64(flows[flow].time, amount))];
    }

    /**
     * Takes the flow that comes before all others; the callers see to it that nothing is being sent or was just sent.
     */
    method DoSchedule()
      requires Closed(View()) && Linked(View()) && Sorted(flows, queuedTree) && TimesOk(P(), View())
      requires sendingFlow == None && previousFlow == None && !scheduleJob && !freeing && queuedTree != []
      modifies this`queuedTree, this`sendingFlow, this`sendingLen
      ensures View() == Schedule(old(View())) && Inv(P(), View())
      ensures sendingFlow.Some? && sendingFlow.value in old(queuedTree) && sendingFlow.value in flows
      ensures forall g :: g in queuedTree && g in flows && g != sendingFlow.value ==>
                Before(flows, sendingFlow.value, g)
    {
      hide Linked, Sorted, TimesOk, SendingOk, PreviousOk, WorkConserving;
      ScheduleKeeps(P(), View());
      assert queuedTree[0] in queuedTree;
      var qflow := queuedTree[0];
      queuedTree := queuedTree[1..];
      sendingFlow := Some(qflow);
      sendingLen := flows[qflow].len;
    }

    method ScheduleJobHandler()
      requires Valid() && scheduleJob && !freeing
      modifies this
      ensures Valid() && !freeing && View() == Step(P(), old(View()), Job)
    {
      hide Linked, Sorted, TimesOk;
      StepKeepsInv(P(), View(), Job);
      assert sendingFlow == None;
      scheduleJob := false;
      previousFlow := None;
      if queuedTree != [] {
        TimesUnchanged(P(), old(View()), View());
        DoSchedule();
      }
    }

    method InputHandlerSend(flow: FlowId, dataLen: nat)
      requires Valid() && !freeing && Enabled(P(), View(), Send(flow, dataLen))
      modifies this
      ensures Valid() && !freeing && View() == Step(P(), old(View()), Send(flow, dataLen))
    {
      hide Inv, Insert, CurrentTime, Linked, Sorted, TimesOk, SendingOk, PreviousOk;
      StepKeepsInv(P(), View(), Send(flow, dataLen));
      ghost var q := View();
      QueuedKeeps(P(), q, flow, dataLen);
      var time := flows[flow].time;
      if previousFlow == Some(flow) {
        previousFlow := None;
      } else {
        var now := GetCurrentTime();
        time := Max(time, now);
      }
      flows := flows[flow := Flow(time, dataLen)];
      InsertMembers(flows, queuedTree, flow);
      queuedTree := Insert(flows, queuedTree, flow);
      assert View() == Queued(q, flow, dataLen);
      if sendingFlow == None && !scheduleJob {
        DoSchedule();
      }
    }

    method OutputHandlerDone()
      requires Valid() && !freeing && sendingFlow.Some?
      modifies this
      ensures Valid() && !freeing && View() == Step(P(), old(View()), Done)
    {
      hide Increment, Inv;
      StepKeepsInv(P(), View(), Done);
      DoneFacts(P(), View());
      assert previousFlow == None && !scheduleJob && sendingFlow.value !in queuedTree;
      ghost var q := View();
      var flow := sendingFlow.value;
      sendingFlow := None;
      previousFlow := Some(flow);
      SameIncrement(q, View(), flow, packetWeight + sendingLen);
      IncrementSentFlow(flow, packetWeight + sendingLen);
      scheduleJob := true;
    }

    method FlowInit(flow: FlowId)
      requires Valid() && !freeing && flow !in flows
      modifies this
      ensures Valid() && !freeing && View() == Step(P(), old(View()), InitFlow(flow))
    {
      hide Inv;
      StepKeepsInv(P(), View(), InitFlow(flow));
      flows := flows[flow := Flow(0, 0)];
      flowsList := flowsList + [flow];
    }

    method PrepareFree()
      requires Valid()
      modifies this`freeing
      ensures Valid() && freeing && View() == old(View())
    {
      freeing := true;
    }

    /** The flow being sent can be freed only while the queue is being freed; all trace of a freed flow is gone. */
    method FlowFree(flow: FlowId)
      requires Valid() && flow in flows && (freeing || sendingFlow != Some(flow))
      modifies this
      ensures Valid() && freeing == old(freeing)
      ensures !freeing ==> View() == Step(P(), old(View()), FreeFlow(flow))
      ensures flows == old(flows) - {flow} && flowsList == Without(old(flowsList), flow)
      ensures queuedTree == Without(old(queuedTree), flow)
      ensures sendingFlow == if old(sendingFlow) == Some(flow) then None else old(sendingFlow)
      ensures previousFlow != Some(flow)
    {
      hide Inv, Without;
      if !freeing {
        StepKeepsInv(P(), View(), FreeFlow(flow));
      } else {
        WithoutNoDup(flowsList, flow);
      }
      if sendingFlow == Some(flow) {
        sendingFlow := None;
      }
      if previousFlow == Some(flow) {
        previousFlow := None;
      }
      if flow in queuedTree {
        queuedTree := Without(queuedTree, flow);
      } else {
        WithoutAbsent(queuedTree, flow);
      }
      flowsList := Without(flowsList, flow);
      flows := flows - {flow};
    }
  }

  lemma DoneFacts(p: Params, q: Queue)
    requires ParamsOk(p) && Inv(p, q) && Closed(q) && q.sending.Some?
    ensures Linked(q) && T(q, q.sending.value) <= MAX_TIME && p.weight + q.sendingLen <= MAX_TIME
    ensures q.previous == None && !q.job && q.sending.value !in q.tree
  {
  }

  /** The increment looks at times and tree only. */
  lemma SameIncrement(q: Queue, q1: Queue, f: FlowId, amount: nat)
    requires Closed(q) && Closed(q1) && f in q.flows && q1.flows == q.flows && q1.tree == q.tree
    ensures Increment(q, f, amount) == Increment(q1, f, amount)
  {
  }
}
