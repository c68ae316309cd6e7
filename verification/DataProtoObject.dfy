/** The flows, buffers and sinks of client/DataProto.c updated in place, each entry point proved to be its step. */
module DataProtoObject {
  import opened Common
  import opened DataProto

  class DataProtoSystem {
    var flows: map<FlowId, Flow>
    var buffers: map<BufferId, Buffer>
    var sinks: map<SinkId, Sink>

    ghost function View(): State
      reads this
    {
      State(flows, buffers, sinks)
    }

    ghost predicate Valid()
      reads this
    {
      Inv(View())
    }

    constructor ()
      ensures Valid() && View() == StateInit
    {
      flows, buffers, sinks := map[], map[], map[];
    }

    /** PacketPassFairQueueFlow_IsBusy of the buffer's queue flow. */
    predicate IsBusy(b: BufferId)
      requires b in buffers
      reads this
      ensures IsBusy(b) == Busy(View(), b)
    {
      var k := buffers[b].sink;
      k.Some? && k.value in sinks && sinks[k.value].sending == Some(b)
    }

    /** Only a buffer on no sink is attached. */
    method FlowBufferAttach(b: BufferId, k: SinkId)
      requires b in buffers && buffers[b].sink == None && k in sinks
      modifies this`buffers
      ensures View() == AttachBuffer(old(View()), b, k)
    {
      buffers := buffers[b := buffers[b].(sink := Some(k), handler := false)];
    }

    /** Only a buffer on no sink is freed. */
    method FlowBufferFree(b: BufferId)
      requires b in buffers && buffers[b].sink == None
      modifies this`buffers
      ensures buffers == old(buffers) - {b}
    {
      buffers := buffers - {b};
    }

    /** The queue must not be sending the buffer's packet, unless the whole queue is being freed. */
    method FlowBufferDetach(b: BufferId, ghost freeing: bool)
      requires b in buffers && buffers[b].sink.Some? && buffers[b].sink.value in sinks && (freeing || !Busy(View(), b))
      modifies this`buffers, this`sinks
      ensures View() == DetachBuffer(old(View()), b) && b in buffers && buffers[b].sink == None
    {
      var k := buffers[b].sink.value;
      if sinks[k].sending == Some(b) {
        sinks := sinks[k := sinks[k].(sending := None)];
      }
      if sinks[k].detaching == Some(b) {
        sinks := sinks[k := sinks[k].(detaching := None)];
      }
      buffers := buffers[b := buffers[b].(sink := None, handler := false)];
      assert View().sinks == DetachBuffer(old(View()), b).sinks;
    }

    /** The assertions of the source hold: the buffer is busy and no other buffer of the sink is detaching. */
    method FlowBufferScheduleDetach(b: BufferId)
      requires b in buffers && buffers[b].sink.Some? && buffers[b].sink.value in sinks && Busy(View(), b)
      requires sinks[buffers[b].sink.value].detaching == None || sinks[buffers[b].sink.value].detaching == Some(b)
      modifies this`buffers, this`sinks
      ensures View() == ScheduleDetach(old(View()), b)
    {
      var k := buffers[b].sink.value;
      if sinks[k].detaching == Some(b) {
        return;
      }
      buffers := buffers[b := buffers[b].(handler := true)];
      sinks := sinks[k := sinks[k].(detaching := Some(b))];
    }

    /** Only for the buffer its sink is detaching. */
    method FlowBufferFinishDetach(b: BufferId, ghost freeing: bool)
      requires b in buffers && buffers[b].sink.Some? && buffers[b].sink.value in sinks && (freeing || !Busy(View(), b))
      requires sinks[buffers[b].sink.value].detaching == Some(b)
      requires buffers[b].flow.Some? ==> buffers[b].flow.value in flows
      requires buffers[b].flow.Some? && flows[buffers[b].flow.value].desired.Some? ==>
                 flows[buffers[b].flow.value].desired.value in sinks
      modifies this`buffers, this`sinks
      ensures View() == FinishDetach(old(View()), b)
    {
      hide Busy;
      FlowBufferDetach(b, freeing);
      if buffers[b].flow == None {
        FlowBufferFree(b);
      } else if flows[buffers[b].flow.value].desired.Some? {
        FlowBufferAttach(b, flows[buffers[b].flow.value].desired.value);
      }
    }

    method DoSinkInit(k: SinkId)
      requires Valid() && Enabled(View(), SinkInit(k))
      modifies this
      ensures Valid() && View() == Step(old(View()), SinkInit(k))
    {
      hide Inv;
      StepKeeps(View(), SinkInit(k));
      sinks := sinks[k := Sink(None, None)];
    }

    method SinkFree(k: SinkId)
      requires Valid() && Enabled(View(), DataProto.SinkFree(k))
      modifies this
      ensures Valid() && View() == Step(old(View()), DataProto.SinkFree(k))
    {
      hide FinishDetach, Inv;
      StepKeeps(View(), DataProto.SinkFree(k));
      AttachedFacts(View(), k);
      var d := sinks[k].detaching;
      if d.Some? {
        FlowBufferFinishDetach(d.value, true);
      }
      sinks := sinks - {k};
    }

    method FlowInit(f: FlowId, b: BufferId)
      requires Valid() && Enabled(View(), DataProto.FlowInit(f, b))
      modifies this
      ensures Valid() && View() == Step(old(View()), DataProto.FlowInit(f, b))
    {
      hide Inv;
      StepKeeps(View(), DataProto.FlowInit(f, b));
      flows := flows[f := Flow(b, None)];
      buffers := buffers[b := Buffer(Some(f), None, false)];
    }

    method FlowFree(f: FlowId)
      requires Valid() && Enabled(View(), DataProto.FlowFree(f))
      modifies this
      ensures Valid() && View() == Step(old(View()), DataProto.FlowFree(f))
    {
      hide DetachBuffer, ScheduleDetach, Inv;
      StepKeeps(View(), DataProto.FlowFree(f));
      LinkedFacts(View());
      ghost var x := View();
      var b := flows[f].buffer;
      if buffers[b].sink.Some? {
        if IsBusy(b) {
          DetachingUnique(x, b);
          ScheduleDetachKeepsBuffer(x, b);
          FlowBufferScheduleDetach(b);
          buffers := buffers[b := buffers[b].(flow := None)];
        } else {
          FlowBufferDetach(b, false);
          FlowBufferFree(b);
        }
      } else {
        FlowBufferFree(b);
      }
      flows := flows - {f};
      assert flows == DoFlowFree(x, f).flows;
    }

    method FlowAttach(f: FlowId, k: SinkId)
      requires Valid() && Enabled(View(), Attach(f, k))
      modifies this
      ensures Valid() && View() == Step(old(View()), Attach(f, k))
    {
      hide Inv;
      StepKeeps(View(), Attach(f, k));
      LinkedFacts(View());
      ghost var x := View();
      var b := flows[f].buffer;
      if buffers[b].sink.Some? {
        if IsBusy(b) {
          DetachingUnique(x, b);
          FlowBufferScheduleDetach(b);
        } else {
          FlowBufferDetach(b, false);
          FlowBufferAttach(b, k);
        }
      } else {
        FlowBufferAttach(b, k);
      }
      flows := flows[f := flows[f].(desired := Some(k))];
    }

    method FlowDetach(f: FlowId)
      requires Valid() && Enabled(View(), Detach(f))
      modifies this
      ensures Valid() && View() == Step(old(View()), Detach(f))
    {
      hide SinkOk, BufferOk, DetachBuffer, ScheduleDetach, Inv;
      StepKeeps(View(), Detach(f));
      LinkedFacts(View());
      DetachHasSink(View(), f);
      ghost var x := View();
      var b := flows[f].buffer;
      ScheduleDetachKeepsBuffer(x, b);
      if IsBusy(b) {
        DetachingUnique(x, b);
        FlowBufferScheduleDetach(b);
      } else {
        FlowBufferDetach(b, false);
      }
      flows := flows[f := flows[f].(desired := None)];
    }

    /** The queue of sink `k` starts sending a packet of buffer `b`. */
    method QueueStarts(b: BufferId)
      requires Valid() && Enabled(View(), Start(b))
      modifies this
      ensures Valid() && View() == Step(old(View()), Start(b))
    {
      hide Inv;
      StepKeeps(View(), Start(b));
      var k := buffers[b].sink.value;
      sinks := sinks[k := sinks[k].(sending := Some(b))];
    }

    /** The queue of sink `k` is done with the packet being sent, and calls the busy handler if it is set. */
    method QueueDone(k: SinkId)
      requires Valid() && Enabled(View(), Done(k))
      modifies this
      ensures Valid() && View() == Step(old(View()), Done(k))
    {
      hide FinishDetach, Inv;
      StepKeeps(View(), Done(k));
      AttachedFacts(View(), k);
      var b := sinks[k].sending.value;
      sinks := sinks[k := sinks[k].(sending := None)];
      if buffers[b].handler {
        FlowBufferFinishDetach(b, false);
      }
    }
  }

  lemma LinkedFacts(x: State)
    requires Inv(x)
    ensures Linked(x)
  {
  }

  /** The buffers a sink refers to are attached to it, and their flows exist. */
  lemma AttachedFacts(x: State, k: SinkId)
    requires Inv(x) && k in x.sinks
    ensures forall b :: x.sinks[k].sending == Some(b) || x.sinks[k].detaching == Some(b) ==>
      b in x.buffers && x.buffers[b].sink == Some(k) && (x.buffers[b].flow.Some? ==> x.buffers[b].flow.value in x.flows)
    ensures forall f :: f in x.flows && x.flows[f].desired.Some? ==> x.flows[f].desired.value in x.sinks
    ensures forall b :: x.sinks[k].sending == Some(b) && x.buffers[b].handler ==> x.sinks[k].detaching == Some(b)
  {
    assert SinkOk(x, k);
    forall b | x.sinks[k].sending == Some(b) && x.buffers[b].handler ensures x.sinks[k].detaching == Some(b) {
      assert BufferOk(x, b);
    }
  }

  lemma ScheduleDetachKeepsBuffer(x: State, b: BufferId)
    requires Inv(x) && b in x.buffers && x.buffers[b].sink.Some? && x.buffers[b].sink.value in x.sinks
    ensures ScheduleDetach(x, b).flows == x.flows && b in ScheduleDetach(x, b).buffers
    ensures DetachBuffer(x, b).flows == x.flows && b in DetachBuffer(x, b).buffers
  {
  }

  // ---- reporting whether the link is up ----

  /** `up` is the present view, `reported` what the user was told last, `job` whether a report is pending. */
  datatype Status = Status(up: bool, reported: bool, job: bool)

  datatype StatusEvent = Received(receiving: bool) | Timeout | Report

  ghost predicate StatusOk(s: Status) {
    s.job <==> s.up != s.reported
  }

  /** refresh_up_job */
  function Refresh(s: Status): Status {
    s.(job := s.up != s.reported)
  }

  function StatusStep(s: Status, e: StatusEvent): Status {
    match e
    case Received(r) => Refresh(s.(up := r))
    case Timeout => Refresh(s.(up := false))
    case Report => Status(s.up, s.up, false)
  }

  /** The reports the user gets during a run in which a report happens only when its job is pending. */
  ghost predicate ReportsOf(s: Status, es: seq<StatusEvent>, rs: seq<bool>)
    decreases |es|
  {
    if es == [] then rs == []
    else if es[0] == Report then s.job && rs != [] && rs[0] == s.up && ReportsOf(StatusStep(s, es[0]), es[1..], rs[1..])
    else ReportsOf(StatusStep(s, es[0]), es[1..], rs)
  }

  /** The user is told up and down in strict alternation, however often the view flips between reports. */
  lemma {:induction false} ReportsAlternate(s: Status, es: seq<StatusEvent>, rs: seq<bool>, i: nat)
    requires StatusOk(s) && ReportsOf(s, es, rs) && i < |rs|
    ensures rs[i] == if i % 2 == 0 then !s.reported else s.reported
    decreases |es|
  {
    var s1 := StatusStep(s, es[0]);
    if es[0] == Report {
      if i > 0 {
        ReportsAlternate(s1, es[1..], rs[1..], i - 1);
      }
    } else {
      ReportsAlternate(s1, es[1..], rs, i);
    }
  }
}
