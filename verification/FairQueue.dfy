/**
 * The fair queue of flow/PacketPassFairQueue.c: flows with a 64-bit virtual time, a tree of the queued flows ordered
 * by time and address, the flow being sent, and the flow just sent, which may queue again before the next decision
 * without having its time raised.
 */
module FairQueue {
  import opened Common

  const MAX_TIME := TWO_64 - 1

  /** A flow is named by its address, which breaks ties between equal times. */
  type FlowId = nat

  /** `len` is the length of the queued packet, meaningful while the flow is queued. */
  datatype Flow = Flow(time: nat, len: nat)

  /** `list` are all flows, `tree` the queued ones in the order in which the tree holds them. */
  datatype Queue = Queue(list: seq<FlowId>, flows: map<FlowId, Flow>, tree: seq<FlowId>,
                         sending: Option<FlowId>, sendingLen: nat, previous: Option<FlowId>, job: bool)

  datatype Params = Params(weight: nat, mtu: nat)

  ghost predicate ParamsOk(p: Params) {
    0 < p.weight && p.weight + p.mtu <= MAX_TIME
  }

  const QueueInit := Queue([], map[], [], None, 0, None, false)

  function T(q: Queue, f: FlowId): nat
    requires f in q.flows
  {
    q.flows[f].time
  }

  /** compare_flows */
  predicate Before(flows: map<FlowId, Flow>, f: FlowId, g: FlowId)
    requires f in flows && g in flows
  {
    flows[f].time < flows[g].time || (flows[f].time == flows[g].time && f < g)
  }

  /** The tree holds flows of the queue in strictly increasing order of their present times. */
  ghost predicate Sorted(flows: map<FlowId, Flow>, tree: seq<FlowId>) {
    && (forall i :: 0 <= i < |tree| ==> tree[i] in flows)
    && (forall i, j :: 0 <= i < j < |tree| ==> Before(flows, tree[i], tree[j]))
  }

  /** Insertion, which finds its place by comparing with the flows already in the tree. */
  function Insert(flows: map<FlowId, Flow>, tree: seq<FlowId>, f: FlowId): (r: seq<FlowId>)
    requires f in flows && forall i :: 0 <= i < |tree| ==> tree[i] in flows
  {
    if tree == [] || Before(flows, f, tree[0]) then [f] + tree else [tree[0]] + Insert(flows, tree[1..], f)
  }

  // ---- 64-bit arithmetic ----

  function Sub64(a: nat, b: nat): (r: nat)
    ensures r < TWO_64
  {
    (a - b) % TWO_64
  }

  function Add64(a: nat, b: nat): (r: nat)
    ensures r < TWO_64
  {
    (a + b) % TWO_64
  }

  // ---- the operations ----

  /** get_current_time */
  function CurrentTime(q: Queue): nat
    requires Closed(q)
  {
    if q.sending.Some? then T(q, q.sending.value)
    else if q.tree != [] then
      if q.previous.Some? && T(q, q.previous.value) < T(q, q.tree[0]) then T(q, q.previous.value) else T(q, q.tree[0])
    else if q.previous.Some? then T(q, q.previous.value)
    else 0
  }

  /** Every flow referred to is in the list, and the list names each flow once. */
  ghost predicate Linked(q: Queue) {
    && NoDup(q.list)
    && (forall f :: f in q.list <==> f in q.flows)
  }

  predicate Closed(q: Queue) {
    && (forall f :: f in q.tree ==> f in q.flows)
    && (q.sending.Some? ==> q.sending.value in q.flows)
    && (q.previous.Some? ==> q.previous.value in q.flows)
  }

  /** How much increment_sent_flow subtracts from all times: nothing unless adding would overflow. */
  function Shift(q: Queue, f: FlowId, amount: nat): nat
    requires Closed(q) && f in q.flows
  {
    if amount > MAX_TIME - T(q, f) then (if q.tree == [] then T(q, f) else T(q, q.tree[0])) else 0
  }

  /** The subtraction for one flow: it stops at zero, except for the flow just sent, which is allowed to wrap. */
  function Reduced(time: nat, shift: nat, justSent: bool): nat {
    if shift > time && !justSent then 0 else Sub64(time, shift)
  }

  /** increment_sent_flow */
  function Increment(q: Queue, f: FlowId, amount: nat): (flows: map<FlowId, Flow>)
    requires Closed(q) && f in q.flows
  {
    var s := Shift(q, f, amount);
    var overflows := amount > MAX_TIME - T(q, f);
    map g | g in q.flows ::
      var t := if overflows then Reduced(T(q, g), s, g == f) else T(q, g);
      q.flows[g].(time := if g == f then Add64(t, amount) else t)
  }

  function Schedule(q: Queue): Queue
    requires Closed(q) && q.tree != []
  {
    var f := q.tree[0];
    q.(tree := q.tree[1..], sending := Some(f), sendingLen := q.flows[f].len)
  }

  datatype Event =
    | InitFlow(f: FlowId)
    | FreeFlow(f: FlowId)
    | Send(f: FlowId, len: nat)
    | Done
    | Job

  /** What the callers of the queue keep to. */
  predicate Enabled(p: Params, q: Queue, e: Event) {
    match e
    case InitFlow(f) => f !in q.flows
    case FreeFlow(f) => f in q.flows && q.sending != Some(f)
    case Send(f, len) => f in q.flows && f !in q.tree && q.sending != Some(f) && len <= p.mtu
    case Done => q.sending.Some?
    case Job => q.job
  }

  /** The queue with flow `f` queued, before input_handler_send considers scheduling. */
  function Queued(q: Queue, f: FlowId, len: nat): Queue
    requires Closed(q) && f in q.flows
  {
    var time := if q.previous == Some(f) then T(q, f) else Max(T(q, f), CurrentTime(q));
    var flows := q.flows[f := Flow(time, len)];
    q.(flows := flows, tree := Insert(flows, q.tree, f), previous := if q.previous == Some(f) then None else q.previous)
  }

  function Step(p: Params, q: Queue, e: Event): Queue
    requires Closed(q) && Enabled(p, q, e)
  {
    match e
    case InitFlow(f) => q.(list := q.list + [f], flows := q.flows[f := Flow(0, 0)])
    case FreeFlow(f) =>
      q.(list := Without(q.list, f), flows := q.flows - {f}, tree := Without(q.tree, f),
         previous := if q.previous == Some(f) then None else q.previous)
    case Send(f, len) =>
      var q1 := Queued(q, f, len);
      InsertMembers(q1.flows, q.tree, f);
      if q1.sending == None && !q1.job then Schedule(q1) else q1
    case Done =>
      var f := q.sending.value;
      q.(sending := None, previous := Some(f), flows := Increment(q, f, p.weight + q.sendingLen), job := true)
    case Job =>
      var q1 := q.(job := false, previous := None);
      if q1.tree != [] then Schedule(q1) else q1
  }

  // ---- the tree ----

  lemma {:induction false} InsertMembers(flows: map<FlowId, Flow>, tree: seq<FlowId>, f: FlowId)
    requires f in flows && forall i :: 0 <= i < |tree| ==> tree[i] in flows
    ensures Insert(flows, tree, f) != []
    ensures forall g :: g in Insert(flows, tree, f) <==> g in tree || g == f
    decreases |tree|
  {
    if tree != [] && !Before(flows, f, tree[0]) {
      InsertMembers(flows, tree[1..], f);
      assert tree == [tree[0]] + tree[1..];
    }
  }

  lemma {:induction false} InsertSorted(flows: map<FlowId, Flow>, tree: seq<FlowId>, f: FlowId)
    requires Sorted(flows, tree) && f in flows && f !in tree
    ensures Sorted(flows, Insert(flows, tree, f))
    decreases |tree|
  {
    InsertMembers(flows, tree, f);
    if tree != [] && !Before(flows, f, tree[0]) {
      var rest := Insert(flows, tree[1..], f);
      InsertSorted(flows, tree[1..], f);
      InsertMembers(flows, tree[1..], f);
      forall j | 0 <= j < |rest| ensures rest[j] in flows && Before(flows, tree[0], rest[j]) {
        assert rest[j] in rest;
      }
    }
  }

  lemma {:induction false} RemoveSorted(flows: map<FlowId, Flow>, tree: seq<FlowId>, f: FlowId)
    requires Sorted(flows, tree)
    ensures Sorted(flows - {f}, Without(tree, f))
    decreases |tree|
  {
    if tree != [] {
      RemoveSorted(flows, tree[1..], f);
      var rest := Without(tree[1..], f);
      forall j | 0 <= j < |rest| ensures rest[j] in tree[1..] && rest[j] != f {
        assert rest[j] in rest;
      }
    }
  }

  /** Sortedness only looks at the differences between times, so it survives a change that keeps them. */
  lemma SortedUnder(flows: map<FlowId, Flow>, flows': map<FlowId, Flow>, tree: seq<FlowId>, shift: int)
    requires Sorted(flows, tree)
    requires forall i :: 0 <= i < |tree| ==> tree[i] in flows' && flows'[tree[i]].time == flows[tree[i]].time - shift
    ensures Sorted(flows', tree)
  {
  }

  // ---- the invariant ----

  ghost predicate TimesOk(p: Params, q: Queue) {
    && (forall f :: f in q.flows ==> T(q, f) <= MAX_TIME)
    && (forall f :: f in q.tree && f in q.flows ==> q.flows[f].len <= p.mtu)
  }

  /** The flow being sent is nowhere else and no later than any queued flow. */
  ghost predicate SendingOk(p: Params, q: Queue) {
    q.sending.Some? ==>
      var f := q.sending.value;
      && f in q.flows && f !in q.tree && q.previous == None && !q.job && q.sendingLen <= p.mtu
      && forall g :: g in q.tree && g in q.flows ==> T(q, f) <= T(q, g)
  }

  ghost predicate PreviousOk(q: Queue) {
    q.previous.Some? ==> q.previous.value in q.flows && q.previous.value !in q.tree && q.job
  }

  /** A waiting packet always has a send in progress or a scheduling decision to come. */
  ghost predicate WorkConserving(q: Queue) {
    q.tree != [] ==> q.sending.Some? || q.job
  }

  ghost predicate Inv(p: Params, q: Queue) {
    && Linked(q) && Sorted(q.flows, q.tree)
    && TimesOk(p, q) && SendingOk(p, q) && PreviousOk(q) && WorkConserving(q)
  }

  lemma InvClosed(p: Params, q: Queue)
    requires Inv(p, q)
    ensures Closed(q) && NoDup(q.tree)
    ensures q.tree != [] ==> forall g :: g in q.tree ==> T(q, q.tree[0]) <= T(q, g)
  {
    forall f | f in q.tree ensures f in q.flows && T(q, q.tree[0]) <= T(q, f) {
      var i :| 0 <= i < |q.tree| && q.tree[i] == f;
      if i > 0 {
        assert Before(q.flows, q.tree[0], q.tree[i]);
      }
    }
  }

  /**
   * With nothing being sent and no flow just sent, as schedule asserts, the flow taken comes before every flow left
   * in the queue, and the queue is consistent with that flow being sent.
   */
  lemma ScheduleKeeps(p: Params, q: Queue)
    requires Linked(q) && Sorted(q.flows, q.tree) && TimesOk(p, q)
    requires q.tree != [] && q.sending == None && q.previous == None && !q.job
    requires Closed(q)
    ensures Inv(p, Schedule(q)) && Schedule(q).sending.Some? && Schedule(q).sending.value in q.flows
    ensures forall g :: g in q.tree && g in q.flows && g != Schedule(q).sending.value ==>
      Before(q.flows, Schedule(q).sending.value, g)
  {
    var f, rest := q.tree[0], q.tree[1..];
    forall g | g in rest ensures g in q.flows && Before(q.flows, f, g) {
      var i :| 0 <= i < |rest| && rest[i] == g;
      assert q.tree[i + 1] == g;
    }
  }

  /**
   * Renormalisation is exact. All times move down by the same amount `Shift`, the flow just sent also gains `amount`,
   * as in unbounded arithmetic and without leaving 64 bits, although the intermediate subtraction may wrap; a flow that
   * is neither queued nor just sent stops at zero instead.
   */
  lemma RenormalisationExact(p: Params, q: Queue, f: FlowId, amount: nat)
    requires Closed(q) && Sorted(q.flows, q.tree) && TimesOk(p, q) && f in q.flows && f !in q.tree && amount <= MAX_TIME
    requires forall g :: g in q.tree ==> T(q, f) <= T(q, g)
    ensures var flows := Increment(q, f, amount); var s := Shift(q, f, amount);
      && flows.Keys == q.flows.Keys
      && flows[f].time == T(q, f) + amount - s
      && flows[f].time <= MAX_TIME
      && (forall g :: g in q.tree ==> flows[g].time == T(q, g) - s && flows[g].len == q.flows[g].len)
      && (forall g :: g in q.flows && g != f ==> flows[g].time == Max(0, T(q, g) - s))
      && (s > 0 ==> s >= T(q, f))
  {
    hide Increment, Shift, Before;
    SortedFirst(q);
    forall g | g in q.flows ensures TimeAfter(q, f, amount, g) {
      IncrementAt(q, f, amount, g);
    }
    ShiftEnough(q, f, amount);
    forall g | g in q.tree ensures T(q, g) >= Shift(q, f, amount) {
      ShiftBelow(q, f, amount, g);
    }
  }

  lemma SortedFirst(q: Queue)
    requires Sorted(q.flows, q.tree)
    ensures forall g :: g in q.tree ==> g in q.flows && T(q, q.tree[0]) <= T(q, g)
  {
    forall g | g in q.tree ensures g in q.flows && T(q, q.tree[0]) <= T(q, g) {
      var i :| 0 <= i < |q.tree| && q.tree[i] == g;
      if i > 0 {
        assert Before(q.flows, q.tree[0], q.tree[i]);
      }
    }
  }

  /** The time and length of one flow after increment_sent_flow. */
  ghost predicate TimeAfter(q: Queue, f: FlowId, amount: nat, g: FlowId)
    requires Closed(q) && f in q.flows && g in q.flows
  {
    var flows, s := Increment(q, f, amount), Shift(q, f, amount);
    && flows.Keys == q.flows.Keys && flows[g].len == q.flows[g].len
    && flows[g].time == (if g == f then T(q, f) + amount - s else Max(0, T(q, g) - s))
    && (g == f ==> flows[g].time <= MAX_TIME)
  }

  lemma IncrementAt(q: Queue, f: FlowId, amount: nat, g: FlowId)
    requires Closed(q) && f in q.flows && g in q.flows && f !in q.tree && amount <= MAX_TIME
    requires T(q, g) <= MAX_TIME && T(q, f) <= MAX_TIME && forall h :: h in q.tree ==> T(q, f) <= T(q, h) <= MAX_TIME
    ensures TimeAfter(q, f, amount, g)
  {
    var s := Shift(q, f, amount);
    if amount > MAX_TIME - T(q, f) {
      assert q.tree != [] ==> q.tree[0] in q.tree;
      WrapAround(T(q, f), s, amount);
    }
  }

  lemma ShiftEnough(q: Queue, f: FlowId, amount: nat)
    requires Closed(q) && f in q.flows && forall g :: g in q.tree ==> T(q, f) <= T(q, g)
    ensures Shift(q, f, amount) > 0 ==> Shift(q, f, amount) >= T(q, f)
  {
    assert q.tree != [] ==> q.tree[0] in q.tree;
  }

  lemma ShiftBelow(q: Queue, f: FlowId, amount: nat, g: FlowId)
    requires Closed(q) && f in q.flows && g in q.tree && T(q, q.tree[0]) <= T(q, g)
    ensures Shift(q, f, amount) <= T(q, g)
  {
  }

  lemma WrapAround(t: nat, s: nat, amount: nat)
    requires t <= s <= MAX_TIME && amount <= MAX_TIME && amount > MAX_TIME - t
    ensures Add64(Sub64(t, s), amount) == t - s + amount <= MAX_TIME
  {
    if t < s {
      assert Sub64(t, s) == t - s + TWO_64;
    }
  }

  lemma DoneKeeps(p: Params, q: Queue)
    requires ParamsOk(p) && Inv(p, q) && q.sending.Some? && Closed(q)
    ensures Inv(p, Step(p, q, Done))
  {
    hide Increment;
    var f, amount := q.sending.value, p.weight + q.sendingLen;
    InvClosed(p, q);
    RenormalisationExact(p, q, f, amount);
    var q1 := Step(p, q, Done);
    forall i | 0 <= i < |q.tree|
      ensures q.tree[i] in q1.flows && q1.flows[q.tree[i]].time == T(q, q.tree[i]) - Shift(q, f, amount)
    {
      assert q.tree[i] in q.tree;
    }
    SortedUnder(q.flows, q1.flows, q.tree, Shift(q, f, amount));
  }

  lemma QueuedKeeps(p: Params, q: Queue, f: FlowId, len: nat)
    requires ParamsOk(p) && Inv(p, q) && Closed(q) && Enabled(p, q, Send(f, len))
    ensures var q1 := Queued(q, f, len);
      && Linked(q1) && Sorted(q1.flows, q1.tree) && TimesOk(p, q1) && SendingOk(p, q1) && PreviousOk(q1) && Closed(q1)
      && q1.tree != [] && q1.sending == q.sending && q1.job == q.job
      && (q1.previous.Some? ==> q1.job)
  {
    hide Insert, Sorted, CurrentTime, Before;
    var q1 := Queued(q, f, len);
    InvClosed(p, q);
    CurrentTimeFacts(p, q);
    QueuedSorted(q, f, len);
    InsertMembers(q1.flows, q.tree, f);
  }

  lemma QueuedSorted(q: Queue, f: FlowId, len: nat)
    requires Closed(q) && Sorted(q.flows, q.tree) && f in q.flows && f !in q.tree
    ensures Sorted(Queued(q, f, len).flows, Queued(q, f, len).tree)
  {
    hide Insert, CurrentTime;
    var q1 := Queued(q, f, len);
    assert Sorted(q1.flows, q.tree) by {
      forall i | 0 <= i < |q.tree| ensures q.tree[i] in q.flows && q.tree[i] != f { assert q.tree[i] in q.tree; }
      SortedUnder(q.flows, q1.flows, q.tree, 0);
    }
    InsertSorted(q1.flows, q.tree, f);
  }

  lemma CurrentTimeFacts(p: Params, q: Queue)
    requires Inv(p, q) && Closed(q)
    ensures CurrentTime(q) <= MAX_TIME
    ensures q.sending.Some? ==> CurrentTime(q) == T(q, q.sending.value)
  {
    assert q.tree != [] ==> q.tree[0] in q.tree;
  }

  lemma SendKeeps(p: Params, q: Queue, f: FlowId, len: nat)
    requires ParamsOk(p) && Inv(p, q) && Closed(q) && Enabled(p, q, Send(f, len))
    ensures Inv(p, Step(p, q, Send(f, len)))
  {
    hide Queued, Insert, Sorted, Linked, TimesOk;
    QueuedKeeps(p, q, f, len);
    var q1 := Queued(q, f, len);
    if q1.sending == None && !q1.job {
      ScheduleKeeps(p, q1);
    }
  }

  lemma FreeKeeps(p: Params, q: Queue, f: FlowId)
    requires Inv(p, q) && Closed(q) && Enabled(p, q, FreeFlow(f))
    ensures Inv(p, Step(p, q, FreeFlow(f)))
  {
    InvClosed(p, q);
    WithoutNoDup(q.list, f);
    RemoveSorted(q.flows, q.tree, f);
    if q.tree == [] {
      assert Without(q.tree, f) == [];
    }
  }

  lemma InitKeeps(p: Params, q: Queue, f: FlowId)
    requires Inv(p, q) && Closed(q) && Enabled(p, q, InitFlow(f))
    ensures Inv(p, Step(p, q, InitFlow(f)))
  {
    var q1 := Step(p, q, InitFlow(f));
    InvClosed(p, q);
    assert f !in q.list;
    forall i | 0 <= i < |q.tree| ensures q.tree[i] in q.flows && q.tree[i] != f { assert q.tree[i] in q.tree; }
    SortedUnder(q.flows, q1.flows, q.tree, 0);
  }

  /** The invariant holds after every event the callers may cause, so in every reachable state. */
  lemma StepKeepsInv(p: Params, q: Queue, e: Event)
    requires ParamsOk(p) && Inv(p, q) && Closed(q) && Enabled(p, q, e)
    ensures Inv(p, Step(p, q, e)) && Closed(Step(p, q, e))
  {
    hide Inv, Step;
    match e {
      case InitFlow(f) => InitKeeps(p, q, f);
      case FreeFlow(f) => FreeKeeps(p, q, f);
      case Send(f, len) => SendKeeps(p, q, f, len);
      case Done => DoneKeeps(p, q);
      case Job => JobKeeps(p, q);
    }
    InvClosed(p, Step(p, q, e));
  }

  lemma JobKeeps(p: Params, q: Queue)
    requires Inv(p, q) && Closed(q) && q.job
    ensures Inv(p, Step(p, q, Job))
  {
    hide Sorted, Linked, TimesOk;
    var q1 := q.(job := false, previous := None);
    if q1.tree != [] {
      TimesUnchanged(p, q, q1);
      ScheduleKeeps(p, q1);
    } else {
      TimesUnchanged(p, q, q1);
    }
  }

  lemma TimesUnchanged(p: Params, q: Queue, q1: Queue)
    requires q1.flows == q.flows && q1.tree == q.tree && q1.list == q.list
    ensures TimesOk(p, q) == TimesOk(p, q1) && Linked(q) == Linked(q1)
  {
  }
}
