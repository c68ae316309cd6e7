/** What the fair queue promises over whole runs: fairness between competing flows, and no starvation. */
module FairQueueRuns {
  import opened Common
  import opened FairQueue

  /** The events can happen in this order from `q`. */
  ghost predicate CanRun(p: Params, q: Queue, es: seq<Event>)
    decreases |es|
  {
    es != [] ==> Closed(q) && Enabled(p, q, es[0]) && CanRun(p, Step(p, q, es[0]), es[1..])
  }

  ghost function Run(p: Params, q: Queue, es: seq<Event>): Queue
    requires CanRun(p, q, es)
    decreases |es|
  {
    if es == [] then q else Run(p, Step(p, q, es[0]), es[1..])
  }

  /** Every state a run from the initial state reaches satisfies the invariant. */
  lemma {:induction false} RunKeepsInv(p: Params, q: Queue, es: seq<Event>)
    requires ParamsOk(p) && Inv(p, q) && CanRun(p, q, es)
    ensures Inv(p, Run(p, q, es))
    decreases |es|
  {
    hide Inv, Step;
    if es != [] {
      StepKeepsInv(p, q, es[0]);
      RunKeepsInv(p, Step(p, q, es[0]), es[1..]);
    }
  }

  /** A waiting packet always has a send in progress or a scheduling decision pending, in every reachable state. */
  lemma NeverIdleWhileWaiting(p: Params, es: seq<Event>)
    requires ParamsOk(p) && CanRun(p, QueueInit, es)
    ensures var q := Run(p, QueueInit, es); q.tree != [] ==> q.sending.Some? || q.job
    ensures var q := Run(p, QueueInit, es); q.sending.Some? ==>
      forall g :: g in q.tree && g in q.flows && q.sending.value in q.flows ==> T(q, q.sending.value) <= T(q, g)
  {
    RunKeepsInv(p, QueueInit, es);
  }

  // ---- fairness ----

  /** The flow is waiting, being sent, or was sent last. */
  predicate Active(q: Queue, f: FlowId) {
    f in q.tree || q.sending == Some(f) || q.previous == Some(f)
  }

  /** Both flows compete: both are active and at most one of them is not waiting in the tree. */
  ghost predicate Competing(q: Queue, i: FlowId, j: FlowId) {
    && i != j && i in q.flows && j in q.flows
    && Active(q, i) && Active(q, j) && (i in q.tree || j in q.tree)
  }

  /** Event `e` makes a scheduling decision. */
  predicate Decides(q: Queue, e: Event) {
    match e
    case Job => q.tree != []
    case Send(_, _) => q.sending == None && !q.job
    case _ => false
  }

  /** A run in which both flows wait in the tree at every decision and neither is freed. */
  ghost predicate Contest(p: Params, q: Queue, es: seq<Event>, i: FlowId, j: FlowId)
    decreases |es|
  {
    es != [] ==>
      && Closed(q) && Enabled(p, q, es[0])
      && es[0] != FreeFlow(i) && es[0] != FreeFlow(j)
      && (Decides(q, es[0]) ==> i in q.tree && j in q.tree)
      && Contest(p, Step(p, q, es[0]), es[1..], i, j)
  }

  lemma {:induction false} ContestRuns(p: Params, q: Queue, es: seq<Event>, i: FlowId, j: FlowId)
    requires Contest(p, q, es, i, j)
    ensures CanRun(p, q, es)
    decreases |es|
  {
    if es != [] {
      ContestRuns(p, Step(p, q, es[0]), es[1..], i, j);
    }
  }

  /** Difference of the two virtual times. */
  function Gap(q: Queue, i: FlowId, j: FlowId): int
    requires i in q.flows && j in q.flows
  {
    T(q, i) - T(q, j)
  }

  function Abs(x: int): nat { if x < 0 then -x else x }

  /** Weight of a packet of flow `f` whose sending event `e` completes. */
  function Service(p: Params, q: Queue, e: Event, f: FlowId): nat {
    if e == Done && q.sending == Some(f) then p.weight + q.sendingLen else 0
  }

  /** Total weight of the packets of `f` sent during a run. */
  ghost function Served(p: Params, q: Queue, es: seq<Event>, f: FlowId): nat
    requires CanRun(p, q, es)
    decreases |es|
  {
    if es == [] then 0 else Service(p, q, es[0], f) + Served(p, Step(p, q, es[0]), es[1..], f)
  }

  lemma DoneInContest(p: Params, q: Queue, i: FlowId, j: FlowId)
    requires ParamsOk(p) && Inv(p, q) && Closed(q) && Competing(q, i, j) && q.sending.Some?
    ensures var q1 := Step(p, q, Done);
      && Competing(q1, i, j)
      && Gap(q1, i, j) == Gap(q, i, j) + Service(p, q, Done, i) - Service(p, q, Done, j)
      && Abs(Gap(q1, i, j)) <= Max(Abs(Gap(q, i, j)), p.weight + p.mtu)
  {
    hide Increment, Shift;
    var f, amount := q.sending.value, p.weight + q.sendingLen;
    InvClosed(p, q);
    RenormalisationExact(p, q, f, amount);
  }

  lemma SendInContest(p: Params, q: Queue, f: FlowId, len: nat, i: FlowId, j: FlowId)
    requires Inv(p, q) && Closed(q) && Enabled(p, q, Send(f, len)) && Competing(q, i, j) && ParamsOk(p)
    requires Decides(q, Send(f, len)) ==> i in q.tree && j in q.tree
    ensures var q1 := Step(p, q, Send(f, len)); Competing(q1, i, j) && Gap(q1, i, j) == Gap(q, i, j)
  {
    hide Insert, CurrentTime;
    InvClosed(p, q);
    InsertMembers(Queued(q, f, len).flows, q.tree, f);
  }

  lemma JobInContest(p: Params, q: Queue, i: FlowId, j: FlowId)
    requires Inv(p, q) && Closed(q) && q.job && Competing(q, i, j)
    requires Decides(q, Job) ==> i in q.tree && j in q.tree
    ensures var q1 := Step(p, q, Job); Competing(q1, i, j) && Gap(q1, i, j) == Gap(q, i, j)
  {
    assert q.tree == [q.tree[0]] + q.tree[1..];
    InvClosed(p, q);
  }

  lemma StepInContest(p: Params, q: Queue, e: Event, i: FlowId, j: FlowId)
    requires ParamsOk(p) && Inv(p, q) && Closed(q) && Enabled(p, q, e) && Competing(q, i, j)
    requires e != FreeFlow(i) && e != FreeFlow(j) && (Decides(q, e) ==> i in q.tree && j in q.tree)
    ensures var q1 := Step(p, q, e);
      && Competing(q1, i, j)
      && Gap(q1, i, j) == Gap(q, i, j) + Service(p, q, e, i) - Service(p, q, e, j)
      && Abs(Gap(q1, i, j)) <= Max(Abs(Gap(q, i, j)), p.weight + p.mtu)
  {
    match e {
      case InitFlow(f) =>
      case FreeFlow(f) =>
      case Send(f, len) => SendInContest(p, q, f, len, i, j);
      case Done => DoneInContest(p, q, i, j);
      case Job => JobInContest(p, q, i, j);
    }
  }

  /**
   * Fairness, across any number of renormalisations: while two flows compete, the gap between their virtual times is
   * exactly the difference of the service they got, and never exceeds the larger of the gap at the start and the
   * weight of one largest packet; hence the service they get differs by a bounded amount however long the run.
   */
  lemma {:induction false} Fairness(p: Params, q: Queue, es: seq<Event>, i: FlowId, j: FlowId)
    requires ParamsOk(p) && Inv(p, q) && Competing(q, i, j) && Contest(p, q, es, i, j)
    ensures CanRun(p, q, es)
    ensures var q1 := Run(p, q, es);
      && Competing(q1, i, j)
      && Gap(q1, i, j) - Gap(q, i, j) == Served(p, q, es, i) - Served(p, q, es, j)
      && Abs(Gap(q1, i, j)) <= Max(Abs(Gap(q, i, j)), p.weight + p.mtu)
    ensures Abs(Served(p, q, es, i) - Served(p, q, es, j))
      <= Abs(Gap(q, i, j)) + Max(Abs(Gap(q, i, j)), p.weight + p.mtu)
    decreases |es|
  {
    hide Inv, Step, Competing, Service;
    CompetingHas(q, i, j);
    ContestRuns(p, q, es, i, j);
    if es != [] {
      StepInContest(p, q, es[0], i, j);
      StepKeepsInv(p, q, es[0]);
      CompetingHas(Step(p, q, es[0]), i, j);
      Fairness(p, Step(p, q, es[0]), es[1..], i, j);
    }
  }

  lemma CompetingHas(q: Queue, i: FlowId, j: FlowId)
    ensures Competing(q, i, j) ==> i in q.flows && j in q.flows
  {
  }

  // ---- no starvation ----

  /** How far flow `g` may still be served before flow `f`. */
  function Ahead(q: Queue, f: FlowId, g: FlowId): nat
    requires f in q.flows && g in q.flows
  {
    if g == f then 0 else Max(0, T(q, f) - T(q, g) + 1)
  }

  function AheadAll(q: Queue, f: FlowId, list: seq<FlowId>): nat
    requires f in q.flows && forall k :: 0 <= k < |list| ==> list[k] in q.flows
  {
    if list == [] then 0 else Ahead(q, f, list[0]) + AheadAll(q, f, list[1..])
  }

  lemma {:induction false} AheadNotMore(q: Queue, q1: Queue, f: FlowId, list: seq<FlowId>)
    requires f in q.flows && f in q1.flows
    requires forall k :: 0 <= k < |list| ==> list[k] in q.flows && list[k] in q1.flows
    requires forall k :: 0 <= k < |list| ==> Ahead(q1, f, list[k]) <= Ahead(q, f, list[k])
    ensures AheadAll(q1, f, list) <= AheadAll(q, f, list)
    ensures (exists k :: 0 <= k < |list| && Ahead(q1, f, list[k]) < Ahead(q, f, list[k])) ==>
      AheadAll(q1, f, list) < AheadAll(q, f, list)
    decreases |list|
  {
    if list != [] {
      AheadNotMore(q, q1, f, list[1..]);
      if exists k :: 0 <= k < |list| && Ahead(q1, f, list[k]) < Ahead(q, f, list[k]) {
        var k :| 0 <= k < |list| && Ahead(q1, f, list[k]) < Ahead(q, f, list[k]);
        if k > 0 {
          assert list[1..][k - 1] == list[k];
        }
      }
    }
  }

  lemma {:induction false} AheadWithout(q: Queue, q1: Queue, f: FlowId, list: seq<FlowId>, g: FlowId)
    requires f in q.flows && forall k :: 0 <= k < |list| ==> list[k] in q.flows
    requires f in q1.flows && q1.flows == q.flows - {g}
    ensures forall k :: 0 <= k < |Without(list, g)| ==> Without(list, g)[k] in q1.flows
    ensures AheadAll(q1, f, Without(list, g)) <= AheadAll(q, f, list)
    decreases |list|
  {
    forall k | 0 <= k < |Without(list, g)| ensures Without(list, g)[k] in q1.flows {
      assert Without(list, g)[k] in Without(list, g);
    }
    if list != [] {
      AheadWithout(q, q1, f, list[1..], g);
      if list[0] != g {
        assert Without(list, g)[1..] == Without(list[1..], g);
      }
    }
  }

  ghost predicate ListOk(q: Queue) {
    forall k :: 0 <= k < |q.list| ==> q.list[k] in q.flows
  }

  /** A bound on the sends still to complete before the queued flow `f` gets its turn. */
  ghost function Patience(q: Queue, f: FlowId): nat
    requires f in q.flows && ListOk(q)
  {
    AheadAll(q, f, q.list)
  }

  /** Flow `f` waits through the whole run. */
  ghost predicate Waits(p: Params, q: Queue, es: seq<Event>, f: FlowId)
    decreases |es|
  {
    && f in q.tree
    && (es != [] ==> Closed(q) && Enabled(p, q, es[0]) && Waits(p, Step(p, q, es[0]), es[1..], f))
  }

  function Completions(es: seq<Event>): nat {
    if es == [] then 0 else (if es[0] == Done then 1 else 0) + Completions(es[1..])
  }

  function Joins(es: seq<Event>): nat {
    if es == [] then 0 else (if es[0].InitFlow? then 1 else 0) + Joins(es[1..])
  }

  function Decisions(p: Params, q: Queue, es: seq<Event>): nat
    requires CanRun(p, q, es)
    decreases |es|
  {
    if es == [] then 0 else (if Decides(q, es[0]) then 1 else 0) + Decisions(p, Step(p, q, es[0]), es[1..])
  }

  lemma InvListOk(p: Params, q: Queue)
    requires Inv(p, q)
    ensures ListOk(q) && Closed(q)
  {
    InvClosed(p, q);
    forall k | 0 <= k < |q.list| ensures q.list[k] in q.flows {
      assert q.list[k] in q.list;
    }
  }

  lemma DonePatience(p: Params, q: Queue, f: FlowId)
    requires ParamsOk(p) && Inv(p, q) && Closed(q) && q.sending.Some? && f in q.tree && ListOk(q)
    requires ListOk(Step(p, q, Done))
    ensures f in Step(p, q, Done).flows && f in q.flows
    ensures Patience(Step(p, q, Done), f) < Patience(q, f)
  {
    hide Increment, Shift;
    var g, amount, q1 := q.sending.value, p.weight + q.sendingLen, Step(p, q, Done);
    InvClosed(p, q);
    RenormalisationExact(p, q, g, amount);
    assert g in q.list;
    var k :| 0 <= k < |q.list| && q.list[k] == g;
    assert Ahead(q1, f, q.list[k]) < Ahead(q, f, q.list[k]);
    AheadNotMore(q, q1, f, q.list);
  }

  lemma OtherPatience(p: Params, q: Queue, e: Event, f: FlowId)
    requires ParamsOk(p) && Inv(p, q) && Closed(q) && Enabled(p, q, e) && !e.InitFlow? && e != Done
    requires f in q.tree && f in Step(p, q, e).tree && ListOk(q) && ListOk(Step(p, q, e))
    ensures f in Step(p, q, e).flows && f in q.flows
    ensures Patience(Step(p, q, e), f) <= Patience(q, f)
  {
    hide Insert, CurrentTime, Inv, Before, Ahead, AheadAll;
    var q1 := Step(p, q, e);
    match e {
      case FreeFlow(g) => AheadWithout(q, q1, f, q.list, g);
      case Send(g, len) => LaterPatience(q, q1, f, g);
      case Job => LaterPatience(q, q1, f, f);
    }
  }

  /** Only flow `g` may have changed its time, to a later one. */
  lemma LaterPatience(q: Queue, q1: Queue, f: FlowId, g: FlowId)
    requires f in q.flows && f in q1.flows && ListOk(q) && ListOk(q1) && q1.list == q.list && T(q1, f) == T(q, f)
    requires forall h :: h in q.flows && h in q1.flows && h != g ==> T(q1, h) == T(q, h)
    requires g in q.flows && g in q1.flows ==> T(q1, g) >= T(q, g)
    ensures Patience(q1, f) <= Patience(q, f)
  {
    hide AheadAll;
    AheadNotMore(q, q1, f, q.list);
  }

  lemma {:induction false} AheadAppend(q: Queue, q1: Queue, f: FlowId, list: seq<FlowId>, g: FlowId)
    requires f in q.flows && g !in q.flows && forall k :: 0 <= k < |list| ==> list[k] in q.flows
    requires q1.flows == q.flows[g := Flow(0, 0)]
    ensures forall k :: 0 <= k < |list + [g]| ==> (list + [g])[k] in q1.flows
    ensures AheadAll(q1, f, list + [g]) == AheadAll(q, f, list) + T(q, f) + 1
    decreases |list|
  {
    if list == [] {
      assert list + [g] == [g] && [g][1..] == [];
      assert AheadAll(q1, f, [g]) == Ahead(q1, f, g) + AheadAll(q1, f, []);
    } else {
      AheadAppend(q, q1, f, list[1..], g);
      assert (list + [g])[1..] == list[1..] + [g];
    }
  }

  /** A flow that joins can be served once for every step of time up to that of the waiting flow. */
  lemma JoinPatience(p: Params, q: Queue, g: FlowId, f: FlowId)
    requires Inv(p, q) && Closed(q) && Enabled(p, q, InitFlow(g)) && f in q.tree
    requires ListOk(q) && ListOk(Step(p, q, InitFlow(g)))
    ensures f in Step(p, q, InitFlow(g)).flows && f in q.flows
    ensures Patience(Step(p, q, InitFlow(g)), f) == Patience(q, f) + T(q, f) + 1
  {
    AheadAppend(q, Step(p, q, InitFlow(g)), f, q.list, g);
  }

  /** The time of a waiting flow never rises. */
  lemma WaitingTime(p: Params, q: Queue, e: Event, f: FlowId)
    requires ParamsOk(p) && Inv(p, q) && Closed(q) && Enabled(p, q, e) && f in q.tree && f in Step(p, q, e).tree
    ensures f in q.flows && f in Step(p, q, e).flows && T(Step(p, q, e), f) <= T(q, f)
  {
    hide Increment, Shift, Insert, CurrentTime;
    InvClosed(p, q);
    StepKeepsInv(p, q, e);
    InvClosed(p, Step(p, q, e));
    if e == Done {
      RenormalisationExact(p, q, q.sending.value, p.weight + q.sendingLen);
    }
  }

  lemma JoinsMonotone(n: nat, t: nat, t1: nat)
    requires t1 <= t
    ensures n * (t1 + 1) <= n * (t + 1) && (n + 1) * (t + 1) == n * (t + 1) + t + 1
  {
  }

  /**
   * No starvation, over every run in which a flow waits: the sends that complete are at most its patience at the start,
   * which every completed send lowers and neither a send, a freed flow nor a renormalisation raises, and for each flow
   * that joins the flow's own time at the start plus one.
   */
  lemma {:induction false} NoStarvation(p: Params, q: Queue, es: seq<Event>, f: FlowId)
    requires ParamsOk(p) && Inv(p, q) && Waits(p, q, es, f)
    ensures ListOk(q) && f in q.flows
    ensures Completions(es) <= Patience(q, f) + Joins(es) * (T(q, f) + 1)
    decreases |es|
  {
    hide Inv, Step, AheadAll;
    InvListOk(p, q);
    if es != [] {
      var q1, n := Step(p, q, es[0]), Joins(es[1..]);
      StepKeepsInv(p, q, es[0]);
      InvListOk(p, q1);
      NoStarvation(p, q1, es[1..], f);
      WaitingTime(p, q, es[0], f);
      JoinsMonotone(n, T(q, f), T(q1, f));
      if es[0] == Done {
        DonePatience(p, q, f);
      } else if es[0].InitFlow? {
        JoinPatience(p, q, es[0].f, f);
      } else {
        OtherPatience(p, q, es[0], f);
      }
    }
  }

  lemma {:induction false} WaitsRuns(p: Params, q: Queue, es: seq<Event>, f: FlowId)
    requires Waits(p, q, es, f)
    ensures CanRun(p, q, es)
    decreases |es|
  {
    if es != [] {
      WaitsRuns(p, Step(p, q, es[0]), es[1..], f);
    }
  }

  /** A decision starts a send, and the next decision waits for it to complete. */
  lemma {:induction false} DecisionsBounded(p: Params, q: Queue, es: seq<Event>)
    requires ParamsOk(p) && Inv(p, q) && CanRun(p, q, es)
    ensures Decisions(p, q, es) <= Completions(es) + (if q.sending == None then 1 else 0)
    decreases |es|
  {
    if es != [] {
      var q1 := Step(p, q, es[0]);
      StepKeepsInv(p, q, es[0]);
      DecisionsBounded(p, q1, es[1..]);
    }
  }

  /** So a waiting flow is passed over by at most that many scheduling decisions, plus one already due. */
  lemma PassedOverBounded(p: Params, q: Queue, es: seq<Event>, f: FlowId)
    requires ParamsOk(p) && Inv(p, q) && Waits(p, q, es, f)
    ensures ListOk(q) && f in q.flows && CanRun(p, q, es)
    ensures Decisions(p, q, es) <= Patience(q, f) + Joins(es) * (T(q, f) + 1) + 1
  {
    WaitsRuns(p, q, es, f);
    NoStarvation(p, q, es, f);
    DecisionsBounded(p, q, es);
  }

  // ---- without a limit on joining flows there is no limit on waiting ----

  /** Flow 0 waits with the time of one packet behind it, while flow `g`, which has just joined, is being sent. */
  function Overtaken(p: Params, g: FlowId): Queue {
    Queue([0, g], map[0 := Flow(p.weight, 0), g := Flow(0, 0)], [0], Some(g), 0, None, false)
  }

  /** Flow 0 sends, flow 1 joins and queues behind it, and flow 0 queues its second packet. */
  const OVERTAKE := [InitFlow(0), Send(0, 0), InitFlow(1), Send(1, 0), Done, Send(0, 0), Job]

  /** The next flow joins and queues; the flow being sent is done and leaves; the new flow is next. */
  function Replace(g: FlowId): seq<Event> {
    [InitFlow(g + 1), Send(g + 1, 0), Done, FreeFlow(g), Job]
  }

  function ReplaceAll(g: FlowId, n: nat): seq<Event>
    decreases n
  {
    if n == 0 then [] else Replace(g) + ReplaceAll(g + 1, n - 1)
  }

  lemma WaitsOne(p: Params, q: Queue, e: Event, es: seq<Event>, f: FlowId)
    requires f in q.tree && Closed(q) && Enabled(p, q, e) && Waits(p, Step(p, q, e), es, f)
    ensures Waits(p, q, [e] + es, f)
  {
    assert ([e] + es)[1..] == es;
  }

  /** Event `e` may happen in `q` and leads to `q1`. */
  ghost predicate Leads(p: Params, q: Queue, e: Event, q1: Queue) {
    Closed(q) && Enabled(p, q, e) && Step(p, q, e) == q1
  }

  lemma RunOne(p: Params, q: Queue, e: Event, q1: Queue, es: seq<Event>)
    requires Leads(p, q, e, q1) && CanRun(p, q1, es)
    ensures CanRun(p, q, [e] + es) && Run(p, q, [e] + es) == Run(p, q1, es)
  {
    assert ([e] + es)[1..] == es;
  }

  // The states in between.

  function Joined(p: Params, g: FlowId): Queue {
    Queue([0, g, g + 1], map[0 := Flow(p.weight, 0), g := Flow(0, 0), g + 1 := Flow(0, 0)], [0], Some(g), 0, None,
          false)
  }

  function InFront(p: Params, g: FlowId): Queue {
    Joined(p, g).(tree := [g + 1, 0])
  }

  function Charged(p: Params, g: FlowId): Queue {
    Queue([0, g, g + 1], map[0 := Flow(p.weight, 0), g := Flow(p.weight, 0), g + 1 := Flow(0, 0)], [g + 1, 0], None, 0,
          Some(g), true)
  }

  function Left(p: Params, g: FlowId): Queue {
    Queue([0, g + 1], map[0 := Flow(p.weight, 0), g + 1 := Flow(0, 0)], [g + 1, 0], None, 0, None, true)
  }

  lemma JoinedStep(p: Params, g: FlowId)
    requires g >= 1
    ensures Step(p, Overtaken(p, g), InitFlow(g + 1)) == Joined(p, g)
  {
  }

  lemma InFrontStep(p: Params, g: FlowId)
    requires ParamsOk(p) && g >= 1
    ensures Step(p, Joined(p, g), Send(g + 1, 0)) == InFront(p, g)
  {
    var q := Joined(p, g);
    assert q.flows[g + 1 := Flow(0, 0)] == q.flows;
    assert Insert(q.flows, [0], g + 1) == [g + 1] + [0];
  }

  lemma ChargedStep(p: Params, g: FlowId)
    requires ParamsOk(p) && g >= 1
    ensures Step(p, InFront(p, g), Done) == Charged(p, g)
  {
    var q := InFront(p, g);
    assert Increment(q, g, p.weight) == Charged(p, g).flows;
  }

  lemma LeftStep(p: Params, g: FlowId)
    requires g >= 1
    ensures Step(p, Charged(p, g), FreeFlow(g)) == Left(p, g)
  {
    var q := Charged(p, g);
    assert q.flows - {g} == Left(p, g).flows;
    WithoutTriple(0, g, g + 1);
    WithoutAbsent(q.tree, g);
  }

  lemma WithoutTriple(a: nat, b: nat, c: nat)
    requires a != b && b != c
    ensures Without([a, b, c], b) == [a, c]
  {
    WithoutAbsent([c], b);
    assert [a, b, c][1..] == [b, c] && [b, c][1..] == [c];
    assert Without([b, c], b) == Without([c], b);
    assert Without([a, b, c], b) == [a] + Without([b, c], b);
  }

  lemma NextOvertakes(p: Params, g: FlowId)
    requires g >= 1
    ensures Step(p, Left(p, g), Job) == Overtaken(p, g + 1)
  {
    assert [g + 1, 0][1..] == [0];
  }

  lemma ReplaceWaits(p: Params, g: FlowId, rest: seq<Event>)
    requires ParamsOk(p) && g >= 1 && Waits(p, Overtaken(p, g + 1), rest, 0)
    ensures Waits(p, Overtaken(p, g), Replace(g) + rest, 0)
  {
    hide Step, Waits;
    JoinedStep(p, g);
    InFrontStep(p, g);
    ChargedStep(p, g);
    LeftStep(p, g);
    NextOvertakes(p, g);
    WaitsOne(p, Left(p, g), Job, rest, 0);
    WaitsOne(p, Charged(p, g), FreeFlow(g), [Job] + rest, 0);
    WaitsOne(p, InFront(p, g), Done, [FreeFlow(g)] + ([Job] + rest), 0);
    WaitsOne(p, Joined(p, g), Send(g + 1, 0), [Done] + ([FreeFlow(g)] + ([Job] + rest)), 0);
    WaitsOne(p, Overtaken(p, g), InitFlow(g + 1), [Send(g + 1, 0)] + ([Done] + ([FreeFlow(g)] + ([Job] + rest))), 0);
    assert Replace(g) + rest
        == [InitFlow(g + 1)] + ([Send(g + 1, 0)] + ([Done] + ([FreeFlow(g)] + ([Job] + rest))));
  }

  lemma CountOne(e: Event, es: seq<Event>)
    ensures Joins([e] + es) == Joins(es) + (if e.InitFlow? then 1 else 0)
    ensures Completions([e] + es) == Completions(es) + (if e == Done then 1 else 0)
  {
    assert ([e] + es)[1..] == es;
  }

  lemma ReplaceCounts(g: FlowId, rest: seq<Event>)
    ensures Joins(Replace(g) + rest) == Joins(rest) + 1 && Completions(Replace(g) + rest) == Completions(rest) + 1
  {
    hide Joins, Completions;
    var e4 := [Job] + rest;
    var e3 := [FreeFlow(g)] + e4;
    var e2 := [Done] + e3;
    var e1 := [Send(g + 1, 0)] + e2;
    CountOne(Job, rest);
    CountOne(FreeFlow(g), e4);
    CountOne(Done, e3);
    CountOne(Send(g + 1, 0), e2);
    CountOne(InitFlow(g + 1), e1);
    assert Replace(g) + rest == [InitFlow(g + 1)] + e1;
  }

  lemma {:induction false} ReplaceAllWaits(p: Params, g: FlowId, n: nat)
    requires ParamsOk(p) && g >= 1
    ensures Waits(p, Overtaken(p, g), ReplaceAll(g, n), 0)
    ensures Joins(ReplaceAll(g, n)) == n && Completions(ReplaceAll(g, n)) == n
    decreases n
  {
    hide Step, Replace;
    if n > 0 {
      ReplaceAllWaits(p, g + 1, n - 1);
      ReplaceWaits(p, g, ReplaceAll(g + 1, n - 1));
      ReplaceCounts(g, ReplaceAll(g + 1, n - 1));
    }
  }

  const ALONE := Queue([0], map[0 := Flow(0, 0)], [], None, 0, None, false)
  const FIRST := ALONE.(sending := Some(0))
  const BOTH := Queue([0, 1], map[0 := Flow(0, 0), 1 := Flow(0, 0)], [], Some(0), 0, None, false)

  function Second(p: Params): Queue {
    Queue([0, 1], map[0 := Flow(p.weight, 0), 1 := Flow(0, 0)], [1], None, 0, Some(0), true)
  }

  function Requeued(p: Params): Queue {
    Second(p).(tree := [1, 0], previous := None)
  }

  lemma FirstSends(p: Params)
    ensures Leads(p, QueueInit, InitFlow(0), ALONE) && Leads(p, ALONE, Send(0, 0), FIRST)
  {
    assert map[0 := Flow(0, 0)][0 := Flow(0, 0)] == map[0 := Flow(0, 0)];
  }

  lemma SecondQueues(p: Params)
    ensures Leads(p, FIRST, InitFlow(1), BOTH) && Leads(p, BOTH, Send(1, 0), BOTH.(tree := [1]))
  {
    assert BOTH.flows[1 := Flow(0, 0)] == BOTH.flows;
  }

  lemma FirstIsDone(p: Params)
    requires ParamsOk(p)
    ensures Leads(p, BOTH.(tree := [1]), Done, Second(p))
  {
    assert Increment(BOTH.(tree := [1]), 0, p.weight) == Second(p).flows;
  }

  lemma FirstQueuesAgain(p: Params)
    requires ParamsOk(p)
    ensures Leads(p, Second(p), Send(0, 0), Requeued(p)) && Leads(p, Requeued(p), Job, Overtaken(p, 1))
  {
    var flows := Second(p).flows;
    assert flows[0 := Flow(p.weight, 0)] == flows;
    assert [1][1..] == [] && Insert(flows, [], 0) == [0];
    assert Insert(flows, [1], 0) == [1] + Insert(flows, [], 0);
    assert [1, 0][1..] == [0];
  }

  lemma OvertakenReached(p: Params)
    requires ParamsOk(p)
    ensures CanRun(p, QueueInit, OVERTAKE) && Run(p, QueueInit, OVERTAKE) == Overtaken(p, 1)
  {
    hide Step, Run, CanRun, Leads, Overtaken, Second, Requeued;
    FirstSends(p);
    SecondQueues(p);
    FirstIsDone(p);
    FirstQueuesAgain(p);
    RunNone(p, Overtaken(p, 1));
    var e6 := [Job] + [];
    RunOne(p, Requeued(p), Job, Overtaken(p, 1), []);
    var e5 := [Send(0, 0)] + e6;
    RunOne(p, Second(p), Send(0, 0), Requeued(p), e6);
    var e4 := [Done] + e5;
    RunOne(p, BOTH.(tree := [1]), Done, Second(p), e5);
    var e3 := [Send(1, 0)] + e4;
    RunOne(p, BOTH, Send(1, 0), BOTH.(tree := [1]), e4);
    var e2 := [InitFlow(1)] + e3;
    RunOne(p, FIRST, InitFlow(1), BOTH, e3);
    var e1 := [Send(0, 0)] + e2;
    RunOne(p, ALONE, Send(0, 0), FIRST, e2);
    RunOne(p, QueueInit, InitFlow(0), ALONE, e1);
    assert OVERTAKE == [InitFlow(0)] + e1;
  }

  lemma RunNone(p: Params, q: Queue)
    ensures CanRun(p, q, []) && Run(p, q, []) == q
  {
  }

  /**
   * The term for joining flows is needed: with any weight, and from a state reached from an empty queue, for every `n`
   * there is a run in which `n` flows join, `n` sends complete and the waiting flow is passed over every time. So the
   * wait of a flow is bounded exactly as far as the number of flows that join is.
   */
  lemma JoinersOvertake(p: Params, n: nat)
    requires ParamsOk(p)
    ensures CanRun(p, QueueInit, OVERTAKE) && Run(p, QueueInit, OVERTAKE) == Overtaken(p, 1)
    ensures exists es :: Waits(p, Overtaken(p, 1), es, 0) && Joins(es) == n && Completions(es) == n
  {
    OvertakenReached(p);
    ReplaceAllWaits(p, 1, n);
  }
}
