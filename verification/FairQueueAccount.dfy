/**
 * The fair queue told from outside: every flow's packets as its senders hand them over, and how many of them are
 * sent. The queue sends each flow's packets in that order, each with its own length, and charges the flow exactly for
 * those sent.
 */
module FairQueueAccount {
  import opened Common
  import opened FairQueue
  import opened FairQueueRuns

  /** Of each flow, the lengths of the packets handed over since it was initialised, and how many of them are sent. */
  datatype Account = Account(packets: map<FlowId, seq<nat>>, done: map<FlowId, nat>)

  const AccountInit := Account(map[], map[])

  /** What an event adds; `sending` is the flow whose send is in progress. */
  function Record(a: Account, sending: Option<FlowId>, e: Event): Account {
    match e
    case InitFlow(f) => Account(a.packets[f := []], a.done[f := 0])
    case FreeFlow(f) => Account(a.packets - {f}, a.done - {f})
    case Send(f, len) => a.(packets := a.packets[f := (if f in a.packets then a.packets[f] else []) + [len]])
    case Done =>
      if sending.Some? && sending.value in a.done then
        a.(done := a.done[sending.value := a.done[sending.value] + 1])
      else a
    case Job => a
  }

  ghost function RecordAll(p: Params, q: Queue, a: Account, es: seq<Event>): Account
    requires CanRun(p, q, es)
    decreases |es|
  {
    if es == [] then a else RecordAll(p, Step(p, q, es[0]), Record(a, q.sending, es[0]), es[1..])
  }

  /** The length of the packet the queue holds for a flow, being sent or queued. */
  function Held(q: Queue, f: FlowId): seq<nat>
    requires f in q.flows
  {
    if q.sending == Some(f) then [q.sendingLen] else if f in q.tree then [q.flows[f].len] else []
  }

  /** The queue holds exactly the packet of a flow that was handed over and is not sent. */
  ghost predicate HoldsUnsent(q: Queue, a: Account, f: FlowId)
    requires f in q.flows && f in a.packets && f in a.done
  {
    a.done[f] <= |a.packets[f]| && a.packets[f][a.done[f]..] == Held(q, f)
  }

  ghost predicate Agree(q: Queue, a: Account) {
    && q.flows.Keys == a.packets.Keys == a.done.Keys
    && forall f :: f in q.flows ==> HoldsUnsent(q, a, f)
  }

  lemma SendAgrees(p: Params, q: Queue, a: Account, f: FlowId, len: nat, g: FlowId)
    requires ParamsOk(p) && Inv(p, q) && Closed(q) && Enabled(p, q, Send(f, len)) && Agree(q, a) && g in q.flows
    ensures g in Step(p, q, Send(f, len)).flows
    ensures HoldsUnsent(Step(p, q, Send(f, len)), Record(a, q.sending, Send(f, len)), g)
  {
    hide Insert, CurrentTime, Inv;
    SendHolds(p, q, f, len, g);
    assert HoldsUnsent(q, a, g);
    if g == f {
      assert (a.packets[f] + [len])[a.done[f]..] == a.packets[f][a.done[f]..] + [len];
    }
  }

  /** A packet handed over is held with its length, whether its send starts at once or not. */
  lemma SendHolds(p: Params, q: Queue, f: FlowId, len: nat, g: FlowId)
    requires ParamsOk(p) && Inv(p, q) && Closed(q) && Enabled(p, q, Send(f, len)) && g in q.flows
    ensures var q1 := Step(p, q, Send(f, len));
      g in q1.flows && Held(q1, g) == if g == f then [len] else Held(q, g)
  {
    hide CurrentTime, Sorted;
    var q1 := Queued(q, f, len);
    InsertMembers(q1.flows, q.tree, f);
    if q1.sending == None && !q1.job {
      assert q.tree == [];
      assert Insert(q1.flows, [], f) == [f];
    }
  }

  lemma DoneAgrees(p: Params, q: Queue, a: Account, g: FlowId)
    requires ParamsOk(p) && Inv(p, q) && Closed(q) && q.sending.Some? && Agree(q, a) && g in q.flows
    ensures g in Step(p, q, Done).flows && HoldsUnsent(Step(p, q, Done), Record(a, q.sending, Done), g)
  {
    hide Shift, Reduced;
    assert HoldsUnsent(q, a, g);
    if q.sending == Some(g) {
      var k := a.done[g];
      assert |a.packets[g][k..]| == 1;
      assert a.packets[g][k + 1..] == [];
    }
  }

  lemma JobAgrees(p: Params, q: Queue, a: Account, g: FlowId)
    requires Inv(p, q) && Closed(q) && q.job && Agree(q, a) && g in q.flows
    ensures g in Step(p, q, Job).flows && HoldsUnsent(Step(p, q, Job), a, g)
  {
    hide Sorted;
    InvClosed(p, q);
    assert HoldsUnsent(q, a, g);
    if q.tree != [] {
      assert q.tree == [q.tree[0]] + q.tree[1..];
      if g == q.tree[0] {
        assert g !in q.tree[1..];
      }
    }
  }

  lemma ListAgrees(p: Params, q: Queue, a: Account, e: Event, g: FlowId)
    requires Inv(p, q) && Closed(q) && Enabled(p, q, e) && Agree(q, a) && g in Step(p, q, e).flows
    requires e.InitFlow? || e.FreeFlow?
    ensures var a1 := Record(a, q.sending, e);
      g in a1.packets && g in a1.done && HoldsUnsent(Step(p, q, e), a1, g)
  {
    hide Sorted, NoDup;
    if g in q.flows {
      assert HoldsUnsent(q, a, g);
    }
  }

  /** The account stays true with every event. */
  lemma StepAgrees(p: Params, q: Queue, a: Account, e: Event)
    requires ParamsOk(p) && Inv(p, q) && Closed(q) && Enabled(p, q, e) && Agree(q, a)
    ensures Agree(Step(p, q, e), Record(a, q.sending, e))
  {
    hide Inv, HoldsUnsent, Increment, Insert, CurrentTime;
    KeysAgree(p, q, a, e);
    forall g | g in Step(p, q, e).flows ensures HoldsUnsent(Step(p, q, e), Record(a, q.sending, e), g) {
      match e {
        case InitFlow(f) => ListAgrees(p, q, a, e, g);
        case FreeFlow(f) => ListAgrees(p, q, a, e, g);
        case Send(f, len) => SendAgrees(p, q, a, f, len, g);
        case Done => DoneAgrees(p, q, a, g);
        case Job => JobAgrees(p, q, a, g);
      }
    }
  }

  lemma KeysAgree(p: Params, q: Queue, a: Account, e: Event)
    requires Closed(q) && Enabled(p, q, e) && Agree(q, a)
    ensures var a1 := Record(a, q.sending, e); Step(p, q, e).flows.Keys == a1.packets.Keys == a1.done.Keys
  {
    hide HoldsUnsent, Insert, CurrentTime, Shift, Reduced;
  }

  lemma {:induction false} RunAgrees(p: Params, q: Queue, a: Account, es: seq<Event>)
    requires ParamsOk(p) && Inv(p, q) && Agree(q, a) && CanRun(p, q, es)
    ensures Agree(Run(p, q, es), RecordAll(p, q, a, es))
    decreases |es|
  {
    hide Inv, Step, Agree, Record;
    if es != [] {
      StepKeepsInv(p, q, es[0]);
      StepAgrees(p, q, a, es[0]);
      RunAgrees(p, Step(p, q, es[0]), Record(a, q.sending, es[0]), es[1..]);
    }
  }

  /**
   * In every run: the flow being sent sends the packet its sender handed over last, with that packet's length; all its
   * earlier packets are sent. A waiting flow holds its last packet; any other has had all its packets sent.
   */
  lemma SentAsHandedOver(p: Params, es: seq<Event>, f: FlowId)
    requires ParamsOk(p) && CanRun(p, QueueInit, es) && f in Run(p, QueueInit, es).flows
    ensures var q, a := Run(p, QueueInit, es), RecordAll(p, QueueInit, AccountInit, es);
      && f in a.packets && f in a.done
      && (if q.sending == Some(f) || f in q.tree then
            && 0 < |a.packets[f]| == a.done[f] + 1
            && a.packets[f][a.done[f]] == (if q.sending == Some(f) then q.sendingLen else q.flows[f].len)
          else |a.packets[f]| == a.done[f])
  {
    var q, a := Run(p, QueueInit, es), RecordAll(p, QueueInit, AccountInit, es);
    RunAgrees(p, QueueInit, AccountInit, es);
    assert HoldsUnsent(q, a, f);
    var rest := a.packets[f][a.done[f]..];
    assert |rest| == |a.packets[f]| - a.done[f] && (rest != [] ==> rest[0] == a.packets[f][a.done[f]]);
  }

  // ---- the service a flow gets ----

  /** The lengths of the packets handed over for `f` during a run. */
  function SentBy(es: seq<Event>, f: FlowId): seq<nat> {
    if es == [] then []
    else (if es[0].Send? && es[0].f == f then [es[0].len] else []) + SentBy(es[1..], f)
  }

  /** What sending packets of these lengths weighs. */
  function Cost(p: Params, lens: seq<nat>): nat {
    if lens == [] then 0 else p.weight + lens[0] + Cost(p, lens[1..])
  }

  lemma {:induction false} CostAppend(p: Params, a: seq<nat>, b: seq<nat>)
    ensures Cost(p, a + b) == Cost(p, a) + Cost(p, b)
    decreases |a|
  {
    if a == [] {
      assert a + b == b;
    } else {
      assert (a + b)[1..] == a[1..] + b;
      CostAppend(p, a[1..], b);
    }
  }

  /** From account `a` to `a1` flow `f` handed over packets of lengths `added`, and those sent weigh `served`. */
  ghost predicate Accounted(p: Params, f: FlowId, a: Account, a1: Account, added: seq<nat>, served: nat) {
    && f in a.packets && f in a.done && f in a1.packets && f in a1.done
    && a1.packets[f] == a.packets[f] + added
    && a.done[f] <= a1.done[f] <= |a1.packets[f]|
    && served == Cost(p, a1.packets[f][a.done[f]..a1.done[f]])
  }

  lemma AccountedJoin(p: Params, f: FlowId, a: Account, b: Account, c: Account, x: seq<nat>, y: seq<nat>, m: nat,
                      n: nat)
    requires Accounted(p, f, a, b, x, m) && Accounted(p, f, b, c, y, n)
    ensures Accounted(p, f, a, c, x + y, m + n)
  {
    hide Cost;
    var k0, k1, k2 := a.done[f], b.done[f], c.done[f];
    assert c.packets[f] == a.packets[f] + (x + y);
    assert c.packets[f][k0..k1] == b.packets[f][k0..k1];
    assert c.packets[f][k0..k2] == c.packets[f][k0..k1] + c.packets[f][k1..k2];
    CostAppend(p, c.packets[f][k0..k1], c.packets[f][k1..k2]);
  }

  /** One event: the flow is served exactly the packet that counts as sent with it. */
  lemma ServiceIsNext(p: Params, q: Queue, a: Account, e: Event, f: FlowId)
    requires Agree(q, a) && f in q.flows && e != FreeFlow(f) && Closed(q) && Enabled(p, q, e)
    ensures Accounted(p, f, a, Record(a, q.sending, e), SentBy([e], f), Service(p, q, e, f))
  {
    hide Agree, Record, SentBy, Accounted;
    AgreeHas(q, a, f);
    if e == Done && q.sending == Some(f) {
      SendingHeld(q, a, f);
      CompletionCounts(p, a, f, q.sendingLen);
    } else {
      OthersCount(p, a, q.sending, e, f);
    }
  }

  lemma CompletionCounts(p: Params, a: Account, f: FlowId, len: nat)
    requires f in a.packets && f in a.done && a.done[f] < |a.packets[f]| && a.packets[f][a.done[f]] == len
    ensures Accounted(p, f, a, Record(a, Some(f), Done), SentBy([Done], f), p.weight + len)
  {
    SentByOne(Done, f);
    var k := a.done[f];
    assert a.packets[f] + [] == a.packets[f] && a.packets[f][k..k + 1] == [len];
    CostOne(p, len);
  }

  lemma OthersCount(p: Params, a: Account, sending: Option<FlowId>, e: Event, f: FlowId)
    requires f in a.packets && f in a.done && a.done[f] <= |a.packets[f]|
    requires e != FreeFlow(f) && e != InitFlow(f) && !(e == Done && sending == Some(f))
    ensures Accounted(p, f, a, Record(a, sending, e), SentBy([e], f), 0)
  {
    SentByOne(e, f);
    var k, a1 := a.done[f], Record(a, sending, e);
    assert a.packets[f] + [] == a.packets[f] && a1.packets[f][k..k] == [];
  }

  lemma SendingHeld(q: Queue, a: Account, f: FlowId)
    requires Agree(q, a) && f in q.flows && q.sending == Some(f)
    ensures f in a.packets && f in a.done && a.done[f] < |a.packets[f]| && a.packets[f][a.done[f]] == q.sendingLen
  {
    assert HoldsUnsent(q, a, f);
    var rest := a.packets[f][a.done[f]..];
    assert rest == [q.sendingLen] && rest[0] == a.packets[f][a.done[f]];
  }

  lemma CostOne(p: Params, len: nat)
    ensures Cost(p, [len]) == p.weight + len
  {
    assert [len][1..] == [];
  }

  lemma SentByOne(e: Event, f: FlowId)
    ensures SentBy([e], f) == if e.Send? && e.f == f then [e.len] else []
  {
    assert [e][1..] == [];
  }

  lemma SentByCons(es: seq<Event>, f: FlowId)
    requires es != []
    ensures SentBy(es, f) == SentBy([es[0]], f) + SentBy(es[1..], f)
  {
    SentByOne(es[0], f);
  }

  /** Over a run a flow is served exactly the packets that are sent during it, each by its own length. */
  lemma {:induction false} ServedIsSent(p: Params, q: Queue, a: Account, es: seq<Event>, f: FlowId)
    requires ParamsOk(p) && Inv(p, q) && Agree(q, a) && CanRun(p, q, es) && f in q.flows && FreeFlow(f) !in es
    ensures Accounted(p, f, a, RecordAll(p, q, a, es), SentBy(es, f), Served(p, q, es, f))
    decreases |es|
  {
    hide Inv, Step, Record, Service, Accounted, Agree, SentBy;
    if es == [] {
      NothingAccounted(p, q, a, f);
    } else {
      var q1, b := Step(p, q, es[0]), Record(a, q.sending, es[0]);
      StepKeepsInv(p, q, es[0]);
      StepAgrees(p, q, a, es[0]);
      ServiceIsNext(p, q, a, es[0], f);
      StaysIn(p, q, es[0], f);
      ServedIsSent(p, q1, b, es[1..], f);
      SentByCons(es, f);
      AccountedJoin(p, f, a, b, RecordAll(p, q, a, es), SentBy([es[0]], f), SentBy(es[1..], f),
        Service(p, q, es[0], f), Served(p, q1, es[1..], f));
    }
  }

  lemma NothingAccounted(p: Params, q: Queue, a: Account, f: FlowId)
    requires Agree(q, a) && f in q.flows
    ensures Accounted(p, f, a, a, SentBy([], f), 0)
  {
    AgreeHas(q, a, f);
    assert a.packets[f] + [] == a.packets[f] && a.packets[f][a.done[f]..a.done[f]] == [];
  }

  lemma AgreeHas(q: Queue, a: Account, f: FlowId)
    requires Agree(q, a) && f in q.flows
    ensures f in a.packets && f in a.done && a.done[f] <= |a.packets[f]|
  {
    assert HoldsUnsent(q, a, f);
  }

  lemma StaysIn(p: Params, q: Queue, e: Event, f: FlowId)
    requires Closed(q) && Enabled(p, q, e) && f in q.flows && e != FreeFlow(f)
    ensures f in Step(p, q, e).flows
  {
    hide Insert, CurrentTime, Shift, Reduced;
  }

  lemma {:induction false} ContestKeeps(p: Params, q: Queue, es: seq<Event>, i: FlowId, j: FlowId)
    requires Contest(p, q, es, i, j)
    ensures FreeFlow(i) !in es && FreeFlow(j) !in es
    decreases |es|
  {
    if es != [] {
      ContestKeeps(p, Step(p, q, es[0]), es[1..], i, j);
    }
  }

  /**
   * Fairness in what the senders see: after any run `es0`, however long two flows then compete, the packets of the
   * two that are sent meanwhile, each weighed by the length its sender handed over, differ by a bounded weight.
   */
  lemma FairnessOfPackets(p: Params, es0: seq<Event>, es: seq<Event>, i: FlowId, j: FlowId)
    requires ParamsOk(p) && CanRun(p, QueueInit, es0)
    requires var q := Run(p, QueueInit, es0); Competing(q, i, j) && Contest(p, q, es, i, j)
    ensures var q, a := Run(p, QueueInit, es0), RecordAll(p, QueueInit, AccountInit, es0);
      && CanRun(p, q, es)
      && var a1 := RecordAll(p, q, a, es);
      && Accounted(p, i, a, a1, SentBy(es, i), Served(p, q, es, i))
      && Accounted(p, j, a, a1, SentBy(es, j), Served(p, q, es, j))
      && Abs(Served(p, q, es, i) - Served(p, q, es, j)) <= Abs(Gap(q, i, j)) + Max(Abs(Gap(q, i, j)), p.weight + p.mtu)
  {
    hide Inv, Contest, Served, Cost, Run, RecordAll, CanRun, SentBy, Agree, Accounted, Active;
    var q, a := Run(p, QueueInit, es0), RecordAll(p, QueueInit, AccountInit, es0);
    InitAgrees(p);
    RunKeepsInv(p, QueueInit, es0);
    RunAgrees(p, QueueInit, AccountInit, es0);
    ContestRuns(p, q, es, i, j);
    ContestKeeps(p, q, es, i, j);
    Fairness(p, q, es, i, j);
    ServedIsSent(p, q, a, es, i);
    ServedIsSent(p, q, a, es, j);
  }

  lemma InitAgrees(p: Params)
    ensures Inv(p, QueueInit) && Agree(QueueInit, AccountInit)
  {
  }

  // ---- the time a flow queues with ----

  /** The current time is the least time of the flows waiting, being sent or just sent, and 0 if there are none. */
  lemma CurrentTimeLeast(p: Params, q: Queue)
    requires Inv(p, q) && Closed(q)
    ensures (exists f :: Active(q, f)) ==> exists f :: f in q.flows && Active(q, f) && T(q, f) == CurrentTime(q)
    ensures forall f :: f in q.flows && Active(q, f) ==> CurrentTime(q) <= T(q, f)
    ensures !(exists f :: Active(q, f)) ==> CurrentTime(q) == 0
  {
    InvClosed(p, q);
    if q.sending.Some? {
      assert Active(q, q.sending.value);
    }
    if q.previous.Some? {
      assert Active(q, q.previous.value);
    }
    if q.tree != [] {
      assert Active(q, q.tree[0]);
    }
  }

  /**
   * A flow that queues does not come before the flows already active, however long it was idle, unless it is the one
   * just sent, which keeps its time; its time never falls, and all other times stay.
   */
  lemma SendTimes(p: Params, q: Queue, f: FlowId, len: nat, g: FlowId)
    requires ParamsOk(p) && Inv(p, q) && Closed(q) && Enabled(p, q, Send(f, len)) && g in q.flows
    ensures var q1 := Step(p, q, Send(f, len));
      && g in q1.flows
      && T(q1, g) == (if g != f || q.previous == Some(f) then T(q, g) else Max(T(q, f), CurrentTime(q)))
  {
    hide Insert, CurrentTime;
    InvClosed(p, q);
  }

  /**
   * A decision sends, of the flows that wait, the one with the least time, and of those the one with the least
   * address.
   */
  lemma DecisionExact(p: Params, q: Queue, e: Event, g: FlowId)
    requires ParamsOk(p) && Inv(p, q) && Closed(q) && Enabled(p, q, e) && Decides(q, e)
    requires g in q.tree || (e.Send? && g == e.f)
    ensures var q1 := Step(p, q, e);
      && q1.sending.Some? && q1.sending.value in q1.flows && g in q1.flows && !q1.job
      && (q1.sending == Some(g) ||
          (g in q1.tree && (T(q1, q1.sending.value) < T(q1, g) ||
                            (T(q1, q1.sending.value) == T(q1, g) && q1.sending.value < g))))
  {
    InvClosed(p, q);
    if e.Send? {
      assert q.tree == [];
      assert Insert(Queued(q, e.f, e.len).flows, [], e.f) == [e.f];
    } else {
      var i :| 0 <= i < |q.tree| && q.tree[i] == g;
      if i > 0 {
        assert Before(q.flows, q.tree[0], q.tree[i]);
        assert q.tree[1..][i - 1] == g;
      }
    }
  }

  /** What the flow `f` just sent and every other flow `g` are charged: nothing but `amount` to `f`, while that fits. */
  lemma ChargedExactly(p: Params, q: Queue, f: FlowId, amount: nat, g: FlowId)
    requires Inv(p, q) && Closed(q) && q.sending == Some(f) && amount <= MAX_TIME && g in q.flows
    ensures var flows := Increment(q, f, amount);
      && g in flows && flows[g].len == q.flows[g].len
      && (T(q, f) + amount <= MAX_TIME ==> flows[g].time == T(q, g) + if g == f then amount else 0)
  {
  }

  /**
   * When it does not fit, all times are lowered so that the first of the flows that wait has time 0, or if none waits
   * the flow just sent had; no flow that waits or was just sent moves against another, and the rest stop at 0.
   */
  lemma LoweredExactly(p: Params, q: Queue, f: FlowId, amount: nat, g: FlowId)
    requires Inv(p, q) && Closed(q) && q.sending == Some(f) && amount <= MAX_TIME && g in q.flows
    requires T(q, f) + amount > MAX_TIME
    ensures var flows, least := Increment(q, f, amount), if q.tree == [] then T(q, f) else T(q, q.tree[0]);
      && g in flows
      && (g in q.tree ==> flows[g].time == T(q, g) - least)
      && (g == f ==> flows[g].time == T(q, f) + amount - least)
      && (g != f ==> flows[g].time == Max(0, T(q, g) - least))
      && (q.tree != [] ==> q.tree[0] in flows && flows[q.tree[0]].time == 0)
  {
    hide Increment;
    InvClosed(p, q);
    RenormalisationExact(p, q, f, amount);
  }
}
