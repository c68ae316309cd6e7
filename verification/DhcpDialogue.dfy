/**
 * What the DHCP client says and when: the message every event sends, the time every event sets, and over runs that a
 * client holds to the offer it took, asks for it at most MAX_REQUESTS times, and renews it halfway through its lease.
 */
module DhcpDialogue {
  import opened Common
  import opened Dhcp

  /** The event takes an offer. */
  predicate TakesOffer(c: Client, e: Event) {
    e.Arrives? && c.phase.SentDiscover? && Offers(c, e.reply)
  }

  /** The event brings the first acknowledgement of the address asked for. */
  predicate TakesLease(c: Client, e: Event) {
    e.Arrives? && c.phase.SentRequest? && Grants(c, e.reply)
  }

  predicate RenewsLease(c: Client, e: Event) {
    e.Arrives? && c.phase.Renewing? && Grants(c, e.reply)
  }

  predicate IsRefused(c: Client, e: Event) {
    e.Arrives? && (c.phase.SentRequest? || IsUp(c)) && Refuses(c, e.reply)
  }

  /**
   * The event starts the process again: nobody offered, nobody answered, the lease ran out, or it was refused before.
   */
  predicate StartsOver(c: Client, e: Event) {
    e.Due? && (e.timer.ResetTimer? || e.timer.LeaseTimer? || (e.timer.RequestTimer? && c.requestCount == MAX_REQUESTS))
  }

  predicate AsksAgain(c: Client, e: Event) {
    e.Due? && e.timer.RequestTimer? && c.requestCount != MAX_REQUESTS
  }

  predicate AsksToRenew(e: Event) {
    e.Due? && (e.timer.RenewTimer? || e.timer.RenewRequestTimer?)
  }

  /** A due timer belongs to the phase. */
  lemma DueInPhase(c: Client, e: Event)
    requires Inv(c) && Enabled(c, e) && e.Due?
    ensures e.timer in TimersOf(c.phase)
  {
  }

  /**
   * What goes out: a request for the address offered, by the server that offered it; the same again; a request for
   * the address the client has, to no server in particular, to renew; or a discovery. While a message is being sent,
   * nothing.
   */
  lemma SaysExactly(c: Client, e: Event)
    requires Inv(c) && Enabled(c, e)
    ensures Step(c, e).sent == c.sent +
      if c.sending then []
      else if TakesOffer(c, e) then [Request(c.xid, e.reply.yiaddr, Some(e.reply.server))]
      else if AsksAgain(c, e) then [Request(c.xid, c.addr, Some(c.server))]
      else if AsksToRenew(e) then [Request(c.xid, c.addr, None)]
      else if StartsOver(c, e) then [Discover(Step(c, e).xid)]
      else []
  {
    hide XidOk, ReportsOk, LeaseOk;
    assert c.sent + [] == c.sent;
    if e.Due? {
      DueInPhase(c, e);
    }
  }

  /** A message is being sent from when it goes out until the interface is done with it. */
  lemma SendingExactly(c: Client, e: Event)
    requires Inv(c) && Enabled(c, e)
    ensures Step(c, e).sending == (!e.SendDone? && (c.sending || Step(c, e).sent != c.sent))
  {
    hide Inv, TimersOf, Send, StartProcess;
    if e.Due? {
      var c1 := StopTimer(c, e.timer);
      SendMarks(c1, Request(c1.xid, c1.addr, Some(c1.server)));
      SendMarks(c1, Request(c1.xid, c1.addr, None));
      StartMarks(c1, c1.phase.Resetting?, e.random);
      StartMarks(c1, false, e.random);
      StartMarks(StopTimer(c1, RenewRequestTimer), true, e.random);
    } else if e.Arrives? {
      var c1 := c.(addr := e.reply.yiaddr, server := e.reply.server);
      SendMarks(c1, Request(c1.xid, c1.addr, Some(c1.server)));
    }
  }

  lemma SendMarks(c: Client, m: Message)
    ensures var t := Send(c, m); t.sending && (t.sent == c.sent <==> c.sending)
  {
    assert !c.sending ==> |Send(c, m).sent| == |c.sent| + 1;
  }

  lemma StartMarks(c: Client, force: bool, random: Option<nat>)
    ensures var t := StartProcess(c, force, random); t.sending && (t.sent == c.sent <==> c.sending)
  {
    hide Send;
    var c1 := if force || c.xidReuse == XID_REUSE_MAX then DrawXid(c, random) else c;
    var c2 := c1.(xidReuse := c1.xidReuse + 1, starts := c1.starts + [c1.draws]);
    SendMarks(c2, Discover(c2.xid));
  }

  /** The very first message is a discovery, with the first id drawn. */
  lemma FirstWords(now: nat, random: Option<nat>)
    ensures var c := Start(now, random);
      && c.sent == [Discover(if random.Some? then random.value else FALLBACK_XID)] && c.phase.SentDiscover?
      && c.timers == map[ResetTimer := now + RESET_TIMEOUT]
  {
  }

  /** The event needs a new id: it starts over after a refusal or a lost lease, or with an id used up. */
  ghost predicate DrawsXid(c: Client, e: Event) {
    StartsOver(c, e) && (c.phase.Resetting? || e.timer.LeaseTimer? || Uses(c.starts, c.draws) == XID_REUSE_MAX)
  }

  /** A new id is drawn exactly when it is needed, and every start uses the id drawn last. */
  lemma XidExactly(c: Client, e: Event)
    requires Inv(c) && Enabled(c, e)
    ensures var t := Step(c, e);
      if DrawsXid(c, e) then
        && t.xid == (if e.random.Some? then e.random.value else FALLBACK_XID)
        && t.draws == c.draws + 1 && t.starts == c.starts + [t.draws]
      else
        t.xid == c.xid && t.draws == c.draws && t.starts == if StartsOver(c, e) then c.starts + [c.draws] else c.starts
  {
    hide ReportsOk, LeaseOk, Uses, StartProcess, Receive;
    if e.Due? {
      DueInPhase(c, e);
      var c1 := StopTimer(c, e.timer);
      StartDraws(c1, c1.phase.Resetting?, e.random);
      StartDraws(c1, false, e.random);
      StartDraws(StopTimer(c1, RenewRequestTimer), true, e.random);
    } else if e.Arrives? {
      ReplyKeepsXid(c, e.reply);
    }
  }

  lemma ReplyKeepsXid(c: Client, r: Reply)
    ensures var t := Receive(c, r); t.xid == c.xid && t.draws == c.draws && t.starts == c.starts
  {
  }

  lemma StartDraws(c: Client, force: bool, random: Option<nat>)
    ensures var t := StartProcess(c, force, random);
      if force || c.xidReuse == XID_REUSE_MAX then
        && t.xid == (if random.Some? then random.value else FALLBACK_XID)
        && t.draws == c.draws + 1 && t.starts == c.starts + [t.draws]
      else t.xid == c.xid && t.draws == c.draws && t.starts == c.starts + [c.draws]
  {
  }

  /** Where an event leads. */
  lemma PhaseExactly(c: Client, e: Event)
    requires Inv(c) && Enabled(c, e)
    ensures Step(c, e).phase ==
      if TakesOffer(c, e) then SentRequest
      else if TakesLease(c, e) || RenewsLease(c, e) then Finished
      else if IsRefused(c, e) then Resetting
      else if StartsOver(c, e) then SentDiscover
      else if e.Due? && e.timer.RenewTimer? then Renewing
      else c.phase
  {
    hide XidOk, ReportsOk, LeaseOk;
    if e.Due? {
      DueInPhase(c, e);
    }
  }

  /** The timers that are to run after an event, and when each is due. */
  function TimersAfter(c: Client, e: Event): map<Timer, nat> {
    if TakesOffer(c, e) || AsksAgain(c, e) then map[RequestTimer := c.now + REQUEST_TIMEOUT]
    else if TakesLease(c, e) || RenewsLease(c, e) then map[RenewTimer := c.now + 500 * e.reply.lease.value]
    else if IsRefused(c, e) || StartsOver(c, e) then map[ResetTimer := c.now + RESET_TIMEOUT]
    else if e.Due? && e.timer.RenewTimer? then
      map[RenewRequestTimer := c.now + RENEW_REQUEST_TIMEOUT, LeaseTimer := c.now + 500 * c.acked.lease]
    else if e.Due? && e.timer.RenewRequestTimer? then c.timers[RenewRequestTimer := c.now + RENEW_REQUEST_TIMEOUT]
    else c.timers
  }

  /**
   * A renewal is due halfway through the lease, the end of the lease another half later, and every wait has its time.
   */
  lemma TimersExactly(c: Client, e: Event)
    requires Inv(c) && Enabled(c, e)
    ensures Step(c, e).timers == TimersAfter(c, e)
  {
    hide XidOk, ReportsOk, LeaseOk, Expire, Receive;
    match e {
      case Due(t, random) => DueTimers(c, t, random);
      case Arrives(r) => ReplyTimers(c, r);
      case _ =>
    }
  }

  lemma DueTimers(c: Client, t: Timer, random: Option<nat>)
    requires c.timers.Keys == TimersOf(c.phase) && t in c.timers
    ensures Expire(c, t, random).timers == TimersAfter(c, Due(t, random))
  {
    hide StartProcess, Offers, Grants, Refuses;
    var c1 := StopTimer(c, t);
    if t.LeaseTimer? {
      StartTimers(StopTimer(c1, RenewRequestTimer), true, random);
    } else if StartsOver(c, Due(t, random)) {
      StartTimers(c1, t.ResetTimer? && c1.phase.Resetting?, random);
    } else if !t.RenewRequestTimer? {
      assert c1.timers == map[];
    }
  }

  lemma StartTimers(c: Client, force: bool, random: Option<nat>)
    requires c.timers.Keys == {}
    ensures StartProcess(c, force, random).timers == map[ResetTimer := c.now + RESET_TIMEOUT]
  {
  }

  lemma ReplyTimers(c: Client, r: Reply)
    requires c.timers.Keys == TimersOf(c.phase) && (c.phase.SentRequest? || IsUp(c) ==> c.addr != 0)
    ensures Receive(c, r).timers == TimersAfter(c, Arrives(r))
  {
    hide ReceiveNak, ReceiveOffer, ReceiveFirstAck, ReceiveRenewalAck;
    OneTimer(c, r);
    if c.phase.Renewing? {
      TwoTimers(c, r);
    }
  }

  lemma OneTimer(c: Client, r: Reply)
    requires c.timers.Keys == TimersOf(c.phase)
    ensures c.phase.SentDiscover? ==> ReceiveOffer(c, r).timers == map[RequestTimer := c.now + REQUEST_TIMEOUT]
    ensures c.phase.SentRequest? && r.lease.Some? && r.mask.Some? ==>
      ReceiveFirstAck(c, r).timers == map[RenewTimer := c.now + 500 * r.lease.value]
    ensures (c.phase.SentRequest? || c.phase.Finished?) && r.server == c.server ==>
      ReceiveNak(c, r).timers == map[ResetTimer := c.now + RESET_TIMEOUT]
    ensures !(c.phase.SentRequest? || IsUp(c)) || r.server != c.server ==> ReceiveNak(c, r) == c
  {
  }

  lemma TwoTimers(c: Client, r: Reply)
    requires c.timers.Keys == TimersOf(c.phase) && c.phase.Renewing?
    ensures r.lease.Some? ==> ReceiveRenewalAck(c, r).timers == map[RenewTimer := c.now + 500 * r.lease.value]
    ensures r.server == c.server ==> ReceiveNak(c, r).timers == map[ResetTimer := c.now + RESET_TIMEOUT]
  {
  }

  /** The address, its server and what was acknowledged, as the replies taken say; nothing else changes them. */
  lemma TakenExactly(c: Client, e: Event)
    requires Inv(c) && Enabled(c, e)
    ensures var t := Step(c, e);
      && t.addr == (if TakesOffer(c, e) then e.reply.yiaddr else c.addr)
      && t.server == (if TakesOffer(c, e) then e.reply.server else c.server)
      && t.acked ==
           (if TakesLease(c, e) then Acked(e.reply.lease.value, e.reply.mask.value, e.reply.router, e.reply.dns)
            else if RenewsLease(c, e) then c.acked.(lease := e.reply.lease.value)
            else c.acked)
  {
    hide XidOk, ReportsOk, LeaseOk, StartProcess;
    if e.Due? {
      DueInPhase(c, e);
      var c1 := StopTimer(c, e.timer);
      StartTakes(c1, c1.phase.Resetting?, e.random);
      StartTakes(c1, false, e.random);
      StartTakes(StopTimer(c1, RenewRequestTimer), true, e.random);
    }
  }

  lemma StartTakes(c: Client, force: bool, random: Option<nat>)
    ensures var t := StartProcess(c, force, random); t.addr == c.addr && t.server == c.server && t.acked == c.acked
  {
  }

  // ---- an offer taken ----

  predicate HasOffer(c: Client) {
    c.phase.SentRequest? || IsUp(c)
  }

  /** The client has an offer in every state of the run. */
  ghost predicate KeepsOffer(c: Client, es: seq<Event>)
    decreases |es|
  {
    HasOffer(c) && (es == [] || KeepsOffer(Step(c, es[0]), es[1..]))
  }

  /** Of the messages sent, those from the `n`-th on ask for `addr` with id `xid`, naming `server` or none. */
  ghost predicate AsksOnlyFor(sent: seq<Message>, n: nat, xid: nat, addr: nat, server: nat) {
    forall k :: n <= k < |sent| ==> sent[k] == Request(xid, addr, Some(server)) || sent[k] == Request(xid, addr, None)
  }

  lemma KeepsOne(c: Client, e: Event, n: nat)
    requires Inv(c) && Enabled(c, e) && HasOffer(c) && HasOffer(Step(c, e)) && n <= |c.sent|
    requires AsksOnlyFor(c.sent, n, c.xid, c.addr, c.server)
    ensures var t := Step(c, e);
      && t.xid == c.xid && t.addr == c.addr && t.server == c.server && c.sent <= t.sent
      && AsksOnlyFor(t.sent, n, c.xid, c.addr, c.server)
  {
    hide Inv, Step, Uses;
    SaysExactly(c, e);
    XidExactly(c, e);
    PhaseExactly(c, e);
    TakenExactly(c, e);
  }

  /**
   * However long a client has its offer: it keeps the id, the address and the server of that offer, and asks for that
   * address only.
   */
  lemma {:induction false} HoldsToOffer(c: Client, es: seq<Event>, n: nat)
    requires Inv(c) && CanRun(c, es) && KeepsOffer(c, es) && n <= |c.sent|
    requires AsksOnlyFor(c.sent, n, c.xid, c.addr, c.server)
    ensures var t := Run(c, es);
      && t.xid == c.xid && t.addr == c.addr && t.server == c.server && c.sent <= t.sent
      && AsksOnlyFor(t.sent, n, c.xid, c.addr, c.server)
    decreases |es|
  {
    hide Inv, Step, Enabled, AsksOnlyFor, HasOffer;
    if es != [] {
      var t := Step(c, es[0]);
      assert KeepsOffer(t, es[1..]);
      StepKeeps(c, es[0]);
      KeepsOne(c, es[0], n);
      HoldsToOffer(t, es[1..], n);
    }
  }

  /** From the reply on that made the offer, until the offer is given up. */
  lemma HoldsFromOffer(c: Client, r: Reply, es: seq<Event>)
    requires Inv(c) && TakesOffer(c, Arrives(r))
    requires var c1 := Step(c, Arrives(r)); CanRun(c1, es) && KeepsOffer(c1, es)
    ensures var t := Run(Step(c, Arrives(r)), es);
      && t.xid == r.xid && t.addr == r.yiaddr && t.server == r.server && c.sent <= t.sent
      && AsksOnlyFor(t.sent, |c.sent|, r.xid, r.yiaddr, r.server)
  {
    hide Inv, Step, Run, KeepsOffer, CanRun;
    var c1 := Step(c, Arrives(r));
    StepKeeps(c, Arrives(r));
    SaysExactly(c, Arrives(r));
    XidExactly(c, Arrives(r));
    TakenExactly(c, Arrives(r));
    HoldsToOffer(c1, es, |c.sent|);
  }

  // ---- how often it asks ----

  /** The client waits for an answer to its request in every state of the run. */
  ghost predicate KeepsAsking(c: Client, es: seq<Event>)
    decreases |es|
  {
    c.phase.SentRequest? && (es == [] || KeepsAsking(Step(c, es[0]), es[1..]))
  }

  /** How often the request timer runs out. */
  function Expiries(es: seq<Event>): nat {
    if es == [] then 0
    else (if es[0].Due? && es[0].timer.RequestTimer? then 1 else 0) + Expiries(es[1..])
  }

  lemma CountOne(c: Client, e: Event)
    requires Inv(c) && Enabled(c, e) && c.phase.SentRequest? && Step(c, e).phase.SentRequest?
    ensures Step(c, e).requestCount == c.requestCount + if e.Due? && e.timer.RequestTimer? then 1 else 0
  {
    hide XidOk, ReportsOk, LeaseOk;
    if e.Due? {
      DueInPhase(c, e);
    }
  }

  lemma {:induction false} CountsExpiries(c: Client, es: seq<Event>)
    requires Inv(c) && CanRun(c, es) && KeepsAsking(c, es)
    ensures var t := Run(c, es); t.phase.SentRequest? && Inv(t) && t.requestCount == c.requestCount + Expiries(es)
    decreases |es|
  {
    hide Inv, Step, Enabled;
    if es != [] {
      assert KeepsAsking(Step(c, es[0]), es[1..]);
      StepKeeps(c, es[0]);
      CountOne(c, es[0]);
      CountsExpiries(Step(c, es[0]), es[1..]);
    }
  }

  /**
   * Nobody answers a request: it is sent MAX_REQUESTS times in all, REQUEST_TIMEOUT apart, and given up at exactly
   * the next expiry.
   */
  lemma GivesUpExactly(c: Client, r: Reply, es: seq<Event>, random: Option<nat>)
    requires Inv(c) && TakesOffer(c, Arrives(r))
    requires var c1 := Step(c, Arrives(r)); CanRun(c1, es) && KeepsAsking(c1, es)
    requires Enabled(Run(Step(c, Arrives(r)), es), Due(RequestTimer, random))
    ensures Expiries(es) < MAX_REQUESTS
    ensures var t := Step(Run(Step(c, Arrives(r)), es), Due(RequestTimer, random));
      if Expiries(es) == MAX_REQUESTS - 1 then t.phase.SentDiscover? else t.phase.SentRequest?
  {
    hide Run, KeepsAsking, CanRun, XidOk, ReportsOk, LeaseOk;
    var c1 := Step(c, Arrives(r));
    StepKeeps(c, Arrives(r));
    CountsExpiries(c1, es);
    PhaseExactly(Run(c1, es), Due(RequestTimer, random));
  }
}
