/**
 * The DHCP client core of dhcpclient/BDHCPClientCore.c as a state machine over received messages, timers and the clock.
 * A message here is one that passed the checks of its header and options, which DhcpOptions describes.
 */
module Dhcp {
  import opened Common

  const RESET_TIMEOUT: nat := 4000
  const REQUEST_TIMEOUT: nat := 3000
  const RENEW_REQUEST_TIMEOUT: nat := 20000
  const MAX_REQUESTS: nat := 4
  const XID_REUSE_MAX: nat := 8
  const FALLBACK_XID: nat := 3416960072

  function RenewTimeout(lease: nat): nat { 500 * lease }
  function LeaseTimeout(lease: nat): nat { 1000 * lease - RenewTimeout(lease) }

  datatype Phase = Resetting | SentDiscover | SentRequest | Finished | Renewing
  datatype Kind = Offer | Ack | Nak
  datatype Reply = Reply(xid: nat, kind: Kind, server: nat, yiaddr: nat,
                         lease: Option<nat>, mask: Option<nat>, router: Option<nat>, dns: seq<nat>)
  datatype Message = Discover(xid: nat) | Request(xid: nat, addr: nat, server: Option<nat>)
  datatype Report = Up(addr: nat) | Down
  datatype Timer = ResetTimer | RequestTimer | RenewTimer | RenewRequestTimer | LeaseTimer

  /** What the last acknowledgement gave. */
  datatype Acked = Acked(lease: nat, mask: nat, router: Option<nat>, dns: seq<nat>)

  /**
   * The client, with a running timer represented by the time it expires. `sent` and `reports` are what went out to
   * the network and to the user. `draws` counts the transaction ids drawn, `starts` lists for every start of the
   * process which of them it used, and `ackAt` is the time of the last accepted acknowledgement.
   */
  datatype Client = Client(phase: Phase, xid: nat, xidReuse: nat, requestCount: nat, addr: nat, server: nat,
                           acked: Acked, sending: bool, timers: map<Timer, nat>, now: nat,
                           sent: seq<Message>, reports: seq<Report>,
                           draws: nat, starts: seq<nat>, ackAt: nat)

  // ---- handlers ----

  function SetTimer(c: Client, t: Timer, after: nat): Client { c.(timers := c.timers[t := c.now + after]) }
  function StopTimer(c: Client, t: Timer): Client { c.(timers := c.timers - {t}) }
  function Tell(c: Client, r: Report): Client { c.(reports := c.reports + [r]) }

  /** A message is dropped while the previous one is still being sent. */
  function Send(c: Client, m: Message): Client {
    if c.sending then c else c.(sent := c.sent + [m], sending := true)
  }

  function DrawXid(c: Client, random: Option<nat>): Client {
    c.(xid := if random.Some? then random.value else FALLBACK_XID, xidReuse := 0, draws := c.draws + 1)
  }

  function StartProcess(c: Client, forceNewXid: bool, random: Option<nat>): Client {
    UseXid(if forceNewXid || c.xidReuse == XID_REUSE_MAX then DrawXid(c, random) else c)
  }

  function UseXid(c: Client): Client {
    var c1 := c.(xidReuse := c.xidReuse + 1, starts := c.starts + [c.draws]);
    SetTimer(Send(c1, Discover(c1.xid)), ResetTimer, RESET_TIMEOUT).(phase := SentDiscover)
  }

  function ReceiveNak(c: Client, r: Reply): Client {
    if !(c.phase.SentRequest? || c.phase.Finished? || c.phase.Renewing?) || r.server != c.server then c
    else
      match c.phase
      case SentRequest => SetTimer(StopTimer(c, RequestTimer), ResetTimer, RESET_TIMEOUT).(phase := Resetting)
      case Finished => Tell(SetTimer(StopTimer(c, RenewTimer), ResetTimer, RESET_TIMEOUT).(phase := Resetting), Down)
      case _ =>
        Tell(SetTimer(StopTimer(StopTimer(c, RenewRequestTimer), LeaseTimer), ResetTimer, RESET_TIMEOUT)
               .(phase := Resetting),
             Down)
  }

  function ReceiveOffer(c: Client, r: Reply): Client {
    var c1 := c.(addr := r.yiaddr, server := r.server);
    var c2 := Send(c1, Request(c1.xid, c1.addr, Some(c1.server)));
    SetTimer(StopTimer(c2, ResetTimer), RequestTimer, REQUEST_TIMEOUT).(phase := SentRequest, requestCount := 1)
  }

  function ReceiveFirstAck(c: Client, r: Reply): Client
    requires r.lease.Some? && r.mask.Some?
  {
    var c1 := c.(acked := Acked(r.lease.value, r.mask.value, r.router, r.dns), ackAt := c.now);
    var c2 := SetTimer(StopTimer(c1, RequestTimer), RenewTimer, RenewTimeout(r.lease.value));
    Tell(c2.(phase := Finished), Up(c2.addr))
  }

  function ReceiveRenewalAck(c: Client, r: Reply): Client
    requires r.lease.Some?
  {
    var c1 := c.(acked := c.acked.(lease := r.lease.value), ackAt := c.now);
    SetTimer(StopTimer(StopTimer(c1, RenewRequestTimer), LeaseTimer), RenewTimer, RenewTimeout(r.lease.value))
      .(phase := Finished)
  }

  function Receive(c: Client, r: Reply): Client {
    if c.phase.Resetting? || r.xid != c.xid then c
    else if r.kind.Nak? then ReceiveNak(c, r)
    else if r.yiaddr == 0 || r.lease.None? || r.mask.None? then c
    else if c.phase.SentDiscover? && r.kind.Offer? then ReceiveOffer(c, r)
    else if !r.kind.Ack? || r.yiaddr != c.addr || r.server != c.server then c
    else if c.phase.SentRequest? then ReceiveFirstAck(c, r)
    else if c.phase.Renewing? then ReceiveRenewalAck(c, r)
    else c
  }

  function RepeatRequest(c: Client): Client {
    SetTimer(Send(c, Request(c.xid, c.addr, Some(c.server))), RequestTimer, REQUEST_TIMEOUT)
      .(requestCount := c.requestCount + 1)
  }

  function RequestRenewal(c: Client): Client {
    SetTimer(Send(c, Request(c.xid, c.addr, None)), RenewRequestTimer, RENEW_REQUEST_TIMEOUT)
  }

  function Expire(c0: Client, t: Timer, random: Option<nat>): Client {
    var c := StopTimer(c0, t);
    match t
    case ResetTimer => StartProcess(c, c.phase.Resetting?, random)
    case RequestTimer => if c.requestCount == MAX_REQUESTS then StartProcess(c, false, random) else RepeatRequest(c)
    case RenewTimer =>
      (var c1 := RequestRenewal(c);
       SetTimer(c1, LeaseTimer, LeaseTimeout(c1.acked.lease)).(phase := Renewing))
    case RenewRequestTimer => RequestRenewal(c)
    case LeaseTimer => Tell(StartProcess(StopTimer(c, RenewRequestTimer), true, random), Down)
  }

  /** Time passes, a timer that is due runs, a message arrives, or the message being sent is out. */
  datatype Event = Wait(until: nat) | Due(timer: Timer, random: Option<nat>) | Arrives(reply: Reply) | SendDone

  predicate Enabled(c: Client, e: Event) {
    match e
    case Wait(t) => t >= c.now
    case Due(t, _) => t in c.timers && c.timers[t] <= c.now
    case Arrives(_) => true
    case SendDone => c.sending
  }

  function Step(c: Client, e: Event): Client {
    match e
    case Wait(t) => c.(now := t)
    case Due(t, random) => Expire(c, t, random)
    case Arrives(r) => Receive(c, r)
    case SendDone => c.(sending := false)
  }

  /** A new client at some time; it starts the process at once. */
  function Start(now: nat, random: Option<nat>): Client {
    StartProcess(Client(Resetting, 0, 0, 0, 0, 0, Acked(0, 0, None, []), false, map[], now, [], [], 0, [], 0), true,
                 random)
  }

  // ---- invariant ----

  /** Exactly the timers that belong to the phase are running. */
  function TimersOf(p: Phase): set<Timer> {
    match p
    case Resetting => {ResetTimer}
    case SentDiscover => {ResetTimer}
    case SentRequest => {RequestTimer}
    case Finished => {RenewTimer}
    case Renewing => {RenewRequestTimer, LeaseTimer}
  }

  predicate IsUp(c: Client) {
    c.phase.Finished? || c.phase.Renewing?
  }

  /** UP and DOWN take turns, starting with UP, and UP is always about a real address. */
  ghost predicate Alternating(rs: seq<Report>) {
    forall i :: 0 <= i < |rs| ==> (rs[i].Up? <==> i % 2 == 0) && (rs[i].Up? ==> rs[i].addr != 0)
  }

  /** The user was last told UP exactly while there is a lease, and about the address the client has now. */
  ghost predicate ReportsOk(c: Client) {
    && Alternating(c.reports)
    && (IsUp(c) <==> |c.reports| % 2 == 1)
    && (IsUp(c) ==> c.reports[|c.reports| - 1] == Up(c.addr))
  }

  ghost function Uses(starts: seq<nat>, draw: nat): nat {
    multiset(starts)[draw]
  }

  /** No transaction id drawn is used for more than XID_REUSE_MAX starts. */
  ghost predicate XidOk(c: Client) {
    && 1 <= c.xidReuse <= XID_REUSE_MAX && Uses(c.starts, c.draws) == c.xidReuse
    && (forall d: nat :: Uses(c.starts, d) <= XID_REUSE_MAX)
    && (forall d: nat :: d > c.draws ==> Uses(c.starts, d) == 0)
  }

  /** While up, the timers are those of the lease last acknowledged; a lease is not given up before it is over. */
  ghost predicate LeaseOk(c: Client) {
    && c.ackAt <= c.now
    && (c.phase.Finished? ==> RenewTimer in c.timers && c.timers[RenewTimer] == c.ackAt + RenewTimeout(c.acked.lease))
    && (c.phase.Renewing? ==> LeaseTimer in c.timers && c.timers[LeaseTimer] >= c.ackAt + 1000 * c.acked.lease)
  }

  ghost predicate Inv(c: Client) {
    && c.timers.Keys == TimersOf(c.phase)
    && (c.phase.SentRequest? ==> 1 <= c.requestCount <= MAX_REQUESTS)
    && (c.phase.SentRequest? || IsUp(c) ==> c.addr != 0)
    && ReportsOk(c) && XidOk(c) && LeaseOk(c)
  }

  lemma TellDown(c: Client)
    requires Alternating(c.reports) && |c.reports| % 2 == 1
    ensures Alternating(c.reports + [Down])
  {
  }

  lemma TellUp(c: Client)
    requires Alternating(c.reports) && |c.reports| % 2 == 0 && c.addr != 0
    ensures Alternating(c.reports + [Up(c.addr)])
  {
  }

  /** A start draws a new id when forced or when the present one is used up. */
  lemma StartXid(c: Client, force: bool, random: Option<nat>)
    requires XidOk(c)
    ensures XidOk(StartProcess(c, force, random))
  {
    var c1 := if force || c.xidReuse == XID_REUSE_MAX then DrawXid(c, random) else c;
    var t := StartProcess(c, force, random);
    assert t.starts == c.starts + [c1.draws];
    assert multiset(t.starts) == multiset(c.starts) + multiset{c1.draws};
    forall d: nat
      ensures Uses(t.starts, d) == Uses(c.starts, d) + if d == c1.draws then 1 else 0
    {
    }
  }

  lemma FirstXid(now: nat, random: Option<nat>)
    ensures XidOk(Start(now, random))
  {
    var t := Start(now, random);
    assert t.starts == [1];
    assert multiset(t.starts) == multiset{1};
  }

  lemma StartFacts(c: Client, force: bool, random: Option<nat>)
    requires c.timers == map[] && XidOk(c)
    ensures var t := StartProcess(c, force, random);
            && XidOk(t) && t.timers.Keys == {ResetTimer} && t.phase.SentDiscover?
            && t.reports == c.reports && t.now == c.now && t.ackAt == c.ackAt
  {
    StartXid(c, force, random);
  }

  lemma ExpireReset(c: Client, t: Timer, random: Option<nat>)
    requires Inv(c) && t in c.timers && (t.ResetTimer? || (t.RequestTimer? && c.requestCount == MAX_REQUESTS))
    ensures Inv(Expire(c, t, random))
  {
    hide XidOk, Alternating, StartProcess;
    assert t in TimersOf(c.phase);
    var c1 := StopTimer(c, t);
    XidUnchanged(c, c1);
    StartFacts(c1, t.ResetTimer? && c1.phase.Resetting?, random);
  }

  lemma ExpireLease(c: Client, random: Option<nat>)
    requires Inv(c) && LeaseTimer in c.timers
    ensures Inv(Expire(c, LeaseTimer, random))
  {
    hide XidOk, Alternating, StartProcess;
    assert LeaseTimer in TimersOf(c.phase);
    var c2 := StopTimer(StopTimer(c, LeaseTimer), RenewRequestTimer);
    XidUnchanged(c, c2);
    assert c2.timers == map[];
    StartFacts(c2, true, random);
    TellDown(c);
    XidUnchanged(StartProcess(c2, true, random), Expire(c, LeaseTimer, random));
  }

  lemma ExpireKeeps(c: Client, t: Timer, random: Option<nat>)
    requires Inv(c) && t in c.timers && c.timers[t] <= c.now
    ensures Inv(Expire(c, t, random))
  {
    hide XidOk, Alternating, StartProcess;
    assert t in TimersOf(c.phase);
    if t.ResetTimer? || (t.RequestTimer? && c.requestCount == MAX_REQUESTS) {
      ExpireReset(c, t, random);
    } else if t.LeaseTimer? {
      ExpireLease(c, random);
    } else {
      XidUnchanged(c, Expire(c, t, random));
    }
  }

  lemma XidUnchanged(c: Client, t: Client)
    requires XidOk(c) && t.xidReuse == c.xidReuse && t.starts == c.starts && t.draws == c.draws
    ensures XidOk(t)
  {
  }

  lemma NakKeeps(c: Client, r: Reply)
    requires Inv(c)
    ensures Inv(ReceiveNak(c, r))
  {
    hide XidOk, Alternating;
    XidUnchanged(c, ReceiveNak(c, r));
    if IsUp(c) {
      TellDown(c);
    }
  }

  lemma FirstAckKeeps(c: Client, r: Reply)
    requires Inv(c) && c.phase.SentRequest? && r.lease.Some? && r.mask.Some?
    ensures Inv(ReceiveFirstAck(c, r))
  {
    hide XidOk, Alternating;
    XidUnchanged(c, ReceiveFirstAck(c, r));
    TellUp(c);
  }

  lemma ReceiveKeeps(c: Client, r: Reply)
    requires Inv(c)
    ensures Inv(Receive(c, r))
  {
    hide XidOk, Alternating, ReceiveNak, ReceiveFirstAck;
    if r.kind.Nak? {
      NakKeeps(c, r);
    } else if c.phase.SentRequest? {
      if r.lease.Some? && r.mask.Some? {
        FirstAckKeeps(c, r);
      }
    } else {
      XidUnchanged(c, Receive(c, r));
    }
  }

  /** Every event keeps the invariant; in particular a handler finds the phase its assertion expects. */
  lemma StepKeeps(c: Client, e: Event)
    requires Inv(c) && Enabled(c, e)
    ensures Inv(Step(c, e))
  {
    hide XidOk, Alternating;
    match e {
      case Wait(_) => XidUnchanged(c, Step(c, e));
      case Due(t, random) => ExpireKeeps(c, t, random);
      case Arrives(r) => ReceiveKeeps(c, r);
      case SendDone => XidUnchanged(c, Step(c, e));
    }
  }

  lemma StartOk(now: nat, random: Option<nat>)
    ensures Inv(Start(now, random)) && Settling(Start(now, random), 0)
  {
    FirstXid(now, random);
  }

  // ---- runs ----

  predicate CanRun(c: Client, es: seq<Event>)
    decreases |es|
  {
    es == [] || (Enabled(c, es[0]) && CanRun(Step(c, es[0]), es[1..]))
  }

  function Run(c: Client, es: seq<Event>): Client
    decreases |es|
  {
    if es == [] then c else Run(Step(c, es[0]), es[1..])
  }

  /**
   * In every run: the user is told UP and DOWN in turn, is last told UP exactly while there is a lease and about the
   * very address the client then has, which is not zero; no transaction id drawn serves more than XID_REUSE_MAX
   * starts.
   */
  lemma {:induction false} RunKeeps(c: Client, es: seq<Event>)
    requires Inv(c) && CanRun(c, es)
    ensures Inv(Run(c, es))
    decreases |es|
  {
    hide Inv, Step, Enabled;
    if es != [] {
      StepKeeps(c, es[0]);
      RunKeeps(Step(c, es[0]), es[1..]);
    }
  }

  /** No timer is overdue by more than `late`. */
  ghost predicate Punctual(c: Client, late: nat) {
    forall t :: t in c.timers ==> c.now <= c.timers[t] + late
  }

  ghost predicate PunctualRun(c: Client, es: seq<Event>, late: nat)
    decreases |es|
  {
    Punctual(c, late) && (es == [] || PunctualRun(Step(c, es[0]), es[1..], late))
  }

  /** The lease timer runs out at most `late` after the lease. */
  ghost predicate Settling(c: Client, late: nat) {
    c.phase.Renewing? ==> LeaseTimer in c.timers && c.timers[LeaseTimer] <= c.ackAt + 1000 * c.acked.lease + late
  }

  lemma StepSettling(c: Client, e: Event, late: nat)
    requires Inv(c) && Enabled(c, e) && Settling(c, late) && Punctual(c, late)
    ensures Settling(Step(c, e), late)
  {
  }

  /**
   * The client never acts on a lease that is over: if in a run no timer is served more than `late` milliseconds late,
   * then at any moment the client is up, the lease last acknowledged ended at most twice `late` ago. With timers
   * served on time this is what section 4.4.5 of RFC 2131 demands.
   */
  lemma {:induction false} LeaseRespected(c: Client, es: seq<Event>, late: nat)
    requires Inv(c) && Settling(c, late) && CanRun(c, es) && PunctualRun(c, es, late)
    ensures var t := Run(c, es); IsUp(t) ==> t.now <= t.ackAt + 1000 * t.acked.lease + 2 * late
    decreases |es|
  {
    hide Step, Enabled, XidOk, ReportsOk;
    if es == [] {
      assert c.phase.Finished? ==> RenewTimer in c.timers;
      assert c.phase.Renewing? ==> LeaseTimer in c.timers;
    } else {
      StepKeeps(c, es[0]);
      StepSettling(c, es[0], late);
      LeaseRespected(Step(c, es[0]), es[1..], late);
    }
  }

  /** The reply grants what the client asked its server for. */
  predicate Grants(c: Client, r: Reply) {
    r.xid == c.xid && r.kind.Ack? && r.yiaddr == c.addr && r.server == c.server && r.lease.Some? && r.mask.Some?
  }

  predicate Refuses(c: Client, r: Reply) {
    r.xid == c.xid && r.kind.Nak? && r.server == c.server
  }

  predicate Offers(c: Client, r: Reply) {
    r.xid == c.xid && r.kind.Offer? && r.yiaddr != 0 && r.lease.Some? && r.mask.Some?
  }

  /**
   * A client that is not up comes up exactly when its server grants the address it asked for, with the lease, mask,
   * router and servers of that reply, and tells the user once.
   */
  lemma UpExactly(c: Client, e: Event)
    requires Inv(c) && Enabled(c, e) && !IsUp(c)
    ensures IsUp(Step(c, e)) <==> e.Arrives? && c.phase.SentRequest? && Grants(c, e.reply)
    ensures IsUp(Step(c, e)) ==>
      var r := e.reply; Step(c, e).acked == Acked(r.lease.value, r.mask.value, r.router, r.dns)
    ensures Step(c, e).reports == c.reports + if IsUp(Step(c, e)) then [Up(c.addr)] else []
  {
    hide XidOk, Alternating, LeaseOk;
    assert e.Due? ==> e.timer in TimersOf(c.phase);
    if e.Due? {
      ExpireKeeps(c, e.timer, e.random);
      assert c.reports + [] == c.reports;
    }
  }

  /**
   * A client that is up goes down exactly when its server refuses or the lease timer runs out, which is not before the
   * lease is over, and tells the user once.
   */
  lemma DownExactly(c: Client, e: Event)
    requires Inv(c) && Enabled(c, e) && IsUp(c)
    ensures !IsUp(Step(c, e)) <==> (e.Arrives? && Refuses(c, e.reply)) || (e.Due? && e.timer.LeaseTimer?)
    ensures e.Due? && e.timer.LeaseTimer? ==> c.now >= c.ackAt + 1000 * c.acked.lease
    ensures Step(c, e).reports == c.reports + if IsUp(Step(c, e)) then [] else [Down]
  {
    hide XidOk, Alternating;
    assert e.Due? ==> e.timer in TimersOf(c.phase);
    assert c.reports + [] == c.reports;
  }

  /**
   * A lease is renewed exactly when the server grants the address again after a request for renewal, and then runs
   * from that time.
   */
  lemma RenewedExactly(c: Client, e: Event)
    requires Inv(c) && Enabled(c, e) && c.phase.Renewing?
    ensures Step(c, e).phase.Finished? <==> e.Arrives? && Grants(c, e.reply)
    ensures var t := Step(c, e);
      if t.phase.Finished? then t.ackAt == c.now && Some(t.acked.lease) == e.reply.lease
      else t.ackAt == c.ackAt && t.acked == c.acked
  {
    hide XidOk, Alternating;
    assert e.Due? ==> e.timer in TimersOf(c.phase);
  }

  /** A searching client asks for an address exactly when one is offered, and asks for that one. */
  lemma RequestsExactly(c: Client, e: Event)
    requires Inv(c) && Enabled(c, e) && c.phase.SentDiscover?
    ensures Step(c, e).phase.SentRequest? <==> e.Arrives? && Offers(c, e.reply)
    ensures var t := Step(c, e);
      t.phase.SentRequest? ==>
        && t.addr == e.reply.yiaddr && t.server == e.reply.server
        && (!c.sending ==> t.sent == c.sent + [Request(c.xid, t.addr, Some(t.server))])
  {
    hide XidOk, Alternating;
    assert e.Due? ==> e.timer in TimersOf(c.phase);
  }

  /** While the client is up, its address and server stay as they are. */
  lemma AddressStays(c: Client, e: Event)
    requires Inv(c) && Enabled(c, e) && IsUp(c) && IsUp(Step(c, e))
    ensures var t := Step(c, e); t.addr == c.addr && t.server == c.server && t.reports == c.reports
  {
    assert e.Due? ==> e.timer in TimersOf(c.phase);
  }
}
