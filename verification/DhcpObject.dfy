/** The DHCP client core of dhcpclient/BDHCPClientCore.c as the object whose handlers the reactor calls. */
module DhcpObject {
  import opened Common
  import opened Dhcp
  import DhcpOptions

  class BDHCPClientCore {
    const clientMacAddr: seq<Byte>
    var state: Phase
    var xid: nat
    var xidReuseCounter: nat
    var requestCount: nat
    var offeredYiaddr: nat
    var offeredServer: nat
    var acked: Acked
    var sending: bool
    var timers: map<Timer, nat>
    var now: nat
    var sent: seq<Message>
    var reports: seq<Report>
    ghost var draws: nat
    ghost var starts: seq<nat>
    ghost var ackAt: nat

    ghost function View(): Client
      reads this
    {
      Client(state, xid, xidReuseCounter, requestCount, offeredYiaddr, offeredServer, acked, sending, timers, now,
             sent, reports, draws, starts, ackAt)
    }

    constructor (mac: seq<Byte>, now: nat, random: Option<nat>)
      ensures View() == Start(now, random) && Inv(View()) && clientMacAddr == mac
    {
      clientMacAddr := mac;
      state, xid, xidReuseCounter, requestCount, offeredYiaddr, offeredServer := Resetting, 0, 0, 0, 0, 0;
      acked, sending, timers, sent, reports := Acked(0, 0, None, []), false, map[], [], [];
      draws, starts, ackAt := 0, [], 0;
      this.now := now;
      new;
      StartOk(now, random);
      StartTheProcess(true, random);
    }

    method SetTheTimer(t: Timer, after: nat)
      modifies this`timers
      ensures View() == SetTimer(old(View()), t, after)
    {
      timers := timers[t := now + after];
    }

    method RemoveTimer(t: Timer)
      modifies this`timers
      ensures View() == StopTimer(old(View()), t)
    {
      timers := timers - {t};
    }

    method SendMessage(m: Message)
      modifies this`sent, this`sending
      ensures View() == Send(old(View()), m)
    {
      if sending {
        return;
      }
      sent := sent + [m];
      sending := true;
    }

    method SendHandlerDone()
      requires sending
      modifies this`sending
      ensures View() == Step(old(View()), SendDone)
    {
      sending := false;
    }

    method StartTheProcess(forceNewXid: bool, random: Option<nat>)
      modifies this
      ensures View() == StartProcess(old(View()), forceNewXid, random)
    {
      hide UseXid, DrawXid;
      if forceNewXid || xidReuseCounter == XID_REUSE_MAX {
        GenerateXid(random);
      }
      DiscoverWithXid();
    }

    method GenerateXid(random: Option<nat>)
      modifies this`xid, this`xidReuseCounter, this`draws
      ensures View() == DrawXid(old(View()), random)
    {
      if random.Some? {
        xid := random.value;
      } else {
        xid := FALLBACK_XID;
      }
      xidReuseCounter := 0;
      draws := draws + 1;
    }

    method DiscoverWithXid()
      modifies this
      ensures View() == UseXid(old(View()))
    {
      hide SetTimer, Send;
      xidReuseCounter := xidReuseCounter + 1;
      starts := starts + [draws];
      SendMessage(Discover(xid));
      SetTheTimer(ResetTimer, RESET_TIMEOUT);
      state := SentDiscover;
    }

    method RememberOffer(r: Reply)
      modifies this`offeredYiaddr, this`offeredServer
      ensures View() == old(View()).(addr := r.yiaddr, server := r.server)
    {
      offeredYiaddr := r.yiaddr;
      offeredServer := r.server;
    }

    method RememberAck(a: Acked)
      modifies this`acked, this`ackAt
      ensures View() == old(View()).(acked := a, ackAt := now)
    {
      acked := a;
      ackAt := now;
    }

    method HandleOffer(r: Reply)
      modifies this
      ensures View() == ReceiveOffer(old(View()), r)
    {
      hide SetTimer, StopTimer, Send;
      RememberOffer(r);
      SendMessage(Request(xid, offeredYiaddr, Some(offeredServer)));
      RemoveTimer(ResetTimer);
      SetTheTimer(RequestTimer, REQUEST_TIMEOUT);
      state := SentRequest;
      requestCount := 1;
    }

    method HandleFirstAck(r: Reply)
      requires r.lease.Some? && r.mask.Some?
      modifies this
      ensures View() == ReceiveFirstAck(old(View()), r)
    {
      hide SetTimer, StopTimer;
      RememberAck(Acked(r.lease.value, r.mask.value, r.router, r.dns));
      RemoveTimer(RequestTimer);
      SetTheTimer(RenewTimer, RenewTimeout(acked.lease));
      state := Finished;
      reports := reports + [Up(offeredYiaddr)];
    }

    method HandleRenewalAck(r: Reply)
      requires r.lease.Some?
      modifies this
      ensures View() == ReceiveRenewalAck(old(View()), r)
    {
      hide SetTimer, StopTimer;
      RememberAck(acked.(lease := r.lease.value));
      RemoveTimer(RenewRequestTimer);
      RemoveTimer(LeaseTimer);
      SetTheTimer(RenewTimer, RenewTimeout(acked.lease));
      state := Finished;
    }

    method RecvHandlerDone(r: Reply)
      requires Inv(View())
      modifies this
      ensures View() == Step(old(View()), Arrives(r)) && Inv(View())
    {
      hide Inv, ReceiveOffer, ReceiveFirstAck, ReceiveRenewalAck, ReceiveNak;
      StepKeeps(View(), Arrives(r));
      if state.Resetting? {
        return;
      }
      if r.xid != xid {
        return;
      }
      if r.kind.Nak? {
        HandleNak(r);
        return;
      }
      if r.yiaddr == 0 {
        return;
      }
      if r.lease.None? || r.mask.None? {
        return;
      }
      if state.SentDiscover? && r.kind.Offer? {
        HandleOffer(r);
      } else if state.SentRequest? && r.kind.Ack? {
        if r.yiaddr != offeredYiaddr {
          return;
        }
        if r.server != offeredServer {
          return;
        }
        HandleFirstAck(r);
      } else if state.Renewing? && r.kind.Ack? {
        if r.yiaddr != offeredYiaddr {
          return;
        }
        if r.server != offeredServer {
          return;
        }
        HandleRenewalAck(r);
      }
    }

    /** A packet arrives: the reply it carries, if it carries one, is acted on, and anything else is ignored. */
    method RecvPacket(data: seq<Byte>)
      requires Inv(View())
      modifies this
      ensures Inv(View())
      ensures forall r :: DhcpOptions.Carries(clientMacAddr, data, r) ==> View() == Step(old(View()), Arrives(r))
      ensures (!exists r :: DhcpOptions.Carries(clientMacAddr, data, r)) ==> View() == old(View())
    {
      hide Inv, Step, DhcpOptions.Carries;
      if state.Resetting? {
        ResettingDeaf(View());
        return;
      }
      var r := DhcpOptions.ParseReply(clientMacAddr, data);
      if r.Some? {
        RecvHandlerDone(r.value);
      }
    }

    method HandleNak(r: Reply)
      modifies this
      ensures View() == ReceiveNak(old(View()), r)
    {
      if !state.SentRequest? && !state.Finished? && !state.Renewing? {
        return;
      }
      if r.server != offeredServer {
        return;
      }
      if state.SentRequest? {
        RemoveTimer(RequestTimer);
        SetTheTimer(ResetTimer, RESET_TIMEOUT);
        state := Resetting;
      } else if state.Finished? {
        RemoveTimer(RenewTimer);
        SetTheTimer(ResetTimer, RESET_TIMEOUT);
        state := Resetting;
        reports := reports + [Down];
      } else {
        RemoveTimer(RenewRequestTimer);
        RemoveTimer(LeaseTimer);
        SetTheTimer(ResetTimer, RESET_TIMEOUT);
        state := Resetting;
        reports := reports + [Down];
      }
    }

    /** The reactor takes a due timer off its list and calls its handler; the assertions of the handlers hold. */
    method TimerHandler(t: Timer, random: Option<nat>)
      requires Inv(View()) && t in timers && timers[t] <= now
      modifies this
      ensures View() == Step(old(View()), Due(t, random)) && Inv(View())
    {
      hide StartProcess, RepeatRequest, RequestRenewal, StopTimer, SetTimer, XidOk, ReportsOk, LeaseOk;
      StepKeeps(View(), Due(t, random));
      assert t in TimersOf(state);
      ghost var s0 := state;
      hide Inv;
      RemoveTimer(t);
      match t {
        case ResetTimer =>
          assert s0.Resetting? || s0.SentDiscover?;
          StartTheProcess(state.Resetting?, random);
        case RequestTimer =>
          assert s0.SentRequest?;
          if requestCount == MAX_REQUESTS {
            StartTheProcess(false, random);
          } else {
            SendRequestAgain();
          }
        case RenewTimer =>
          assert s0.Finished?;
          SendRenewal();
          SetTheTimer(LeaseTimer, LeaseTimeout(acked.lease));
          state := Renewing;
        case RenewRequestTimer =>
          assert s0.Renewing?;
          SendRenewal();
        case LeaseTimer =>
          assert s0.Renewing?;
          RemoveTimer(RenewRequestTimer);
          StartTheProcess(true, random);
          reports := reports + [Down];
      }
    }

    method SendRequestAgain()
      modifies this
      ensures View() == RepeatRequest(old(View()))
    {
      hide SetTimer, Send;
      SendMessage(Request(xid, offeredYiaddr, Some(offeredServer)));
      SetTheTimer(RequestTimer, REQUEST_TIMEOUT);
      requestCount := requestCount + 1;
    }

    method SendRenewal()
      modifies this
      ensures View() == RequestRenewal(old(View()))
    {
      hide SetTimer, Send;
      SendMessage(Request(xid, offeredYiaddr, None));
      SetTheTimer(RenewRequestTimer, RENEW_REQUEST_TIMEOUT);
    }

    /** The address the user was told about. */
    method GetClientIP() returns (ip: nat)
      requires Inv(View()) && (state.Finished? || state.Renewing?)
      ensures ip != 0 && reports != [] && reports[|reports| - 1] == Up(ip)
    {
      ip := offeredYiaddr;
    }
  }

  lemma ResettingDeaf(c: Client)
    requires c.phase.Resetting?
    ensures forall r :: Step(c, Arrives(r)) == c
  {
  }
}
