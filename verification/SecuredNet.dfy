/**
 * The secured datagram path of client/DatagramPeerIO.c over a network that loses datagrams: a lost datagram takes its
 * password with it, the receiver keeps accepting the others, and the frames that get through are exactly those of which
 * no datagram was lost.
 */
module SecuredNet {
  import opened Common
  import opened FragmentModel
  import opened FragmentDisassembler
  import opened FragmentEndToEnd
  import opened FragmentSlots
  import opened FragmentNet
  import opened OtpObjects
  import opened SecuredLink
  import SPProto

  datatype NetState = NetState(x: Net, w: Passwords)

  const SECURED_INIT := NetState(NET_INIT, NO_PASSWORDS)

  /** A step of the ends, with an initialization vector for its packet; or a seed on its way. */
  datatype NetLinkEvent =
    | Moves(e: NetEvent, iv: seq<Byte>)
    | Seeds(otps: seq<nat>)
    | SeedsReady
    | SeedsTaken(order: seq<nat>)

  /** The password of a lost datagram is used up at the sender only. */
  function Waste(w: Passwords): Passwords
    requires w.left != []
  {
    w.(left := w.left[1..])
  }

  lemma WasteOk(w: Passwords)
    requires PasswordsOk(w) && w.left != []
    ensures PasswordsOk(Waste(w))
  {
    assert w.left == [w.left[0]] + w.left[1..];
    assert multiset(w.left) == multiset{w.left[0]} + multiset(w.left[1..]);
    assert forall i :: 0 <= i < |w.left[1..]| ==> w.left[1..][i] == w.left[i + 1];
  }

  /** With one-time passwords a packet is only encoded when a password is left. */
  ghost predicate SecuredEnabled(l: Link, s: NetState, e: NetLinkEvent) {
    match e
    case Moves(e, iv) =>
      && NetEnabled(l.cfg, s.x, e) && |iv| == l.params.block
      && (l.params.haveOtp && e.Give? && Given(l.cfg, s.x, e.e).1.Some? ==> s.w.left != [])
    case Seeds(otps) => s.w.pending.Nothing?
    case SeedsReady => s.w.pending.Generating?
    case SeedsTaken(order) => s.w.pending.Known? && multiset(order) == s.w.pending.seed.bag && OtpValues(order)
  }

  /** A datagram that is not lost is decoded, its password checked, and its chunks processed. */
  ghost function SecuredStep(l: Link, s: NetState, e: NetLinkEvent): NetState
    requires l.numSeeds >= 2 && SecuredEnabled(l, s, e) && PasswordsOk(s.w)
  {
    match e
    case Seeds(otps) => s.(w := SeedSent(s.w, l.numSeeds, otps))
    case SeedsReady => s.(w := SeedReady(s.w))
    case SeedsTaken(order) => s.(w := SeedTaken(s.w, order))
    case Moves(Abort, _) => s.(x := Aborted(s.x))
    case Moves(Give(e, lost), iv) =>
      var (x1, packet) := Given(l.cfg, s.x, e);
      if packet.None? then s.(x := x1)
      else if lost then
        NetState(Carried(l.acfg, x1, packet.value, true, e.purge), if l.params.haveOtp then Waste(s.w) else s.w)
      else
        OtpFits(l, s.w);
        var datagram := Datagram(l, PacketOtp(l, s.w), iv, packet.value);
        var (m1, fs) := Arrival(l, s.x.m, s.w.seeds, datagram, e.purge);
        NetState(x1.(open := [], wire := x1.wire + Post(x1.open, false), m := m1, got := x1.got + fs,
                     hist := x1.hist + Stamp(x1.m.now, x1.open)),
                 if l.params.haveOtp then Spend(s.w) else s.w)
  }

  lemma GivenFits(cfg: SendConfig, x: Net, e: Event)
    requires NetEnabled(cfg, x, Give(e, false))
    ensures var packet := Given(cfg, x, e).1; packet.Some? ==> |EncodeAll(packet.value)| <= cfg.outputMtu
    ensures Given(cfg, x, e).0.m == x.m
  {
    hide EncodeAll, SenderOk, WriteChunks, Write;
    PacketFits(cfg, x.s, e);
  }

  /** Securing, losing, decoding and checking is what the plain network does. */
  lemma SecuredStepSame(l: Link, s: NetState, e: NetEvent, iv: seq<Byte>)
    requires LinkOk(l) && PasswordsOk(s.w) && l.numSeeds >= 2 && SecuredEnabled(l, s, Moves(e, iv))
    ensures SecuredStep(l, s, Moves(e, iv)).x == NetStep(l.cfg, l.acfg, s.x, e)
  {
    hide LinkOk, Given, Arrival, Datagram, PasswordsOk, EncodeAll, Receive, SenderOk, CanGive, PacketOtp;
    if e.Give? {
      GivenFits(l.cfg, s.x, e.e);
      var packet := Given(l.cfg, s.x, e.e).1;
      if packet.Some? && !e.lost {
        ArrivalSame(l, s.x.m, s.w, iv, packet.value, e.e.purge);
      }
    }
  }

  lemma SecuredStepOk(l: Link, s: NetState, e: NetLinkEvent)
    requires l.numSeeds >= 2 && PasswordsOk(s.w) && SecuredEnabled(l, s, e)
    ensures PasswordsOk(SecuredStep(l, s, e).w)
  {
    hide Given, Arrival, Datagram, PasswordsOk, Spend, Waste, SenderOk, CanGive, Carried;
    match e {
      case Moves(e, iv) =>
        if e.Give? && l.params.haveOtp && Given(l.cfg, s.x, e.e).1.Some? {
          SpendOk(s.w);
          WasteOk(s.w);
        }
      case Seeds(otps) => SeedSentOk(s.w, l.numSeeds, otps);
      case SeedsReady => SeedReadyOk(s.w);
      case SeedsTaken(order) => SeedTakenOk(s.w, order);
    }
  }

  // ---- runs ----

  ghost predicate SecuredCanRun(l: Link, s: NetState, es: seq<NetLinkEvent>)
    requires l.numSeeds >= 2 && PasswordsOk(s.w)
    decreases |es|
  {
    es != [] ==>
      && SecuredEnabled(l, s, es[0])
      && (SecuredStepOk(l, s, es[0]); SecuredCanRun(l, SecuredStep(l, s, es[0]), es[1..]))
  }

  ghost function SecuredRun(l: Link, s: NetState, es: seq<NetLinkEvent>): NetState
    requires l.numSeeds >= 2 && PasswordsOk(s.w) && SecuredCanRun(l, s, es)
    decreases |es|
  {
    if es == [] then s
    else
      SecuredStepOk(l, s, es[0]);
      SecuredRun(l, SecuredStep(l, s, es[0]), es[1..])
  }

  /** What the run is to the fragmentation ends. */
  function PlainNet(es: seq<NetLinkEvent>): seq<NetEvent> {
    if es == [] then [] else (if es[0].Moves? then [es[0].e] else []) + PlainNet(es[1..])
  }

  lemma {:induction false} SecuredRunSame(l: Link, s: NetState, es: seq<NetLinkEvent>)
    requires LinkOk(l) && l.numSeeds >= 2 && PasswordsOk(s.w) && SecuredCanRun(l, s, es)
    ensures NetCanRun(l.cfg, l.acfg, s.x, PlainNet(es))
    ensures SecuredRun(l, s, es).x == NetRun(l.cfg, l.acfg, s.x, PlainNet(es))
    decreases |es|
  {
    hide LinkOk, NetEnabled, NetStep, PasswordsOk;
    if es != [] {
      SecuredStepOk(l, s, es[0]);
      SecuredRunSame(l, SecuredStep(l, s, es[0]), es[1..]);
      if es[0].Moves? {
        SecuredStepSame(l, s, es[0].e, es[0].iv);
        hide SecuredStep;
        assert PlainNet(es)[0] == es[0].e && PlainNet(es)[1..] == PlainNet(es[1..]);
      } else {
        assert [] + PlainNet(es[1..]) == PlainNet(es[1..]);
      }
    }
  }

  /**
   * The whole path with losses: over a link of any parameters that pass the checks at setup, with any cipher, hash,
   * seeds and timing, no datagram that arrives is refused for its password, however many others were lost; and the
   * frames delivered are exactly those of which no datagram was lost and that no frame cancelled before stands in the
   * way of.
   */
  lemma SecuredExact(l: Link, es: seq<NetLinkEvent>)
    requires LinkOk(l) && SecuredCanRun(l, SECURED_INIT, es)
    requires var x := SecuredRun(l, SECURED_INIT, es).x; Spaced(l.acfg, x.hist) && Separate(x)
    ensures var x := SecuredRun(l, SECURED_INIT, es).x;
      x.got == Through(l.acfg, x, x.slot + 1) && exists at :: Drawn(x.got, x.sent, at)
  {
    hide LinkOk, SecuredStep, NetStep, NetEnabled, Spaced, Separate, Through, Drawn;
    LinkSeeds(l);
    LinkIsEnough(l);
    SecuredRunSame(l, SECURED_INIT, es);
    hide SecuredRun, NetRun, SecuredCanRun, NetCanRun, Enough;
    NetExact(l.cfg, l.acfg, PlainNet(es));
    NetSubsequence(l.cfg, l.acfg, PlainNet(es));
  }

  /**
   * With nothing lost and no frame cancelled late, the frames delivered are a prefix of those sent, and in the end
   * all.
   */
  lemma SecuredSmooth(l: Link, es: seq<NetLinkEvent>)
    requires LinkOk(l) && SecuredCanRun(l, SECURED_INIT, es) && Smooth(SecuredRun(l, SECURED_INIT, es).x)
    ensures var x := SecuredRun(l, SECURED_INIT, es).x;
      x.got <= x.sent && (x.s.input.None? && x.open == [] ==> x.got == x.sent)
  {
    hide LinkOk, SecuredStep, NetStep, NetEnabled, Smooth;
    LinkSeeds(l);
    LinkIsEnough(l);
    SecuredRunSame(l, SECURED_INIT, es);
    hide SecuredRun, NetRun, SecuredCanRun, NetCanRun, Enough;
    NetSmooth(l.cfg, l.acfg, PlainNet(es));
  }
}
