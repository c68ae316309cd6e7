/**
 * The datagram path between two peers as client/DatagramPeerIO.c puts it together: frames are cut into chunk packets,
 * each packet is secured and sent as one datagram, and the other side undoes both and checks the one-time password.
 * The sizes are those computed there.
 */
module SecuredLink {
  import opened Common
  import opened FragmentModel
  import opened FragmentDisassembler
  import opened FragmentEndToEnd
  import opened OtpObjects
  import SPProto

  /** Both sides share the security parameters and the key; the receiver keeps the last `numSeeds` seeds. */
  datatype Link = Link(cfg: SendConfig, acfg: Config, params: SPProto.Params, suite: SPProto.Suite, socketMtu: nat,
                       numSeeds: nat)

  /** effective_socket_mtu: the size of the datagram buffers. */
  function EffectiveMtu(l: Link): int
    requires l.cfg.outputMtu >= 0
  {
    SPProto.CarrierMtu(l.params, l.cfg.outputMtu)
  }

  /** A link that passed the checks made when it is set up. */
  ghost predicate LinkOk(l: Link) {
    && l.cfg.inputMtu < TWO_16 && HEADER_LEN < l.cfg.outputMtu &&
        l.cfg.outputMtu == SPProto.PayloadMtu(l.params, l.socketMtu)
    && EffectiveMtu(l) >= 0 && SPProto.HeaderLen(l.params) <= SPProto.INT_MAX
    && l.cfg.chunkMtu == -1
    && ConfigOk(l.acfg) && l.acfg.outputMtu >= l.cfg.inputMtu
    && l.acfg.numChunks == MaxChunksForFrame(l.cfg.outputMtu, l.cfg.inputMtu)
    && SPProto.SuiteOk(l.params, l.suite) && l.numSeeds >= 2
  }

  lemma LinkIsEnough(l: Link)
    requires LinkOk(l)
    ensures Enough(l.cfg, l.acfg) && SendConfigOk(l.cfg)
  {
  }

  // ---- one-time passwords ----

  /** A new seed on its way: its passwords are being generated at the receiver, or the receiver knows them. */
  datatype NewSeed = Nothing | Generating(seed: Seed) | Known(seed: Seed)

  /**
   * The number of the next seed, the seed the sender uses with the passwords it has left, the seeds the receiver knows,
   * newest first, and the new seed the sender does not use yet.
   */
  datatype Passwords = Passwords(nextId: nat, seedId: nat, left: seq<nat>, seeds: seq<Seed>, pending: NewSeed)

  const NO_PASSWORDS := Passwords(0, 0, [], [], Nothing)

  /** sendseed_nextid is a 16-bit number. */
  function NextId(id: nat): nat { (id + 1) % TWO_16 }

  ghost predicate OtpValues(vs: seq<nat>) {
    forall i :: 0 <= i < |vs| ==> vs[i] < TWO_32
  }

  /** Whatever the sender has left the receiver will accept: its seed is the newest, but for one it has yet to use. */
  ghost predicate PasswordsOk(w: Passwords) {
    && w.nextId < TWO_16 && w.seedId < TWO_16 && OtpValues(w.left)
    && (w.pending.Known? ==> w.seeds != [] && w.seeds[0] == w.pending.seed)
    && (!w.pending.Nothing? ==> w.pending.seed.id < TWO_16 && w.nextId == NextId(w.pending.seed.id))
    && (w.left != [] ==>
          var at := if w.pending.Known? then 1 else 0;
          && at < |w.seeds| && w.seeds[at].id == w.seedId && multiset(w.left) <= w.seeds[at].bag
          && (if w.pending.Nothing? then w.nextId else w.pending.seed.id) == NextId(w.seedId))
  }

  /** The receiver is given a new seed; the oldest seed it knows makes room. */
  function SeedSent(w: Passwords, numSeeds: nat, otps: seq<nat>): Passwords
    requires numSeeds > 0
  {
    w.(nextId := NextId(w.nextId), pending := Generating(Seed(w.nextId, multiset(otps))),
       seeds := if |w.seeds| < numSeeds then w.seeds else w.seeds[..numSeeds - 1])
  }

  function SeedReady(w: Passwords): Passwords
    requires w.pending.Generating?
  {
    w.(seeds := [w.pending.seed] + w.seeds, pending := Known(w.pending.seed))
  }

  /** The sender goes over to the new seed, using its passwords in the order it drew. */
  function SeedTaken(w: Passwords, order: seq<nat>): Passwords
    requires w.pending.Known?
  {
    w.(seedId := w.pending.seed.id, left := order, pending := Nothing)
  }

  /** A password is used at both ends. */
  function Spend(w: Passwords): Passwords
    requires w.left != []
  {
    w.(left := w.left[1..], seeds := UseOtp(w.seeds, w.seedId, w.left[0]))
  }

  lemma SeedSentOk(w: Passwords, numSeeds: nat, otps: seq<nat>)
    requires PasswordsOk(w) && numSeeds >= 2 && w.pending.Nothing?
    ensures PasswordsOk(SeedSent(w, numSeeds, otps))
  {
  }

  lemma SeedReadyOk(w: Passwords)
    requires PasswordsOk(w) && w.pending.Generating?
    ensures PasswordsOk(SeedReady(w))
  {
  }

  lemma SeedTakenOk(w: Passwords, order: seq<nat>)
    requires PasswordsOk(w) && w.pending.Known? && multiset(order) == w.pending.seed.bag && OtpValues(order)
    ensures PasswordsOk(SeedTaken(w, order))
  {
  }

  /** The password the sender uses next is one the receiver accepts, and both stay in step. */
  lemma SpendOk(w: Passwords)
    requires PasswordsOk(w) && w.left != []
    ensures Knows(w.seeds, w.seedId, w.left[0]) && PasswordsOk(Spend(w))
  {
    var at := if w.pending.Known? then 1 else 0;
    assert NextId(w.seedId) != w.seedId;
    assert Find(w.seeds, w.seedId) == Some(at);
    assert w.left == [w.left[0]] + w.left[1..];
    assert multiset(w.left) == multiset{w.left[0]} + multiset(w.left[1..]);
    assert forall i :: 0 <= i < |w.left[1..]| ==> w.left[1..][i] == w.left[i + 1];
  }

  // ---- one step ----

  /** The link: the fragmentation ends and the passwords. */
  datatype State = State(x: System, w: Passwords)

  const LINK_INIT := State(SystemInit, NO_PASSWORDS)

  /** The password a packet is sent with. */
  function PacketOtp(l: Link, w: Passwords): SPProto.Otp
    requires l.params.haveOtp ==> w.left != []
  {
    if l.params.haveOtp then SPProto.Otp(w.seedId, PutLE(w.left[0], 4)) else SPProto.NO_OTP
  }

  /** The datagram a chunk packet becomes. */
  function Datagram(l: Link, otp: SPProto.Otp, iv: seq<Byte>, cs: seq<Chunk>): seq<Byte>
    requires SPProto.OtpOk(otp)
  {
    SPProto.Encode(l.params, l.suite, otp, iv, EncodeAll(cs))
  }

  /** What a datagram does at the receiver: one that does not decode, or whose password is not known, does nothing. */
  ghost function Arrival(l: Link, m: Model, seeds: seq<Seed>, datagram: seq<Byte>, purge: bool): (Model,
                                                                                                  seq<seq<Byte>>) {
    var d := SPProto.Decode(l.params, l.suite, true, l.cfg.outputMtu, datagram);
    if d.None? || (l.params.haveOtp && !Knows(seeds, d.value.otp.seedId, GetLE(d.value.otp.otp))) then (m, [])
    else
      var (m1, fs) := ProcessAll(l.acfg, m, ParseAll(d.value.payload));
      (EndPacket(l.acfg, m1, purge), fs)
  }

  /** A step of the sender, with an initialization vector for its packet; or a seed on its way. */
  datatype LinkEvent = Ends(e: Event, iv: seq<Byte>) | SendSeed(otps: seq<nat>) | ReadySeed | TakeSeed(order: seq<nat>)

  /** With one-time passwords a packet is only encoded when a password is left. */
  ghost predicate LinkEnabled(l: Link, s: State, e: LinkEvent) {
    match e
    case Ends(e, iv) =>
      && SendConfigOk(l.cfg) && SenderOk(l.cfg, s.x.s) && Enabled(l.cfg, s.x, e) && |iv| == l.params.block
      && (l.params.haveOtp && SenderStep(l.cfg, s.x.s, e).1.packet.Some? ==> s.w.left != [])
    case SendSeed(otps) => s.w.pending.Nothing?
    case ReadySeed => s.w.pending.Generating?
    case TakeSeed(order) => s.w.pending.Known? && multiset(order) == s.w.pending.seed.bag && OtpValues(order)
  }

  ghost function LinkStep(l: Link, s: State, e: LinkEvent): State
    requires l.numSeeds >= 2 && LinkEnabled(l, s, e) && PasswordsOk(s.w)
  {
    match e
    case SendSeed(otps) => s.(w := SeedSent(s.w, l.numSeeds, otps))
    case ReadySeed => s.(w := SeedReady(s.w))
    case TakeSeed(order) => s.(w := SeedTaken(s.w, order))
    case Ends(e, iv) =>
      var packet := SenderStep(l.cfg, s.x.s, e).1.packet;
      var y := Step(l.cfg, l.acfg, s.x, e);
      if packet.None? then s.(x := y)
      else
        OtpFits(l, s.w);
        var (m1, fs) := Arrival(l, s.x.m, s.w.seeds, Datagram(l, PacketOtp(l, s.w), iv, packet.value), e.purge);
        State(y.(m := m1, got := s.x.got + fs), if l.params.haveOtp then Spend(s.w) else s.w)
  }

  lemma OtpFits(l: Link, w: Passwords)
    requires PasswordsOk(w) && (l.params.haveOtp ==> w.left != [])
    ensures SPProto.OtpOk(PacketOtp(l, w))
  {
  }

  /** The packets the sender finishes fit the size it was given, and their chunks can be written as bytes. */
  lemma PacketFits(cfg: SendConfig, s: Sender, e: Event)
    requires SendConfigOk(cfg) && SenderOk(cfg, s) && Enabled(cfg, System(s, EmptyModel, [], []), e)
    ensures var packet := SenderStep(cfg, s, e).1.packet;
            packet.Some? ==> |EncodeAll(packet.value)| <= cfg.outputMtu && forall c :: c in packet.value ==> WireOk(c)
  {
    hide WireOk, EncodeAll, WriteChunks;
    FillNone();
    match e {
      case Offer(frame, _) =>
        if s.out.Some? {
          WriteChunksKeeps(cfg, s.(input := Some(Input(frame, 0))));
        }
      case Room(_) =>
        if s.input.Some? {
          WriteChunksKeeps(cfg, s.(out := Some([])));
        }
      case _ =>
    }
  }

  /** Every datagram fits the buffers, which are no larger than the socket takes. */
  lemma DatagramFits(l: Link, otp: SPProto.Otp, iv: seq<Byte>, cs: seq<Chunk>)
    requires LinkOk(l) && SPProto.OtpOk(otp) && |iv| == l.params.block && |EncodeAll(cs)| <= l.cfg.outputMtu
    ensures |Datagram(l, otp, iv, cs)| <= EffectiveMtu(l) <= l.socketMtu
  {
    SPProto.EncodeLength(l.params, l.suite, otp, iv, EncodeAll(cs));
    SPProto.CarrierMtuExact(l.params, l.cfg.outputMtu, |EncodeAll(cs)|);
    SPProto.PayloadMtuExact(l.params, l.socketMtu, l.cfg.outputMtu);
  }

  /** Securing a packet, undoing it and checking its password changes nothing for the receiver. */
  lemma ArrivalSame(l: Link, m: Model, w: Passwords, iv: seq<Byte>, cs: seq<Chunk>, purge: bool)
    requires LinkOk(l) && PasswordsOk(w) && (l.params.haveOtp ==> w.left != []) && |iv| == l.params.block
    requires |EncodeAll(cs)| <= l.cfg.outputMtu
    ensures SPProto.OtpOk(PacketOtp(l, w))
    ensures Arrival(l, m, w.seeds, Datagram(l, PacketOtp(l, w), iv, cs), purge) == Receive(l.acfg, m, Some(cs), purge)
  {
    hide ProcessAll, ParseAll, EndPacket, EncodeAll, SPProto.Encode, SPProto.Decode, SPProto.SuiteOk, PutLE, GetLE,
        Knows;
    OtpFits(l, w);
    SPProto.RoundTrip(l.params, l.suite, l.cfg.outputMtu, PacketOtp(l, w), iv, EncodeAll(cs));
    if l.params.haveOtp {
      SpendOk(w);
      Pow256Values();
      GetPutLE(w.left[0], 4);
    }
  }

  lemma LinkStepSame(l: Link, s: State, e: Event, iv: seq<Byte>)
    requires LinkOk(l) && PasswordsOk(s.w) && LinkEnabled(l, s, Ends(e, iv))
    ensures LinkStep(l, s, Ends(e, iv)).x == Step(l.cfg, l.acfg, s.x, e)
  {
    hide SenderOk, LinkOk, Receive, Arrival, Datagram, SenderStep, EncodeAll, PasswordsOk;
    LinkSeeds(l);
    PacketFits(l.cfg, s.x.s, e);
    var packet := SenderStep(l.cfg, s.x.s, e).1.packet;
    if packet.Some? {
      ArrivalSame(l, s.x.m, s.w, iv, packet.value, e.purge);
    }
  }

  lemma LinkSeeds(l: Link)
    requires LinkOk(l)
    ensures l.numSeeds >= 2
  {
  }

  lemma LinkStepOk(l: Link, s: State, e: LinkEvent)
    requires l.numSeeds >= 2 && PasswordsOk(s.w) && LinkEnabled(l, s, e)
    ensures PasswordsOk(LinkStep(l, s, e).w)
  {
    hide SenderOk, Arrival, Datagram, SenderStep, PasswordsOk, Spend, Step;
    match e {
      case Ends(e, iv) =>
        if l.params.haveOtp && SenderStep(l.cfg, s.x.s, e).1.packet.Some? {
          SpendOk(s.w);
        }
      case SendSeed(otps) => SeedSentOk(s.w, l.numSeeds, otps);
      case ReadySeed => SeedReadyOk(s.w);
      case TakeSeed(order) => SeedTakenOk(s.w, order);
    }
  }

  // ---- runs ----

  ghost predicate LinkCanRun(l: Link, s: State, es: seq<LinkEvent>)
    requires l.numSeeds >= 2 && PasswordsOk(s.w)
    decreases |es|
  {
    es != [] ==>
      && LinkEnabled(l, s, es[0])
      && (LinkStepOk(l, s, es[0]); LinkCanRun(l, LinkStep(l, s, es[0]), es[1..]))
  }

  ghost function LinkRun(l: Link, s: State, es: seq<LinkEvent>): State
    requires l.numSeeds >= 2 && PasswordsOk(s.w) && LinkCanRun(l, s, es)
    decreases |es|
  {
    if es == [] then s
    else
      LinkStepOk(l, s, es[0]);
      LinkRun(l, LinkStep(l, s, es[0]), es[1..])
  }

  /** What the run is to the fragmentation ends. */
  function Plain(es: seq<LinkEvent>): seq<Event> {
    if es == [] then [] else (if es[0].Ends? then [es[0].e] else []) + Plain(es[1..])
  }

  lemma {:induction false} LinkRunSame(l: Link, s: State, es: seq<LinkEvent>)
    requires LinkOk(l) && l.numSeeds >= 2 && PasswordsOk(s.w) && LinkCanRun(l, s, es)
    ensures CanRun(l.cfg, l.acfg, s.x, Plain(es)) && LinkRun(l, s, es).x == Run(l.cfg, l.acfg, s.x, Plain(es))
    decreases |es|
  {
    hide LinkOk, SenderOk, Enabled, Step, PasswordsOk;
    if es != [] {
      LinkStepOk(l, s, es[0]);
      LinkRunSame(l, LinkStep(l, s, es[0]), es[1..]);
      if es[0].Ends? {
        LinkStepSame(l, s, es[0].e, es[0].iv);
        hide LinkStep;
        assert Plain(es)[0] == es[0].e && Plain(es)[1..] == Plain(es[1..]);
      } else {
        assert [] + Plain(es[1..]) == Plain(es[1..]);
      }
    }
  }

  /**
   * The whole path: over a link of any parameters that pass the checks at setup, with any cipher, hash,
   * initialization vectors, seeds and order of passwords, and any timing, the frames delivered are a prefix of the
   * frames sent, and all of them once nothing waits at the sender. In particular no password is ever refused.
   */
  lemma SecuredEndToEnd(l: Link, es: seq<LinkEvent>)
    requires LinkOk(l) && LinkCanRun(l, LINK_INIT, es)
    ensures var x := LinkRun(l, LINK_INIT, es).x;
            && x.got <= x.sent
            && (x.s.input == None && Pending(x.s) == [] ==> x.got == x.sent)
  {
    hide LinkOk, LinkStep, Step, SenderOk, Enabled;
    LinkSeeds(l);
    LinkRunSame(l, LINK_INIT, es);
    LinkIsEnough(l);
    EndToEnd(l.cfg, l.acfg, Plain(es));
  }
}
