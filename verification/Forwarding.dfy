/**
 * A frame from the local device on its way to the peers, as device_dpsource_handler of client/client.c forwards it: the
 * frame decider names the peers, and the router puts the frame into the buffer of each peer's flow.
 */
module Forwarding {
  import opened Common
  import opened MulticastIndex
  import opened MulticastWalk
  import opened FrameDecider
  import MacTable
  import MacTableObject
  import RouteBuffer

  /** The flow of each peer, and with it its buffer and header. */
  type Flows = map<PeerId, RouteBuffer.Dest>

  /** No two peers share a buffer. */
  ghost predicate OwnBuffers(flows: Flows) {
    forall p, q :: p in flows && q in flows && flows[p].buffer == flows[q].buffer ==> p == q
  }

  function FlowsOf(ts: seq<PeerId>, flows: Flows): (ds: seq<RouteBuffer.Dest>)
    requires forall k :: 0 <= k < |ts| ==> ts[k] in flows
    ensures |ds| == |ts| && forall k :: 0 <= k < |ts| ==> ds[k] == flows[ts[k]]
  {
    if ts == [] then [] else [flows[ts[0]]] + FlowsOf(ts[1..], flows)
  }

  /** How often a peer is in a list of destinations. */
  function Times(ts: seq<PeerId>, p: PeerId): nat {
    multiset(ts)[p]
  }

  /** A packet pushed `n` times. */
  function PushTimes(q: RouteBuffer.Fifo, packet: seq<Byte>, n: nat): RouteBuffer.Fifo
    decreases n
  {
    if n == 0 then q else PushTimes(RouteBuffer.Push(q, packet), packet, n - 1)
  }

  function Repeat(packet: seq<Byte>, n: nat): (r: seq<seq<Byte>>)
    ensures |r| == n && forall k :: 0 <= k < n ==> r[k] == packet
  {
    seq(n, _ => packet)
  }

  /** A buffer takes as many of them as it has room for. */
  lemma {:induction false} PushTimesFills(q: RouteBuffer.Fifo, packet: seq<Byte>, n: nat)
    requires |q.queue| <= q.capacity
    ensures PushTimes(q, packet, n) == q.(queue := q.queue + Repeat(packet, Min(n, q.capacity - |q.queue|)))
    decreases n
  {
    var room := q.capacity - |q.queue|;
    if n == 0 || room == 0 {
      assert q.queue + Repeat(packet, 0) == q.queue;
      if n > 0 {
        PushTimesFills(q, packet, n - 1);
      }
    } else {
      PushTimesFills(RouteBuffer.Push(q, packet), packet, n - 1);
      var m := Min(n, room);
      assert q.queue + [packet] + Repeat(packet, m - 1) == q.queue + Repeat(packet, m);
    }
  }

  lemma TimesFirst(ts: seq<PeerId>, p: PeerId)
    requires ts != []
    ensures Times(ts, p) == Times(ts[1..], p) + if ts[0] == p then 1 else 0
  {
    assert ts == [ts[0]] + ts[1..];
    assert multiset(ts) == multiset{ts[0]} + multiset(ts[1..]);
  }

  lemma FlowsOfTail(ts: seq<PeerId>, flows: Flows)
    requires ts != [] && forall k :: 0 <= k < |ts| ==> ts[k] in flows
    ensures FlowsOf(ts, flows) != [] && FlowsOf(ts, flows)[0] == flows[ts[0]]
    ensures FlowsOf(ts, flows)[1..] == FlowsOf(ts[1..], flows)
  {
  }

  /** Offering a frame to a list of peers pushes it on a peer's buffer as often as the peer is in the list. */
  lemma {:induction false} OfferedTimes(q: RouteBuffer.Fifo, ts: seq<PeerId>, flows: Flows, p: PeerId, frame: seq<Byte>)
    requires OwnBuffers(flows) && p in flows && forall k :: 0 <= k < |ts| ==> ts[k] in flows
    ensures RouteBuffer.Offered(q, flows[p].buffer, FlowsOf(ts, flows), frame)
         == PushTimes(q, RouteBuffer.Header(flows[p]) + frame, Times(ts, p))
    decreases |ts|
  {
    hide RouteBuffer.Push, RouteBuffer.Header, Times, FlowsOf;
    if ts == [] {
      NobodyThere(p);
    } else {
      FlowsOfTail(ts, flows);
      TimesFirst(ts, p);
      assert ts[0] in flows;
      if ts[0] == p {
        OfferedTimes(RouteBuffer.Push(q, RouteBuffer.Header(flows[p]) + frame), ts[1..], flows, p, frame);
      } else {
        OfferedTimes(q, ts[1..], flows, p, frame);
      }
    }
  }

  lemma NobodyThere(p: PeerId)
    ensures Times([], p) == 0
  {
  }

  ghost predicate Connected(peers: seq<PeerId>, flows: Flows, x: RouteBuffer.Router) {
    forall p :: p in peers ==> p in flows && flows[p].buffer in x.buffers
  }

  lemma TargetsConnected(f: FrameInfo, peers: seq<PeerId>, t: MacTable.Table, x: Index, maxMacs: nat, maxGroups: nat,
                         flows: Flows, r: RouteBuffer.Router)
    requires FrameOk(f) && SamePeers(peers, t, x) && MacTable.Consistent(t, maxMacs) && Inv(x, maxGroups)
    requires Connected(peers, flows, r)
    ensures var ts := Targets(f, peers, t, x);
      forall k :: 0 <= k < |ts| ==> ts[k] in flows && flows[ts[k]].buffer in r.buffers
  {
    hide Targets, SamePeers, MacTable.Consistent, Inv;
    TargetsAllPresent(f, peers, t, x, maxMacs, maxGroups);
    var ts := Targets(f, peers, t, x);
    forall k | 0 <= k < |ts| ensures ts[k] in flows && flows[ts[k]].buffer in r.buffers {
      assert ts[k] in ts;
    }
  }

  ghost predicate Routable(ts: seq<PeerId>, flows: Flows, x: RouteBuffer.Router, recvLen: nat, mtu: nat) {
    && RouteBuffer.Inv(x, mtu) && RouteBuffer.OVERHEAD + recvLen <= mtu
    && (forall k :: 0 <= k < |ts| ==> ts[k] in flows && flows[ts[k]].buffer in x.buffers)
  }

  /** The router after the frame went to all of `ts`. */
  ghost function RoutedTo(ts: seq<PeerId>, flows: Flows, x: RouteBuffer.Router, recvLen: nat,
                          mtu: nat): RouteBuffer.Router
    requires Routable(ts, flows, x, recvLen, mtu)
  {
    RouteBuffer.RouteAll(x, FlowsOf(ts, flows), recvLen, mtu)
  }

  /**
   * Where a frame ends up: in the buffer of every peer, its own header in front, as often as the peer is a target, as
   * far as the buffer has room; nothing else changes in any buffer.
   */
  lemma FrameEndsUp(f: FrameInfo, peers: seq<PeerId>, t: MacTable.Table, x: Index, maxMacs: nat, maxGroups: nat,
                    flows: Flows, r: RouteBuffer.Router, frame: seq<Byte>, mtu: nat, p: PeerId)
    requires FrameOk(f) && SamePeers(peers, t, x) && MacTable.Consistent(t, maxMacs) && Inv(x, maxGroups)
    requires Connected(peers, flows, r) && OwnBuffers(flows) && p in flows && flows[p].buffer in r.buffers
    requires RouteBuffer.Inv(r, mtu) && RouteBuffer.OVERHEAD + |frame| <= mtu && RouteBuffer.Holds(r, frame)
    ensures var ts := Targets(f, peers, t, x);
      && Routable(ts, flows, r, |frame|, mtu)
      && var r1 := RoutedTo(ts, flows, r, |frame|, mtu);
      && RouteBuffer.Inv(r1, mtu) && flows[p].buffer in r1.buffers
      && var b, b1 := RouteBuffer.View(r, mtu, flows[p].buffer), RouteBuffer.View(r1, mtu, flows[p].buffer);
      && |b.queue| <= b.capacity
      && b1 == b.(queue := b.queue + Repeat(RouteBuffer.Header(flows[p]) + frame,
                                            Min(Times(ts, p), b.capacity - |b.queue|)))
  {
    hide Targets, SamePeers, MacTable.Consistent, Inv, RouteBuffer.Inv, RouteBuffer.Holds, RouteBuffer.RouteAll;
    hide RouteBuffer.Header, RouteBuffer.Offered;
    TargetsConnected(f, peers, t, x, maxMacs, maxGroups, flows, r);
    var ts := Targets(f, peers, t, x);
    RouteBuffer.RouteAllExact(r, FlowsOf(ts, flows), frame, mtu, flows[p].buffer);
    var b := RouteBuffer.View(r, mtu, flows[p].buffer);
    OfferedTimes(b, ts, flows, p, frame);
    PushTimesFills(b, RouteBuffer.Header(flows[p]) + frame, Times(ts, p));
  }

  /** How often a frame for the Ethernet address of group `g` goes to a peer, and how often a flooded one does. */
  lemma TimesTarget(g: Group, f: FrameInfo, peers: seq<PeerId>, t: MacTable.Table, x: Index, max: nat, p: PeerId)
    requires Inv(x, max) && SamePeers(peers, t, x) && FrameOk(f)
    ensures f == Frame(GroupMac(g), false, None) ==>
      Times(Targets(f, peers, t, x), p) == if p in peers then MatchCount(x.used[p], SigOf(g)) else 0
    ensures Floods(f, t) ==> Times(Targets(f, peers, t, x), p) == if p in peers then 1 else 0
  {
    hide Inv, Targets, Floods;
    MulticastTargets(g, peers, t, x, max, p);
    if Floods(f, t) {
      FloodReachesAll(f, peers, t, x, p);
    }
  }

  // ---- the loop ----

  lemma RoutedFirst(ts: seq<PeerId>, flows: Flows, x: RouteBuffer.Router, recvLen: nat, mtu: nat)
    requires Routable(ts, flows, x, recvLen, mtu) && ts != []
    ensures ts[0] in flows && flows[ts[0]].buffer in x.buffers && RouteBuffer.Inv(x, mtu)
    ensures var x1 := RouteBuffer.FlowRoute(x, flows[ts[0]], recvLen, |ts| > 1, mtu);
      && Routable(ts[1..], flows, x1, recvLen, mtu)
      && RoutedTo(ts, flows, x, recvLen, mtu) == RoutedTo(ts[1..], flows, x1, recvLen, mtu)
  {
    hide RouteBuffer.Inv, RouteBuffer.FlowRoute, FlowsOf;
    FlowsOfTail(ts, flows);
    RouteBuffer.FlowRouteKeeps(x, flows[ts[0]], recvLen, |ts| > 1, mtu);
  }

  lemma RoutedNone(flows: Flows, x: RouteBuffer.Router, recvLen: nat, mtu: nat)
    requires Routable([], flows, x, recvLen, mtu)
    ensures RoutedTo([], flows, x, recvLen, mtu) == x
  {
  }

  lemma TargetsRoutable(f: FrameInfo, peers: seq<PeerId>, t: MacTable.Table, x: Index, maxMacs: nat, maxGroups: nat,
                        flows: Flows, r: RouteBuffer.Router, recvLen: nat, mtu: nat)
    requires FrameOk(f) && SamePeers(peers, t, x) && MacTable.Consistent(t, maxMacs) && Inv(x, maxGroups)
    requires Connected(peers, flows, r) && RouteBuffer.Inv(r, mtu) && RouteBuffer.OVERHEAD + recvLen <= mtu
    ensures Routable(Targets(f, peers, t, x), flows, r, recvLen, mtu)
  {
    hide Targets, SamePeers, MacTable.Consistent, Inv, RouteBuffer.Inv;
    TargetsConnected(f, peers, t, x, maxMacs, maxGroups, flows, r);
  }

  /**
   * device_dpsource_handler: the loop hands the frame to each target's flow, telling all but the last that more
   * follow.
   */
  method DeviceFrame(d: FrameDecider, r: RouteBuffer.PacketRouter, flows: Flows, f: FrameInfo, recvLen: nat,
                     limit: int)
    requires d.Valid() && FrameOk(f) && !d.decideState.Stale? && !d.decideState.Multicast?
    requires r.Valid() && RouteBuffer.OVERHEAD + recvLen <= r.mtu && Connected(d.peersList, flows, r.State())
    modifies d`decideState, d`decideFloodCurrent, d.groups`walk, d.groups`walkSig, d.groups`endtime, r
    ensures d.Valid() && d.decideState == Nothing && r.Valid()
    ensures var ts := Targets(f, d.peersList, d.macs.model, d.groups.View());
      && Routable(ts, flows, old(r.State()), recvLen, r.mtu)
      && r.State() == RoutedTo(ts, flows, old(r.State()), recvLen, r.mtu)
  {
    hide Targets, Inv, Has, Timed, MacTableObject.Stands, SamePeers, From, RouteBuffer.Inv, RouteBuffer.FlowRoute;
    hide RouteBuffer.SendingFirst, MacTable.Consistent, Connected, Routable, RoutedTo, Standing, TimeAfter;
    hide FrameDecider.Left, FrameDecider.DecisionOk;
    d.AnalyzeAndDecide(f, limit);
    ghost var x := d.groups.View();
    ghost var ts := Targets(f, d.peersList, d.macs.model, x);
    MacConsistent(d.macs);
    TargetsRoutable(f, d.peersList, d.macs.model, d.groups.View(), d.macs.maxPeerMacs, d.groups.maxPeerGroups, flows,
                    r.State(), recvLen, r.mtu);
    ghost var goal := RoutedTo(ts, flows, r.State(), recvLen, r.mtu);
    var peer := d.NextDestination();
    ghost var rest := ts;
    while peer.Some?
      invariant d.Valid() && !d.decideState.Stale? && r.Valid() && d.groups.View() == x
      invariant (peer == None <==> rest == []) && (peer == None ==> d.decideState == Nothing)
      invariant peer.Some? ==> peer.value == rest[0] && d.Left() == rest[1..]
      invariant Routable(rest, flows, r.State(), recvLen, r.mtu)
      invariant goal == RoutedTo(rest, flows, r.State(), recvLen, r.mtu)
      decreases |rest|
    {
      var next := d.NextDestination();
      RoutedFirst(rest, flows, r.State(), recvLen, r.mtu);
      var _ := r.DoFlowRoute(flows[peer.value], recvLen, next.Some?);
      peer := next;
      rest := rest[1..];
    }
    RoutedNone(flows, r.State(), recvLen, r.mtu);
  }
}
