/**
 * Routing one frame to several destinations without copying more than needed, as flow/RouteBuffer.c,
 * flow/PacketRouter.c and DataProtoFlow_Route do it: the packet node that holds the frame is handed over to the
 * destination's buffer in exchange for a free node of that buffer, into which the frame is copied if further
 * destinations follow.
 */
module RouteBuffer {
  import opened Common

  type NodeId = nat
  type BufferId = nat

  /** `len` bytes of `data` are valid once the node is on a used list. */
  datatype Packet = Packet(len: nat, data: seq<Byte>)

  datatype Buffer = Buffer(free: seq<NodeId>, used: seq<NodeId>)

  /** All packet nodes, the node the source receives into, and the buffers. */
  datatype Router = Router(nodes: map<NodeId, Packet>, current: NodeId, buffers: map<BufferId, Buffer>)

  /** A destination flow: its buffer and the ids its header carries; `flags` is filled in when the packet is sent. */
  datatype Dest = Dest(buffer: BufferId, sourceId: nat, destId: nat, flags: Byte)

  /** DATAPROTO_MAX_OVERHEAD: flags, source id, number of destinations, and one destination id. */
  const OVERHEAD: nat := 7

  function Header(d: Dest): (h: seq<Byte>)
    ensures |h| == OVERHEAD
  {
    [d.flags] + PutLE(d.sourceId, 2) + PutLE(1, 2) + PutLE(d.destId, 2)
  }

  // ---- ownership ----

  predicate Owns(b: Buffer, n: NodeId) {
    n in b.free || n in b.used
  }

  /** Every node is in one place only: the source, or one list of one buffer. */
  ghost predicate OwnedOnce(x: Router) {
    && x.current in x.nodes
    && (forall b :: b in x.buffers ==> NoDup(x.buffers[b].free) && NoDup(x.buffers[b].used))
    && (forall b, n :: b in x.buffers && Owns(x.buffers[b], n) ==> n in x.nodes && n != x.current)
    && (forall b, n :: b in x.buffers && n in x.buffers[b].free ==> n !in x.buffers[b].used)
    && (forall b, c, n :: b in x.buffers && c in x.buffers && b != c && Owns(x.buffers[b], n) ==>
        !Owns(x.buffers[c], n))
  }

  ghost predicate Inv(x: Router, mtu: nat) {
    && OwnedOnce(x) && OVERHEAD <= mtu
    && (forall n :: n in x.nodes ==> |x.nodes[n].data| == mtu && x.nodes[n].len <= mtu)
  }

  // ---- operations ----

  /** The header goes to the front of the current packet. */
  function WriteHeader(x: Router, d: Dest, mtu: nat): Router
    requires Inv(x, mtu)
  {
    var p := x.nodes[x.current];
    x.(nodes := x.nodes[x.current := p.(data := Splice(p.data, 0, Header(d)))])
  }

  /** RouteBufferSource_Route; nothing happens when the buffer has no free node. */
  function Route(x: Router, len: nat, b: BufferId, copyLen: nat, mtu: nat): Router
    requires Inv(x, mtu) && b in x.buffers && len <= mtu && OVERHEAD + copyLen <= mtu
  {
    var buf := x.buffers[b];
    if buf.free == [] then x
    else
      var np := buf.free[|buf.free| - 1];
      var p := x.nodes[x.current];
      var q := x.nodes[np];
      assert np in buf.free && Owns(buf, np);
      Router(x.nodes[x.current := p.(len := len)]
                    [np := q.(data := Splice(q.data, OVERHEAD, p.data[OVERHEAD..OVERHEAD + copyLen]))],
             np,
             x.buffers[b := Buffer(buf.free[..|buf.free| - 1], buf.used + [x.current])])
  }

  /** DataProtoFlow_Route for a frame of `recvLen` bytes received after the overhead. */
  function FlowRoute(x: Router, d: Dest, recvLen: nat, more: bool, mtu: nat): Router
    requires Inv(x, mtu) && d.buffer in x.buffers && OVERHEAD + recvLen <= mtu
  {
    HeaderKeeps(x, d, mtu);
    Route(WriteHeader(x, d, mtu), OVERHEAD + recvLen, d.buffer, if more then recvLen else 0, mtu)
  }

  /** The output of a buffer has sent its first packet. */
  function Release(x: Router, b: BufferId): Router
    requires b in x.buffers && x.buffers[b].used != []
  {
    var buf := x.buffers[b];
    x.(buffers := x.buffers[b := Buffer(buf.free + [buf.used[0]], buf.used[1..])])
  }

  // ---- what a buffer holds ----

  /** The packets queued in a buffer, first to be sent first. */
  function Contents(nodes: map<NodeId, Packet>, used: seq<NodeId>): (r: seq<seq<Byte>>)
    requires forall i :: 0 <= i < |used| ==> used[i] in nodes && nodes[used[i]].len <= |nodes[used[i]].data|
    ensures |r| == |used|
    ensures forall i :: 0 <= i < |used| ==> r[i] == nodes[used[i]].data[..nodes[used[i]].len]
  {
    seq(|used|, i requires 0 <= i < |used| => nodes[used[i]].data[..nodes[used[i]].len])
  }

  lemma UsedOk(x: Router, mtu: nat, b: BufferId)
    requires Inv(x, mtu) && b in x.buffers
    ensures forall i :: 0 <= i < |x.buffers[b].used| ==>
      x.buffers[b].used[i] in x.nodes && x.nodes[x.buffers[b].used[i]].len <= |x.nodes[x.buffers[b].used[i]].data|
  {
    var used := x.buffers[b].used;
    forall i | 0 <= i < |used| ensures used[i] in x.nodes && x.nodes[used[i]].len <= |x.nodes[used[i]].data| {
      assert used[i] in used && Owns(x.buffers[b], used[i]);
    }
  }

  /** A bounded FIFO of packets: what a buffer is to its users. */
  datatype Fifo = Fifo(capacity: nat, queue: seq<seq<Byte>>)

  ghost function View(x: Router, mtu: nat, b: BufferId): Fifo
    requires Inv(x, mtu) && b in x.buffers
  {
    UsedOk(x, mtu, b);
    Fifo(|x.buffers[b].free| + |x.buffers[b].used|, Contents(x.nodes, x.buffers[b].used))
  }

  function Push(q: Fifo, packet: seq<Byte>): Fifo {
    if |q.queue| < q.capacity then q.(queue := q.queue + [packet]) else q
  }

  /** The frame sits in the current packet, after the room for the header. */
  ghost predicate Holds(x: Router, frame: seq<Byte>) {
    && x.current in x.nodes && OVERHEAD + |frame| <= |x.nodes[x.current].data|
    && x.nodes[x.current].data[OVERHEAD..OVERHEAD + |frame|] == frame
  }

  // ---- each operation keeps ownership and the other buffers ----

  lemma HeaderKeeps(x: Router, d: Dest, mtu: nat)
    requires Inv(x, mtu)
    ensures x.current in x.nodes
    ensures var x1 := WriteHeader(x, d, mtu);
      && Inv(x1, mtu) && x1.current == x.current && x1.buffers == x.buffers
      && (forall n :: n in x.nodes && n != x.current ==> x1.nodes[n] == x.nodes[n])
      && x1.nodes[x.current].data[..OVERHEAD] == Header(d)
      && x1.nodes[x.current].data[OVERHEAD..] == x.nodes[x.current].data[OVERHEAD..]
  {
    var x1 := WriteHeader(x, d, mtu);
    assert x1.nodes[x.current].data[OVERHEAD..] == x.nodes[x.current].data[OVERHEAD..];
    assert x1.nodes[x.current].data[..OVERHEAD] == Header(d);
  }

  lemma RouteOwned(x: Router, len: nat, b: BufferId, copyLen: nat, mtu: nat)
    requires Inv(x, mtu) && b in x.buffers && len <= mtu && OVERHEAD + copyLen <= mtu && x.buffers[b].free != []
    ensures OwnedOnce(Route(x, len, b, copyLen, mtu))
  {
    var x1, buf := Route(x, len, b, copyLen, mtu), x.buffers[b];
    ListsOk(x, b);
    hide OwnedOnce;
    var np := buf.free[|buf.free| - 1];
    assert np in buf.free && Owns(buf, np);
    var buf1 := x1.buffers[b];
    assert buf.free == buf1.free + [np];
    assert np !in buf1.free;
    assert forall n :: n in buf1.used <==> n in buf.used || n == x.current;
    OwnedFrom(x, x1, b);
  }

  /** One buffer's lists are in order, and its nodes are not with the source. */
  lemma ListsOk(x: Router, b: BufferId)
    requires OwnedOnce(x) && b in x.buffers
    ensures var buf := x.buffers[b];
            && NoDup(buf.free) && NoDup(buf.used) && x.current in x.nodes && !Owns(buf, x.current)
            && (forall n :: n in buf.free ==> n !in buf.used && n in x.nodes)
            && (forall n :: n in buf.used ==> n in x.nodes)
  {
    forall n | Owns(x.buffers[b], n) ensures n in x.nodes && n != x.current {
    }
  }

  /** Only the lists of buffer `b` have changed, which has at most taken over the source's node in exchange for one. */
  lemma OwnedFrom(x: Router, x1: Router, b: BufferId)
    requires OwnedOnce(x) && b in x.buffers && b in x1.buffers && x1.nodes.Keys == x.nodes.Keys
    requires x1.buffers == x.buffers[b := x1.buffers[b]]
    requires NoDup(x1.buffers[b].free) && NoDup(x1.buffers[b].used)
    requires forall n :: n in x1.buffers[b].free ==> n !in x1.buffers[b].used
    requires forall n :: Owns(x1.buffers[b], n) ==> n != x1.current && (Owns(x.buffers[b], n) || n == x.current)
    requires x1.current == x.current || Owns(x.buffers[b], x1.current)
    ensures OwnedOnce(x1)
  {
    hide Owns, NoDup;
  }

  lemma RouteKeeps(x: Router, len: nat, b: BufferId, copyLen: nat, mtu: nat)
    requires Inv(x, mtu) && b in x.buffers && len <= mtu && OVERHEAD + copyLen <= mtu
    ensures var x1 := Route(x, len, b, copyLen, mtu);
      && Inv(x1, mtu) && x1.buffers.Keys == x.buffers.Keys
      && (forall c :: c in x.buffers && c != b ==> View(x1, mtu, c) == View(x, mtu, c))
      && View(x1, mtu, b) == Push(View(x, mtu, b), x.nodes[x.current].data[..len])
  {
    if x.buffers[b].free != [] {
      RouteOwned(x, len, b, copyLen, mtu);
      var x1 := Route(x, len, b, copyLen, mtu);
      assert Inv(x1, mtu);
      forall c | c in x.buffers && c != b ensures View(x1, mtu, c) == View(x, mtu, c) {
        RouteElsewhere(x, len, b, copyLen, mtu, c);
      }
      RouteHere(x, len, b, copyLen, mtu);
    }
  }

  lemma RouteElsewhere(x: Router, len: nat, b: BufferId, copyLen: nat, mtu: nat, c: BufferId)
    requires Inv(x, mtu) && b in x.buffers && len <= mtu && OVERHEAD + copyLen <= mtu && x.buffers[b].free != []
    requires c in x.buffers && c != b && Inv(Route(x, len, b, copyLen, mtu), mtu)
    ensures View(Route(x, len, b, copyLen, mtu), mtu, c) == View(x, mtu, c)
  {
    var x1, used := Route(x, len, b, copyLen, mtu), x.buffers[c].used;
    var np := x.buffers[b].free[|x.buffers[b].free| - 1];
    assert Owns(x.buffers[b], np);
    UsedOk(x, mtu, c);
    UsedOk(x1, mtu, c);
    forall i | 0 <= i < |used| ensures x1.nodes[used[i]] == x.nodes[used[i]] {
      assert Owns(x.buffers[c], used[i]);
    }
  }

  lemma RouteHere(x: Router, len: nat, b: BufferId, copyLen: nat, mtu: nat)
    requires Inv(x, mtu) && b in x.buffers && len <= mtu && OVERHEAD + copyLen <= mtu && x.buffers[b].free != []
    requires Inv(Route(x, len, b, copyLen, mtu), mtu)
    ensures View(Route(x, len, b, copyLen, mtu), mtu, b) == Push(View(x, mtu, b), x.nodes[x.current].data[..len])
  {
    var x1, used := Route(x, len, b, copyLen, mtu), x.buffers[b].used;
    var np := x.buffers[b].free[|x.buffers[b].free| - 1];
    assert np in x.buffers[b].free && Owns(x.buffers[b], np);
    UsedOk(x, mtu, b);
    UsedOk(x1, mtu, b);
    forall i | 0 <= i < |used| ensures x1.nodes[used[i]] == x.nodes[used[i]] {
      assert used[i] in used && Owns(x.buffers[b], used[i]);
    }
    assert x1.nodes[x.current] == x.nodes[x.current].(len := len);
    assert Contents(x1.nodes, x1.buffers[b].used) == Contents(x.nodes, used) + [x.nodes[x.current].data[..len]];
  }

  /**
   * Routing to one destination: its buffer gets the destination's own header followed by the unmodified frame if there
   * is room, every other buffer is untouched, and the frame is still there for the next destination if more follow.
   */
  lemma FlowRouteExact(x: Router, d: Dest, frame: seq<Byte>, more: bool, mtu: nat)
    requires Inv(x, mtu) && d.buffer in x.buffers && OVERHEAD + |frame| <= mtu && Holds(x, frame)
    ensures var x1 := FlowRoute(x, d, |frame|, more, mtu);
      && Inv(x1, mtu) && x1.buffers.Keys == x.buffers.Keys
      && View(x1, mtu, d.buffer) == Push(View(x, mtu, d.buffer), Header(d) + frame)
      && (forall c :: c in x.buffers && c != d.buffer ==> View(x1, mtu, c) == View(x, mtu, c))
      && (more ==> Holds(x1, frame))
  {
    HeaderKeeps(x, d, mtu);
    var y := WriteHeader(x, d, mtu);
    var len, data := OVERHEAD + |frame|, y.nodes[y.current].data;
    assert data[..len] == data[..OVERHEAD] + data[OVERHEAD..len];
    assert data[OVERHEAD..len] == data[OVERHEAD..][..|frame|] == x.nodes[x.current].data[OVERHEAD..][..|frame|];
    assert x.nodes[x.current].data[OVERHEAD..][..|frame|] == x.nodes[x.current].data[OVERHEAD..OVERHEAD + |frame|];
    assert Holds(y, frame);
    forall c | c in x.buffers ensures View(y, mtu, c) == View(x, mtu, c) {
      HeaderElsewhere(x, d, mtu, c);
    }
    RouteKeeps(y, len, d.buffer, if more then |frame| else 0, mtu);
    if more {
      RouteHolds(y, frame, len, d.buffer, mtu);
    }
  }

  lemma HeaderElsewhere(x: Router, d: Dest, mtu: nat, c: BufferId)
    requires Inv(x, mtu) && c in x.buffers && Inv(WriteHeader(x, d, mtu), mtu)
    ensures View(WriteHeader(x, d, mtu), mtu, c) == View(x, mtu, c)
  {
    var y, used := WriteHeader(x, d, mtu), x.buffers[c].used;
    UsedOk(x, mtu, c);
    UsedOk(y, mtu, c);
    forall i | 0 <= i < |used| ensures y.nodes[used[i]] == x.nodes[used[i]] {
      assert used[i] in used && Owns(x.buffers[c], used[i]);
    }
  }

  lemma RouteHolds(x: Router, frame: seq<Byte>, len: nat, b: BufferId, mtu: nat)
    requires Inv(x, mtu) && b in x.buffers && len <= mtu && OVERHEAD + |frame| <= mtu && Holds(x, frame)
    ensures Holds(Route(x, len, b, |frame|, mtu), frame)
  {
    var x1, buf := Route(x, len, b, |frame|, mtu), x.buffers[b];
    if buf.free != [] {
      assert buf.free[|buf.free| - 1] in buf.free && Owns(buf, buf.free[|buf.free| - 1]);
      assert x1.nodes[x1.current].data[OVERHEAD..OVERHEAD + |frame|] == frame;
    }
  }

  // ---- all destinations ----

  /** The loop of device_dpsource_handler: every destination but the last is told that more follow. */
  function RouteAll(x: Router, ds: seq<Dest>, recvLen: nat, mtu: nat): Router
    requires Inv(x, mtu) && OVERHEAD + recvLen <= mtu && forall i :: 0 <= i < |ds| ==> ds[i].buffer in x.buffers
    decreases |ds|
  {
    if ds == [] then x
    else
      var x1 := FlowRoute(x, ds[0], recvLen, |ds| > 1, mtu);
      FlowRouteKeeps(x, ds[0], recvLen, |ds| > 1, mtu);
      RouteAll(x1, ds[1..], recvLen, mtu)
  }

  lemma FlowRouteKeeps(x: Router, d: Dest, recvLen: nat, more: bool, mtu: nat)
    requires Inv(x, mtu) && d.buffer in x.buffers && OVERHEAD + recvLen <= mtu
    ensures Inv(FlowRoute(x, d, recvLen, more, mtu), mtu)
    ensures FlowRoute(x, d, recvLen, more, mtu).buffers.Keys == x.buffers.Keys
  {
    hide OwnedOnce, View, Push, Header;
    HeaderKeeps(x, d, mtu);
    RouteKeeps(WriteHeader(x, d, mtu), OVERHEAD + recvLen, d.buffer, if more then recvLen else 0, mtu);
  }

  /** What a buffer should hold after the frame was offered to every destination in order. */
  function Offered(q: Fifo, b: BufferId, ds: seq<Dest>, frame: seq<Byte>): Fifo
    decreases |ds|
  {
    if ds == [] then q
    else Offered(if ds[0].buffer == b then Push(q, Header(ds[0]) + frame) else q, b, ds[1..], frame)
  }

  /**
   * For any list of destinations, repeated ones included, and any pattern of full buffers: every buffer ends up with
   * exactly the packets it should have, each destination's own header followed by the unmodified frame, in order and
   * within its capacity, and no packet node is owned twice.
   */
  lemma {:induction false} RouteAllExact(x: Router, ds: seq<Dest>, frame: seq<Byte>, mtu: nat, b: BufferId)
    requires Inv(x, mtu) && OVERHEAD + |frame| <= mtu && forall i :: 0 <= i < |ds| ==> ds[i].buffer in x.buffers
    requires (ds != [] ==> Holds(x, frame)) && b in x.buffers
    ensures var x1 := RouteAll(x, ds, |frame|, mtu);
      Inv(x1, mtu) && b in x1.buffers && View(x1, mtu, b) == Offered(View(x, mtu, b), b, ds, frame)
    decreases |ds|
  {
    hide Inv, View, FlowRoute, Holds;
    if ds != [] {
      FlowRouteExact(x, ds[0], frame, |ds| > 1, mtu);
      RouteAllExact(FlowRoute(x, ds[0], |frame|, |ds| > 1, mtu), ds[1..], frame, mtu, b);
    }
  }

  lemma ReleaseOwned(x: Router, b: BufferId)
    requires OwnedOnce(x) && b in x.buffers && x.buffers[b].used != []
    ensures OwnedOnce(Release(x, b))
  {
    hide OwnedOnce;
    ListsOk(x, b);
    var x1, buf := Release(x, b), x.buffers[b];
    var buf1, n := x1.buffers[b], buf.used[0];
    assert buf.used == [n] + buf.used[1..] && n !in buf.used[1..];
    assert n in buf.used && n !in buf.free;
    assert forall m :: m in buf1.free <==> m in buf.free || m == n;
    OwnedFrom(x, x1, b);
  }

  /** Sending takes packets off the front and gives the node back; capacity and order are kept. */
  lemma ReleaseKeeps(x: Router, b: BufferId, mtu: nat)
    requires Inv(x, mtu) && b in x.buffers && x.buffers[b].used != []
    ensures var x1 := Release(x, b);
      && Inv(x1, mtu) && x1.buffers.Keys == x.buffers.Keys
      && View(x1, mtu, b) == View(x, mtu, b).(queue := View(x, mtu, b).queue[1..])
      && forall c :: c in x.buffers && c != b ==> View(x1, mtu, c) == View(x, mtu, c)
  {
    hide OwnedOnce;
    var x1, buf := Release(x, b), x.buffers[b];
    ReleaseOwned(x, b);
    assert Inv(x1, mtu);
    forall c | c in x.buffers ensures c != b ==> View(x1, mtu, c) == View(x, mtu, c) {
      UsedOk(x, mtu, c);
      UsedOk(x1, mtu, c);
    }
    UsedOk(x, mtu, b);
    UsedOk(x1, mtu, b);
    assert Contents(x.nodes, buf.used)[1..] == Contents(x.nodes, buf.used[1..]);
  }

  // ---- the objects ----

  /** Each buffer's output is sending the first packet of its used list, and is idle exactly when the list is empty. */
  ghost predicate SendingFirst(x: Router, sending: map<BufferId, NodeId>) {
    forall b :: b in x.buffers ==>
      (b in sending <==> x.buffers[b].used != []) && (b in sending ==> sending[b] == x.buffers[b].used[0])
  }

  class PacketRouter {
    const mtu: nat
    var nodes: map<NodeId, Packet>
    var current: NodeId
    var buffers: map<BufferId, Buffer>
    var sending: map<BufferId, NodeId>
    var nextNode: NodeId

    ghost function State(): Router
      reads this
    {
      Router(nodes, current, buffers)
    }

    ghost predicate Valid()
      reads this
    {
      Inv(State(), mtu) && SendingFirst(State(), sending) && forall n :: n in nodes ==> n < nextNode
    }

    constructor (mtu: nat)
      requires mtu >= OVERHEAD
      ensures Valid() && this.mtu == mtu && buffers == map[]
    {
      this.mtu := mtu;
      nodes, current, buffers, sending := map[0 := Packet(0, seq(mtu, _ => 0))], 0, map[], map[];
      nextNode := 1;
    }

    /** RouteBuffer_Init: the buffer gets `size` free nodes of its own. */
    method BufferInit(b: BufferId, size: nat)
      requires Valid() && b !in buffers && b !in sending
      modifies this
      ensures Valid() && buffers.Keys == old(buffers.Keys) + {b} && |buffers[b].free| == size && buffers[b].used == []
      ensures forall c :: c in old(buffers) ==> buffers[c] == old(buffers)[c]
    {
      hide Inv, SendingFirst;
      NewBufferKeeps(State(), mtu, b);
      SendingChanged(State(), sending, b, Buffer([], []), sending);
      buffers := buffers[b := Buffer([], [])];
      var k: nat := 0;
      while k < size
        invariant Valid() && k <= size && b !in sending && buffers.Keys == old(buffers.Keys) + {b}
        invariant |buffers[b].free| == k && buffers[b].used == []
        invariant forall c :: c in old(buffers) ==> buffers[c] == old(buffers)[c]
      {
        AddNodeKeeps(State(), mtu, b, nextNode);
        SendingChanged(State(), sending, b, buffers[b].(free := buffers[b].free + [nextNode]), sending);
        nodes := nodes[nextNode := Packet(0, seq(mtu, _ => 0))];
        buffers := buffers[b := buffers[b].(free := buffers[b].free + [nextNode])];
        nextNode := nextNode + 1;
        k := k + 1;
      }
    }

    /** RouteBufferSource_Route */
    method RouteTo(len: nat, b: BufferId, copyLen: nat) returns (ok: bool)
      requires Valid() && b in buffers && len <= mtu && OVERHEAD + copyLen <= mtu
      modifies this
      ensures Valid() && State() == Route(old(State()), len, b, copyLen, mtu) && ok == (old(buffers[b]).free != [])
    {
      hide Inv, SendingFirst, View, Push, Splice;
      RouteKeeps(State(), len, b, copyLen, mtu);
      SendingAt(State(), sending, b);
      var buf := buffers[b];
      if buf.free == [] {
        return false;
      }
      ghost var x := State();
      var wasEmpty := buf.used == [];
      var p := current;
      var np := buf.free[|buf.free| - 1];
      FreeIsOther(x, mtu, b, len, copyLen);
      SendingChanged(x, sending, b, Buffer(buf.free[..|buf.free| - 1], buf.used + [p]),
                     if wasEmpty then sending[b := p] else sending);
      nodes := nodes[p := nodes[p].(len := len)];
      buffers := buffers[b := Buffer(buf.free[..|buf.free| - 1], buf.used + [p])];
      current := np;
      var copied := Splice(nodes[np].data, OVERHEAD, nodes[p].data[OVERHEAD..OVERHEAD + copyLen]);
      nodes := nodes[np := nodes[np].(data := copied)];
      if wasEmpty {
        sending := sending[b := buffers[b].used[0]];
      }
      return true;
    }

    /** DataProtoFlow_Route */
    method DoFlowRoute(d: Dest, recvLen: nat, more: bool) returns (ok: bool)
      requires Valid() && d.buffer in buffers && OVERHEAD + recvLen <= mtu
      modifies this
      ensures Valid() && State() == FlowRoute(old(State()), d, recvLen, more, mtu)
    {
      hide OwnedOnce, Route, Header, SendingFirst;
      HeaderKeeps(State(), d, mtu);
      SendingSame(State(), WriteHeader(State(), d, mtu), sending);
      nodes := nodes[current := nodes[current].(data := Splice(nodes[current].data, 0, Header(d)))];
      ok := RouteTo(OVERHEAD + recvLen, d.buffer, if more then recvLen else 0);
    }

    /** device_dpsource_handler, once the destinations are decided. */
    method DoRouteAll(ds: seq<Dest>, recvLen: nat)
      requires Valid() && OVERHEAD + recvLen <= mtu && forall i :: 0 <= i < |ds| ==> ds[i].buffer in buffers
      modifies this
      ensures Valid() && State() == RouteAll(old(State()), ds, recvLen, mtu)
    {
      hide Inv, FlowRoute, SendingFirst;
      ghost var goal := RouteAll(State(), ds, recvLen, mtu);
      var k: nat := 0;
      assert ds[0..] == ds;
      while k < |ds|
        invariant k <= |ds| && Valid() && (forall i :: 0 <= i < |ds| ==> ds[i].buffer in buffers)
        invariant goal == RouteAll(State(), ds[k..], recvLen, mtu)
      {
        assert ds[k..][1..] == ds[k + 1..];
        FlowRouteKeeps(State(), ds[k], recvLen, k + 1 < |ds|, mtu);
        var _ := DoFlowRoute(ds[k], recvLen, k + 1 < |ds|);
        k := k + 1;
      }
    }

    /** The output of buffer `b` has sent its packet: release it and send the next one if there is one. */
    method OutputHandlerDone(b: BufferId)
      requires Valid() && b in buffers && b in sending
      modifies this
      ensures Valid() && old(buffers[b]).used != [] && State() == Release(old(State()), b)
    {
      hide Inv, SendingFirst;
      SendingAt(State(), sending, b);
      ReleaseKeeps(State(), b, mtu);
      var buf := buffers[b];
      SendingChanged(State(), sending, b, Buffer(buf.free + [buf.used[0]], buf.used[1..]),
                     if buf.used[1..] != [] then sending[b := buf.used[1]] else sending - {b});
      buffers := buffers[b := Buffer(buf.free + [buf.used[0]], buf.used[1..])];
      if buffers[b].used != [] {
        sending := sending[b := buffers[b].used[0]];
      } else {
        sending := sending - {b};
      }
    }
  }

  lemma FreeIsOther(x: Router, mtu: nat, b: BufferId, len: nat, copyLen: nat)
    requires Inv(x, mtu) && b in x.buffers && x.buffers[b].free != [] && len <= mtu && OVERHEAD + copyLen <= mtu
    ensures var np := x.buffers[b].free[|x.buffers[b].free| - 1];
      && np != x.current && np in x.nodes && x.current in x.nodes
      && |x.nodes[np].data| == mtu == |x.nodes[x.current].data|
    ensures forall n :: n in Route(x, len, b, copyLen, mtu).nodes ==> n in x.nodes
  {
    var free := x.buffers[b].free;
    assert free[|free| - 1] in free && Owns(x.buffers[b], free[|free| - 1]);
  }

  lemma SendingAt(x: Router, sending: map<BufferId, NodeId>, b: BufferId)
    requires SendingFirst(x, sending) && b in x.buffers
    ensures (b in sending <==> x.buffers[b].used != []) && (b in sending ==> sending[b] == x.buffers[b].used[0])
  {
  }

  lemma SendingSame(x: Router, x1: Router, sending: map<BufferId, NodeId>)
    requires SendingFirst(x, sending) && x1.buffers == x.buffers
    ensures SendingFirst(x1, sending)
  {
  }

  /** One buffer changes, and what its output sends changes with it. */
  lemma SendingChanged(x: Router, sending: map<BufferId, NodeId>, b: BufferId, buf: Buffer,
                       sending1: map<BufferId, NodeId>)
    requires SendingFirst(x, sending)
    requires forall c :: c != b ==> (c in sending1 <==> c in sending) && (c in sending ==> sending1[c] == sending[c])
    requires (b in sending1 <==> buf.used != []) && (b in sending1 ==> sending1[b] == buf.used[0])
    ensures forall x1: Router :: x1.buffers == x.buffers[b := buf] ==> SendingFirst(x1, sending1)
  {
  }

  lemma NewBufferKeeps(x: Router, mtu: nat, b: BufferId)
    requires Inv(x, mtu) && b !in x.buffers
    ensures Inv(x.(buffers := x.buffers[b := Buffer([], [])]), mtu)
  {
  }

  lemma AddNodeKeeps(x: Router, mtu: nat, b: BufferId, n: NodeId)
    requires Inv(x, mtu) && b in x.buffers && n !in x.nodes
    ensures Inv(Router(x.nodes[n := Packet(0, seq(mtu, _ => 0))], x.current,
                       x.buffers[b := x.buffers[b].(free := x.buffers[b].free + [n])]), mtu)
  {
    var buf := x.buffers[b];
    assert !Owns(buf, n);
    var buf1 := buf.(free := buf.free + [n]);
    forall m ensures Owns(buf1, m) <==> Owns(buf, m) || m == n {
    }
  }
}
