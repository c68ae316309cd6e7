/**
 * Receiving data packets, as in client/DPReceive.c: a packet from a peer is for the device, or to be relayed to
 * another peer, or dropped. A frame that goes through a relay arrives as it was sent, and no packet is relayed twice.
 */
module DataReceive {
  import opened Common
  import RouteBuffer

  const PACKET_HEADER_LEN: nat := 5
  const PEER_ID_LEN: nat := 2

  /** `attached` says whether packets can be sent to the peer. */
  datatype Peer = Peer(id: nat, relayClient: bool, attached: bool)

  /** The id the server gave the device, once it has; the largest frame; and the peers, in the order they came. */
  datatype Device = Device(own: Option<nat>, mtu: nat, peers: seq<Peer>)

  /** The fields of a packet. */
  datatype Fields = Fields(flags: Byte, source: nat, dest: Option<nat>, frame: seq<Byte>)

  /** `Local` goes to the device as a frame of peer `source`; `Relay` goes on from peer `source` to peer `dest`. */
  datatype Action = Drop | Local(source: nat, frame: seq<Byte>) | Relay(source: nat, dest: nat, frame: seq<Byte>)

  /** `heard`: what the packet says about its sender hearing us, if it is well-formed and packets can be sent back. */
  datatype Outcome = Outcome(heard: Option<bool>, action: Action)

  /** The first peer with an id. */
  ghost predicate IsFirst(peers: seq<Peer>, id: nat, i: nat) {
    i < |peers| && peers[i].id == id && forall k :: 0 <= k < i ==> peers[k].id != id
  }

  ghost predicate IsKnown(peers: seq<Peer>, id: nat) {
    exists i :: 0 <= i < |peers| && peers[i].id == id
  }

  ghost predicate UniqueIds(peers: seq<Peer>) {
    forall i, k :: 0 <= i < k < |peers| ==> peers[i].id != peers[k].id
  }

  /** What a packet holds, if it is well-formed: at most one destination, and a frame the device can take. */
  function Read(mtu: nat, packet: seq<Byte>): (r: Option<Fields>) {
    if |packet| < PACKET_HEADER_LEN then None
    else
      var n := GetLE(packet[3..5]);
      if n > 1 || |packet| - PACKET_HEADER_LEN < n * PEER_ID_LEN then None
      else
        var frame := packet[PACKET_HEADER_LEN + n * PEER_ID_LEN..];
        if |frame| > mtu then None
        else Some(Fields(packet[0], GetLE(packet[1..3]), if n == 1 then Some(GetLE(packet[5..7])) else None, frame))
  }

  /** find_peer */
  method FindPeer(peers: seq<Peer>, id: nat) returns (r: Option<nat>)
    ensures r.Some? ==> IsFirst(peers, id, r.value)
    ensures r.None? ==> !IsKnown(peers, id)
  {
    var i := 0;
    while i < |peers|
      invariant i <= |peers| && forall k :: 0 <= k < i ==> peers[k].id != id
    {
      if peers[i].id == id {
        return Some(i);
      }
      i := i + 1;
    }
    return None;
  }

  /** The packet of peer `from` is for this device. */
  ghost predicate IsLocal(d: Device, m: Fields) {
    m.dest.Some? && IsKnown(d.peers, m.source) && d.own == m.dest
  }

  /** The packet is to be relayed: the peer may have its own frames relayed to any other peer. */
  ghost predicate IsRelayed(d: Device, from: nat, m: Fields) {
    && from < |d.peers| && m.dest.Some? && IsFirst(d.peers, m.source, from) && d.own != m.dest
    && d.peers[from].relayClient && IsKnown(d.peers, m.dest.value) && !IsFirst(d.peers, m.dest.value, from)
  }

  /** receiver_recv_handler_send: exactly which packets go where. */
  method ReceiverRecv(d: Device, from: nat, packet: seq<Byte>) returns (o: Outcome)
    requires from < |d.peers|
    ensures var m := Read(d.mtu, packet);
      && (m.None? ==> o == Outcome(None, Drop))
      && (m.Some? ==> o.heard == if d.peers[from].attached then Some(m.value.flags % 2 == 1) else None)
      && (m.Some? && IsLocal(d, m.value) <==> o.action.Local?)
      && (m.Some? && IsRelayed(d, from, m.value) <==> o.action.Relay?)
      && (o.action.Local? ==> o.action.frame == m.value.frame && IsFirst(d.peers, m.value.source, o.action.source))
      && (o.action.Relay? ==>
            && o.action.frame == m.value.frame && o.action.source == from
            && IsFirst(d.peers, m.value.dest.value, o.action.dest))
  {
    if |packet| < PACKET_HEADER_LEN {
      return Outcome(None, Drop);
    }
    var data := packet[PACKET_HEADER_LEN..];
    var flags, fromId, numIds := packet[0], GetLE(packet[1..3]), GetLE(packet[3..5]);
    if !(numIds == 0 || numIds == 1) {
      return Outcome(None, Drop);
    }
    var toId := 0;
    if numIds == 1 {
      if |data| < PEER_ID_LEN {
        return Outcome(None, Drop);
      }
      toId := GetLE(data[..PEER_ID_LEN]);
      assert data[..PEER_ID_LEN] == packet[5..7];
      data := data[PEER_ID_LEN..];
    }
    assert data == packet[PACKET_HEADER_LEN + numIds * PEER_ID_LEN..];
    if |data| > d.mtu {
      return Outcome(None, Drop);
    }
    var heard := if d.peers[from].attached then Some(flags % 2 == 1) else None;
    assert Read(d.mtu, packet) == Some(Fields(flags, fromId, if numIds == 1 then Some(toId) else None, data));
    if numIds == 0 {
      return Outcome(heard, Drop);
    }
    var action := Dispatch(d, from, Fields(flags, fromId, Some(toId), data));
    return Outcome(heard, action);
  }

  method Dispatch(d: Device, from: nat, m: Fields) returns (a: Action)
    requires from < |d.peers| && m.dest.Some?
    ensures IsLocal(d, m) <==> a.Local?
    ensures IsRelayed(d, from, m) <==> a.Relay?
    ensures a.Local? ==> a.frame == m.frame && IsFirst(d.peers, m.source, a.source)
    ensures a.Relay? ==> a.frame == m.frame && a.source == from && IsFirst(d.peers, m.dest.value, a.dest)
  {
    var src := FindPeer(d.peers, m.source);
    if src.None? {
      return Drop;
    }
    if d.own.Some? && m.dest == d.own {
      return Local(src.value, m.frame);
    }
    if !d.peers[from].relayClient || src.value != from {
      FirstUnique(d.peers, m.source, src.value, from);
      return Drop;
    }
    var dest := FindPeer(d.peers, m.dest.value);
    if dest.None? || dest.value == src.value {
      return Drop;
    }
    FirstUnique(d.peers, m.dest.value, dest.value, from);
    return Relay(src.value, dest.value, m.frame);
  }

  lemma FirstUnique(peers: seq<Peer>, id: nat, i: nat, k: nat)
    requires IsFirst(peers, id, i)
    ensures IsFirst(peers, id, k) ==> i == k
  {
  }

  // ---- with the sender ----

  /** What a data packet says is what its sender wrote. */
  lemma ReadsWhatIsWritten(dest: RouteBuffer.Dest, frame: seq<Byte>, mtu: nat)
    requires dest.sourceId < TWO_16 && dest.destId < TWO_16
    ensures Read(mtu, RouteBuffer.Header(dest) + frame) ==
      if |frame| <= mtu then Some(Fields(dest.flags, dest.sourceId, Some(dest.destId), frame)) else None
  {
    var h := RouteBuffer.Header(dest);
    var packet := h + frame;
    Pow256Values();
    GetPutLE(dest.sourceId, 2);
    GetPutLE(1, 2);
    GetPutLE(dest.destId, 2);
    assert packet[1..3] == PutLE(dest.sourceId, 2);
    assert packet[3..5] == PutLE(1, 2);
    assert packet[5..7] == PutLE(dest.destId, 2);
    assert packet[7..] == frame;
  }

  /** The packet a relay sends on for a frame it relays: the ids are those of the two peers. */
  function Relayed(d: Device, source: nat, dest: nat, flags: Byte, frame: seq<Byte>): seq<Byte>
    requires source < |d.peers| && dest < |d.peers|
  {
    RouteBuffer.Header(RouteBuffer.Dest(0, d.peers[source].id, d.peers[dest].id, flags)) + frame
  }

  ghost predicate IdsOk(d: Device) {
    UniqueIds(d.peers) && forall i :: 0 <= i < |d.peers| ==> d.peers[i].id < TWO_16
  }

  lemma KnownFirst(peers: seq<Peer>, id: nat, i: nat)
    requires UniqueIds(peers) && i < |peers| && peers[i].id == id
    ensures IsFirst(peers, id, i) && IsKnown(peers, id)
  {
  }

  /**
   * A device sends to a peer directly: the peer, if it knows the device, takes the frame as that device's, and no
   * other.
   */
  lemma ArrivesDirectly(b: Device, source: nat, flags: Byte, frame: seq<Byte>, self: nat)
    requires self < TWO_16 && source < TWO_16 && b.own == Some(self) && |frame| <= b.mtu
    ensures var m := Read(b.mtu, RouteBuffer.Header(RouteBuffer.Dest(0, source, self, flags)) + frame);
      m.Some? && m.value.frame == frame && m.value.source == source &&
          (IsLocal(b, m.value) <==> IsKnown(b.peers, source))
  {
    ReadsWhatIsWritten(RouteBuffer.Dest(0, source, self, flags), frame, b.mtu);
  }

  /**
   * A frame sent by way of a relay: the relay sends it on exactly if its sender is one of its relay clients and the
   * destination another peer it knows; what it sends on is the frame, from its first sender, to that destination.
   */
  lemma GoesThroughRelay(r: Device, from: nat, to: nat, flags: Byte, flags1: Byte, frame: seq<Byte>)
    requires IdsOk(r) && from < |r.peers| && to < |r.peers| && from != to && |frame| <= r.mtu
    requires r.own != Some(r.peers[to].id)
    ensures var sent := RouteBuffer.Header(RouteBuffer.Dest(0, r.peers[from].id, r.peers[to].id, flags)) + frame;
      var m := Read(r.mtu, sent);
      && m.Some? && m.value.frame == frame && (IsRelayed(r, from, m.value) <==> r.peers[from].relayClient)
      && IsFirst(r.peers, m.value.dest.value, to)
      && Read(r.mtu, Relayed(r, from, to, flags1, frame)) == Some(m.value.(flags := flags1))
  {
    ReadsWhatIsWritten(RouteBuffer.Dest(0, r.peers[from].id, r.peers[to].id, flags), frame, r.mtu);
    ReadsWhatIsWritten(RouteBuffer.Dest(0, r.peers[from].id, r.peers[to].id, flags1), frame, r.mtu);
    KnownFirst(r.peers, r.peers[from].id, from);
    KnownFirst(r.peers, r.peers[to].id, to);
  }

  /**
   * What a relay sends on is never relayed again: the next device gets it from the relay, whose id is not that of the
   * peer the frame comes from. So no frame passes more than one relay, and none goes round in a circle.
   */
  lemma RelayedOnce(d: Device, relay: nat, source: nat, dest: nat, flags: Byte, frame: seq<Byte>)
    requires IdsOk(d) && relay < |d.peers| && source < TWO_16 && dest < TWO_16 && d.peers[relay].id != source
    requires |frame| <= d.mtu
    ensures var m := Read(d.mtu, RouteBuffer.Header(RouteBuffer.Dest(0, source, dest, flags)) + frame);
      m.Some? && !IsRelayed(d, relay, m.value)
  {
    ReadsWhatIsWritten(RouteBuffer.Dest(0, source, dest, flags), frame, d.mtu);
  }
}
