/**
 * PacketProto framing: flow/PacketProtoEncoder.c puts a length before each packet, flow/PacketProtoDecoder.c cuts the
 * packets out of a byte stream that arrives in pieces of any size, using one fixed buffer.
 */
module PacketProto {
  import opened Common

  const HEADER_LEN: nat := 2

  type Packet = seq<Byte>

  // ---- encoding ----

  function Encode(p: Packet): (s: seq<Byte>)
    ensures |s| == HEADER_LEN + |p|
  {
    PutLE(|p|, 2) + p
  }

  function EncodeAll(ps: seq<Packet>): seq<Byte> {
    if ps == [] then [] else Encode(ps[0]) + EncodeAll(ps[1..])
  }

  /** All packets fit the decoder, whose limit is that of the wire format at most. */
  ghost predicate Fit(ps: seq<Packet>, mtu: nat) {
    mtu < TWO_16 && forall i :: 0 <= i < |ps| ==> |ps[i]| <= mtu
  }

  class Encoder {
    var outputPacket: seq<Byte>
    var haveOutput: bool

    constructor ()
      ensures !haveOutput
    {
      outputPacket, haveOutput := [], false;
    }

    method OutputHandlerRecv(buffer: seq<Byte>)
      requires !haveOutput
      modifies this
      ensures haveOutput && outputPacket == buffer
    {
      outputPacket, haveOutput := buffer, true;
    }

    /** The input has placed its packet after the room for the header; the header is written in front of it. */
    method InputHandlerDone(packet: Packet) returns (out: seq<Byte>)
      requires haveOutput && |packet| < TWO_16 && HEADER_LEN + |packet| <= |outputPacket|
      requires outputPacket[HEADER_LEN..HEADER_LEN + |packet|] == packet
      modifies this
      ensures !haveOutput && out == Encode(packet)
    {
      outputPacket := Splice(outputPacket, 0, PutLE(|packet|, 2));
      haveOutput := false;
      out := outputPacket[..HEADER_LEN + |packet|];
      assert out == Encode(packet);
    }
  }

  // ---- one step of the decoder ----

  datatype Outcome = Wait | Oversized | Emit(packet: Packet, rest: seq<Byte>)

  /** What process_data finds at the front of the received bytes. */
  function Parse(s: seq<Byte>, mtu: nat): (o: Outcome)
    ensures o.Emit? ==> |o.packet| <= mtu && |s| == HEADER_LEN + |o.packet| + |o.rest|
    ensures o.Wait? ==> |s| < HEADER_LEN + mtu
  {
    if |s| < HEADER_LEN then Wait
    else
      var len := GetLE(s[..HEADER_LEN]);
      if len > mtu then Oversized
      else if |s| - HEADER_LEN < len then Wait
      else Emit(s[HEADER_LEN..HEADER_LEN + len], s[HEADER_LEN + len..])
  }

  lemma ParseEncoded(p: Packet, rest: seq<Byte>, mtu: nat)
    requires |p| <= mtu < TWO_16
    ensures Parse(Encode(p) + rest, mtu) == Emit(p, rest)
  {
    Pow256Values();
    GetPutLE(|p|, 2);
    var s := Encode(p) + rest;
    assert s[..HEADER_LEN] == PutLE(|p|, 2);
    assert s[HEADER_LEN..HEADER_LEN + |p|] == p;
    assert s[HEADER_LEN + |p|..] == rest;
  }

  lemma ParseIsEncoded(s: seq<Byte>, mtu: nat)
    requires Parse(s, mtu).Emit?
    ensures s == Encode(Parse(s, mtu).packet) + Parse(s, mtu).rest
  {
    PutGetLE(s[..HEADER_LEN]);
    var len := GetLE(s[..HEADER_LEN]);
    assert s == s[..HEADER_LEN] + s[HEADER_LEN..HEADER_LEN + len] + s[HEADER_LEN + len..];
  }

  // ---- the decoder as a state machine ----

  /** `pending` are the bytes received and not yet handed on; `sending` says that a packet is with the output. */
  datatype Decoder = Decoder(pending: seq<Byte>, sending: bool, emitted: seq<Packet>, errors: nat)

  const DecoderInit := Decoder([], false, [], 0)

  /** process_data */
  function Process(d: Decoder, mtu: nat): Decoder {
    match Parse(d.pending, mtu)
    case Wait => d.(sending := false)
    case Oversized => d.(pending := [], sending := false, errors := d.errors + 1)
    case Emit(p, rest) => d.(pending := rest, sending := true, emitted := d.emitted + [p])
  }

  /** Data arrives from the stream, or the output is done with its packet. */
  datatype Event = Data(bytes: seq<Byte>) | OutputDone

  predicate Enabled(d: Decoder, e: Event) {
    if e.Data? then !d.sending && e.bytes != [] else d.sending
  }

  function Step(d: Decoder, mtu: nat, e: Event): Decoder {
    if e.Data? then Process(d.(pending := d.pending + e.bytes), mtu) else Process(d, mtu)
  }

  ghost predicate CanRun(d: Decoder, mtu: nat, es: seq<Event>)
    decreases |es|
  {
    es != [] ==> Enabled(d, es[0]) && CanRun(Step(d, mtu, es[0]), mtu, es[1..])
  }

  function Run(d: Decoder, mtu: nat, es: seq<Event>): Decoder
    decreases |es|
  {
    if es == [] then d else Run(Step(d, mtu, es[0]), mtu, es[1..])
  }

  /** All the bytes the stream delivers during a run. */
  function Received(es: seq<Event>): seq<Byte> {
    if es == [] then []
    else (if es[0].Data? then es[0].bytes else []) + Received(es[1..])
  }

  /** Between steps the decoder has handed on all it could: while it waits, no packet is complete. */
  ghost predicate Settled(d: Decoder, mtu: nat) {
    !d.sending ==> Parse(d.pending, mtu).Wait?
  }

  lemma {:induction false} EncodeAllAppend(ps: seq<Packet>, p: Packet)
    ensures EncodeAll(ps + [p]) == EncodeAll(ps) + Encode(p)
    decreases |ps|
  {
    hide Encode;
    if ps == [] {
      assert [p][1..] == [];
      assert EncodeAll([p]) == Encode(p) + [];
    } else {
      var t := ps + [p];
      assert t[0] == ps[0] && t[1..] == ps[1..] + [p];
      EncodeAllAppend(ps[1..], p);
      assert EncodeAll(t) == Encode(ps[0]) + EncodeAll(ps[1..]) + Encode(p);
    }
  }

  /** Without an error, the bytes received are the encoding of the packets handed on, and the pending bytes. */
  lemma ProcessConserves(d: Decoder, mtu: nat)
    ensures var d1 := Process(d, mtu);
      && Settled(d1, mtu)
      && (d1.errors == d.errors ==> EncodeAll(d1.emitted) + d1.pending == EncodeAll(d.emitted) + d.pending)
      && d1.errors >= d.errors
  {
    hide Encode, EncodeAll;
    if Parse(d.pending, mtu).Emit? {
      var o := Parse(d.pending, mtu);
      ParseIsEncoded(d.pending, mtu);
      EncodeAllAppend(d.emitted, o.packet);
      assert EncodeAll(d.emitted) + Encode(o.packet) + o.rest == EncodeAll(d.emitted) + (Encode(o.packet) + o.rest);
    }
  }

  lemma {:induction false} RunConserves(d: Decoder, mtu: nat, es: seq<Event>)
    requires Settled(d, mtu)
    ensures var d1 := Run(d, mtu, es);
      && Settled(d1, mtu) && d1.errors >= d.errors
      && (d1.errors == d.errors ==>
            EncodeAll(d1.emitted) + d1.pending == EncodeAll(d.emitted) + d.pending + Received(es))
    decreases |es|
  {
    hide Parse, EncodeAll, Process, Settled;
    if es == [] {
      assert EncodeAll(d.emitted) + d.pending + [] == EncodeAll(d.emitted) + d.pending;
    } else {
      var d0 := if es[0].Data? then d.(pending := d.pending + es[0].bytes) else d;
      ProcessConserves(d0, mtu);
      RunConserves(Step(d, mtu, es[0]), mtu, es[1..]);
      var rest := Received(es[1..]);
      if es[0].Data? {
        assert EncodeAll(d.emitted) + (d.pending + es[0].bytes) + rest ==
            EncodeAll(d.emitted) + d.pending + (es[0].bytes + rest);
      } else {
        assert [] + rest == rest;
      }
    }
  }

  /** A stream that starts with complete packets and one that starts like it have the same packets in front. */
  lemma {:induction false} FramingUnique(ps: seq<Packet>, qs: seq<Packet>, rest: seq<Byte>, more: seq<Byte>, mtu: nat)
    requires Fit(ps, mtu) && Fit(qs, mtu) && EncodeAll(qs) + rest + more == EncodeAll(ps)
    ensures qs <= ps
    ensures more == [] && Parse(rest, mtu).Wait? ==> qs == ps && rest == []
    decreases |qs|
  {
    hide Encode, Parse;
    if qs == [] {
      assert [] + rest + more == rest + more;
      if ps != [] && more == [] {
        assert rest + [] == rest;
        ParseEncoded(ps[0], EncodeAll(ps[1..]), mtu);
      }
    } else {
      var s := EncodeAll(ps);
      assert s == Encode(qs[0]) + (EncodeAll(qs[1..]) + rest + more);
      ParseEncoded(qs[0], EncodeAll(qs[1..]) + rest + more, mtu);
      EncodedNotEmpty(qs[0]);
      assert ps != [];
      ParseEncoded(ps[0], EncodeAll(ps[1..]), mtu);
      FramingUnique(ps[1..], qs[1..], rest, more, mtu);
      assert ps == [ps[0]] + ps[1..] && qs == [qs[0]] + qs[1..];
    }
  }

  lemma EncodedNotEmpty(p: Packet)
    ensures |Encode(p)| > 0
  {
  }

  /** A prefix of an encoded stream never looks oversized. */
  lemma {:induction false} NoError(ps: seq<Packet>, qs: seq<Packet>, rest: seq<Byte>, more: seq<Byte>, mtu: nat)
    requires Fit(ps, mtu) && Fit(qs, mtu) && EncodeAll(qs) + rest + more == EncodeAll(ps)
    ensures !Parse(rest, mtu).Oversized?
    decreases |qs|
  {
    hide Encode;
    if qs == [] {
      assert [] + rest + more == rest + more;
      if |rest| >= HEADER_LEN {
        assert |rest + more| > 0;
        if ps != [] {
          ParseEncoded(ps[0], EncodeAll(ps[1..]), mtu);
          assert (rest + more)[..HEADER_LEN] == rest[..HEADER_LEN];
        }
      }
    } else {
      ParseEncoded(qs[0], EncodeAll(qs[1..]) + rest + more, mtu);
      assert EncodeAll(ps) == Encode(qs[0]) + (EncodeAll(qs[1..]) + rest + more);
      EncodedNotEmpty(qs[0]);
      ParseEncoded(ps[0], EncodeAll(ps[1..]), mtu);
      NoError(ps[1..], qs[1..], rest, more, mtu);
    }
  }

  lemma {:induction false} EmittedFit(d: Decoder, mtu: nat, es: seq<Event>)
    requires Fit(d.emitted, mtu)
    ensures Fit(Run(d, mtu, es).emitted, mtu)
    decreases |es|
  {
    hide Parse;
    if es != [] {
      EmittedFit(Step(d, mtu, es[0]), mtu, es[1..]);
    }
  }

  /** While the bytes are a prefix of an encoded stream the decoder reports no error. */
  lemma {:induction false} RunWithoutError(d: Decoder, mtu: nat, es: seq<Event>, ps: seq<Packet>, more: seq<Byte>)
    requires Fit(ps, mtu) && Fit(d.emitted, mtu) && Settled(d, mtu)
    requires EncodeAll(d.emitted) + d.pending + Received(es) + more == EncodeAll(ps)
    ensures Run(d, mtu, es).errors == d.errors
    decreases |es|
  {
    hide Parse, EncodeAll, Settled;
    if es != [] {
      var d0 := if es[0].Data? then d.(pending := d.pending + es[0].bytes) else d;
      var rest := Received(es[1..]);
      var all := EncodeAll(d0.emitted);
      if es[0].Data? {
        assert all + d.pending + (es[0].bytes + rest) + more == all + d0.pending + (rest + more);
        assert all + d0.pending + (rest + more) == all + d0.pending + rest + more;
      } else {
        assert [] + rest == rest;
        assert all + d0.pending + rest + more == all + d0.pending + (rest + more);
      }
      NoError(ps, d0.emitted, d0.pending, rest + more, mtu);
      ProcessConserves(d0, mtu);
      ProcessFit(d0, mtu);
      RunWithoutError(Process(d0, mtu), mtu, es[1..], ps, more);
    }
  }

  lemma ProcessFit(d: Decoder, mtu: nat)
    requires Fit(d.emitted, mtu)
    ensures Fit(Process(d, mtu).emitted, mtu)
    ensures !Parse(d.pending, mtu).Oversized? ==> Process(d, mtu).errors == d.errors
  {
  }

  /**
   * Framing: for any packets within the limit and any way the encoded stream is cut into reads, the decoder hands on
   * exactly those packets, in order and unaltered, never reporting an error; when all has arrived and the output is
   * idle nothing is missing and nothing is left over.
   */
  lemma Framing(mtu: nat, ps: seq<Packet>, es: seq<Event>, more: seq<Byte>)
    requires Fit(ps, mtu) && CanRun(DecoderInit, mtu, es) && Received(es) + more == EncodeAll(ps)
    ensures var d := Run(DecoderInit, mtu, es);
      && d.errors == 0 && d.emitted <= ps
      && (more == [] && !d.sending ==> d.emitted == ps && d.pending == [])
  {
    var d0, d := DecoderInit, Run(DecoderInit, mtu, es);
    assert EncodeAll(d0.emitted) + d0.pending + Received(es) == Received(es);
    RunWithoutError(d0, mtu, es, ps, more);
    RunConserves(d0, mtu, es);
    EmittedFit(d0, mtu, es);
    FramingUnique(ps, d.emitted, d.pending, more, mtu);
  }

  /** PacketProtoDecoder_Reset: what has not been handed on is forgotten. */
  function Forget(d: Decoder): Decoder {
    d.(pending := [])
  }

  /** The decoder after the streams `ss`, each of them cut off by a reset, whatever came in on them. */
  function Sessions(mtu: nat, ss: seq<seq<Event>>): Decoder {
    if ss == [] then DecoderInit else Forget(Run(Sessions(mtu, ss[..|ss| - 1]), mtu, ss[|ss| - 1]))
  }

  lemma {:induction false} SessionsFit(mtu: nat, ss: seq<seq<Event>>)
    requires mtu < TWO_16
    ensures var d := Sessions(mtu, ss); Fit(d.emitted, mtu) && Settled(d, mtu) && d.pending == []
    decreases |ss|
  {
    hide Run;
    if ss != [] {
      SessionsFit(mtu, ss[..|ss| - 1]);
      EmittedFit(Sessions(mtu, ss[..|ss| - 1]), mtu, ss[|ss| - 1]);
    }
  }

  lemma {:induction false} EncodeAllConcat(ps: seq<Packet>, qs: seq<Packet>)
    ensures EncodeAll(ps + qs) == EncodeAll(ps) + EncodeAll(qs)
    decreases |ps|
  {
    hide Encode;
    if ps == [] {
      assert ps + qs == qs;
    } else {
      EncodeAllConcat(ps[1..], qs);
      assert (ps + qs)[1..] == ps[1..] + qs;
    }
  }

  /**
   * Framing after a reset: whatever came in before, malformed or cut off anywhere, and even if a packet of it is still
   * with the output, the decoder hands on exactly the packets of the next stream and reports no further error.
   */
  lemma FramingAfterReset(mtu: nat, ss: seq<seq<Event>>, ps: seq<Packet>, es: seq<Event>, more: seq<Byte>)
    requires Fit(ps, mtu) && CanRun(Sessions(mtu, ss), mtu, es) && Received(es) + more == EncodeAll(ps)
    ensures var d, d1 := Sessions(mtu, ss), Run(Sessions(mtu, ss), mtu, es);
      && d1.errors == d.errors && d.emitted <= d1.emitted <= d.emitted + ps
      && (more == [] && !d1.sending ==> d1.emitted == d.emitted + ps && d1.pending == [])
  {
    hide Run, EncodeAll, CanRun, Sessions;
    var d, d1 := Sessions(mtu, ss), Run(Sessions(mtu, ss), mtu, es);
    SessionsFit(mtu, ss);
    EncodeAllConcat(d.emitted, ps);
    assert EncodeAll(d.emitted) + [] + Received(es) + more == EncodeAll(d.emitted) + (Received(es) + more);
    RunWithoutError(d, mtu, es, d.emitted + ps, more);
    RunConserves(d, mtu, es);
    EmittedFit(d, mtu, es);
    EmittedGrows(d, mtu, es);
    FramingUnique(d.emitted + ps, d1.emitted, d1.pending, more, mtu);
  }

  lemma {:induction false} EmittedGrows(d: Decoder, mtu: nat, es: seq<Event>)
    ensures d.emitted <= Run(d, mtu, es).emitted
    decreases |es|
  {
    hide Parse;
    if es != [] {
      EmittedGrows(Step(d, mtu, es[0]), mtu, es[1..]);
    }
  }

  lemma SliceOfSlice(s: seq<Byte>, at: nat, n: nat, a: nat, b: nat)
    requires at + n <= |s| && a <= b <= n
    ensures s[at..at + n][a..b] == s[at + a..at + b]
  {
    var l, r := s[at..at + n][a..b], s[at + a..at + b];
    forall i | 0 <= i < b - a ensures l[i] == r[i] {
      assert l[i] == s[at + (a + i)];
    }
  }

  lemma WaitLeavesRoom(s: seq<Byte>, mtu: nat)
    ensures Parse(s, mtu) == Wait ==> |s| < HEADER_LEN + mtu
  {
  }

  /** The three outcomes read off a buffer that holds the pending bytes at `at`. */
  lemma ParseInPlace(s: seq<Byte>, at: nat, n: nat, mtu: nat)
    requires at + n <= |s|
    ensures n < HEADER_LEN ==> Parse(s[at..at + n], mtu) == Wait
    ensures n >= HEADER_LEN ==>
      var len := GetLE(s[at..at + HEADER_LEN]);
      && (len > mtu ==> Parse(s[at..at + n], mtu) == Oversized)
      && (len <= mtu && n - HEADER_LEN < len ==> Parse(s[at..at + n], mtu) == Wait)
      && (len <= mtu && n - HEADER_LEN >= len ==>
            Parse(s[at..at + n], mtu) == Emit(s[at + HEADER_LEN..at + HEADER_LEN + len],
                                              s[at + HEADER_LEN + len..at + n]))
  {
    if n >= HEADER_LEN {
      SliceOfSlice(s, at, n, 0, HEADER_LEN);
      var len := GetLE(s[at..at + HEADER_LEN]);
      if n - HEADER_LEN >= len {
        SliceOfSlice(s, at, n, HEADER_LEN, HEADER_LEN + len);
        SliceOfSlice(s, at, n, HEADER_LEN + len, n);
        assert s[at..at + n][HEADER_LEN + len..] == s[at..at + n][HEADER_LEN + len..n];
      }
    }
  }

  // ---- the object ----

  /** memmove to the start of the same buffer. */
  method MemMove(a: array<Byte>, from: nat, n: nat)
    requires from + n <= a.Length
    modifies a
    ensures a[..n] == old(a[from..from + n])
  {
    ghost var moved := a[from..from + n];
    var i: nat := 0;
    while i < n
      invariant i <= n
      invariant forall k :: 0 <= k < i ==> a[k] == moved[k]
      invariant forall k :: i <= k < n ==> moved[k] == a[from + k]
    {
      a[i] := a[from + i];
      i := i + 1;
    }
  }

  class PacketProtoDecoder {
    const outputMtu: nat
    const buf: array<Byte>
    var bufStart: nat
    var bufUsed: nat
    ghost var model: Decoder

    ghost predicate InBounds()
      reads this
    {
      outputMtu < TWO_16 && buf.Length == HEADER_LEN + outputMtu && bufStart + bufUsed <= buf.Length
    }

    ghost function Pending(): seq<Byte>
      requires InBounds()
      reads this, buf
    {
      buf[bufStart..bufStart + bufUsed]
    }

    /** When the decoder waits for data there is always room to receive into, and never past the end of the buffer. */
    ghost predicate Valid()
      reads this, buf
    {
      && InBounds() && Settled(model, outputMtu)
      && model.pending == Pending()
      && (!model.sending ==> bufStart + bufUsed < buf.Length)
    }

    constructor (outputMtu: nat)
      requires outputMtu < TWO_16
      ensures Valid() && this.outputMtu == outputMtu && fresh(buf) && model == DecoderInit
    {
      this.outputMtu := outputMtu;
      buf := new Byte[HEADER_LEN + outputMtu];
      bufStart, bufUsed := 0, 0;
      model := DecoderInit;
    }

    /** Offset of the room offered to the input, and its size. */
    method Offer() returns (at: nat, room: nat)
      requires Valid() && !model.sending
      ensures room > 0 && at + room == buf.Length && at == bufStart + bufUsed
    {
      at := bufStart + bufUsed;
      room := buf.Length - at;
    }

    /** The unprocessed bytes go to the start of the buffer. */
    method Wrap()
      requires InBounds()
      modifies this`bufStart, buf
      ensures InBounds() && bufStart == 0 && Pending() == old(Pending())
    {
      MemMove(buf, bufStart, bufUsed);
      bufStart := 0;
    }

    /** Reads the header of the pending bytes, as far as it is there, and moves past a packet that is all there. */
    method Look() returns (o: Outcome)
      requires InBounds()
      modifies this`bufStart, this`bufUsed
      ensures InBounds() && o == Parse(old(Pending()), outputMtu)
      ensures o.Emit? ==> |o.packet| <= bufStart && o.packet == buf[bufStart - |o.packet|..bufStart]
      ensures o.Emit? ==> o.rest == Pending()
      ensures !o.Emit? ==> bufStart == old(bufStart) && bufUsed == old(bufUsed)
    {
      hide Parse;
      ParseInPlace(buf[..], bufStart, bufUsed, outputMtu);
      assert buf[..][bufStart..bufStart + bufUsed] == Pending();
      if bufUsed < HEADER_LEN {
        return Wait;
      }
      assert buf[..][bufStart..bufStart + HEADER_LEN] == buf[bufStart..bufStart + HEADER_LEN];
      var dataLen := GetLE(buf[bufStart..bufStart + HEADER_LEN]);
      if dataLen > outputMtu {
        return Oversized;
      }
      if bufUsed - HEADER_LEN < dataLen {
        return Wait;
      }
      var end := bufStart + HEADER_LEN + dataLen;
      assert buf[..][bufStart + HEADER_LEN..end] == buf[bufStart + HEADER_LEN..end];
      assert buf[..][end..bufStart + bufUsed] == buf[end..bufStart + bufUsed];
      o := Emit(buf[bufStart + HEADER_LEN..end], buf[end..bufStart + bufUsed]);
      bufStart, bufUsed := end, bufUsed - HEADER_LEN - dataLen;
    }

    /** A result is the packet handed to the output; it lies just before bufStart and stays there while it is sent. */
    method ProcessData() returns (packet: Option<Packet>, error: bool)
      requires InBounds() && model.pending == Pending()
      modifies this, buf
      ensures Valid() && model == Process(old(model), outputMtu)
      ensures packet.Some? <==> model.sending
      ensures packet.Some? ==> |packet.value| <= bufStart && packet.value == buf[bufStart - |packet.value|..bufStart]
      ensures packet.Some? ==> model.emitted == old(model).emitted + [packet.value] && buf[..] == old(buf[..])
      ensures error <==> model.errors > old(model).errors
    {
      hide Parse, Settled, GetLE, EncodeAll;
      ProcessConserves(model, outputMtu);
      WaitLeavesRoom(model.pending, outputMtu);
      packet, error := None, false;
      var o := Look();
      model := Process(model, outputMtu);
      match o {
        case Emit(p, _) =>
          packet := Some(p);
        case Oversized =>
          error := true;
          bufStart, bufUsed := 0, 0;
        case Wait =>
          if bufStart + bufUsed == buf.Length {
            Wrap();
          }
      }
    }

    /** The bytes the stream writes after the pending ones. */
    method StoreInput(data: seq<Byte>)
      requires InBounds() && |data| <= buf.Length - (bufStart + bufUsed)
      modifies this`bufUsed, buf
      ensures InBounds() && Pending() == old(Pending()) + data
    {
      var at := bufStart + bufUsed;
      var i: nat := 0;
      while i < |data|
        invariant i <= |data| && buf[bufStart..at] == old(buf[bufStart..at])
        invariant forall k :: 0 <= k < i ==> data[k] == buf[at + k]
        modifies buf
      {
        buf[at + i] := data[i];
        i := i + 1;
      }
      assert buf[at..at + |data|] == data;
      assert buf[bufStart..at + |data|] == buf[bufStart..at] + buf[at..at + |data|];
      bufUsed := bufUsed + |data|;
    }

    /** The stream has written `data` into the room offered. */
    method InputHandlerDone(data: seq<Byte>) returns (packet: Option<Packet>, error: bool)
      requires Valid() && !model.sending && 0 < |data| <= buf.Length - (bufStart + bufUsed)
      modifies this, buf
      ensures Valid() && model == Step(old(model), outputMtu, Data(data))
      ensures packet.Some? <==> model.sending
      ensures packet.Some? ==> model.emitted == old(model).emitted + [packet.value]
      ensures error <==> model.errors > old(model).errors
    {
      hide Settled, Process;
      StoreInput(data);
      model := model.(pending := model.pending + data);
      packet, error := ProcessData();
    }

    method OutputHandlerDone() returns (packet: Option<Packet>, error: bool)
      requires Valid() && model.sending
      modifies this, buf
      ensures Valid() && model == Step(old(model), outputMtu, OutputDone)
      ensures packet.Some? <==> model.sending
      ensures packet.Some? ==> model.emitted == old(model).emitted + [packet.value]
      ensures error <==> model.errors > old(model).errors
    {
      packet, error := ProcessData();
    }

    /** The next data is treated as a new stream. */
    method Reset()
      requires Valid()
      modifies this`bufStart, this`bufUsed, this`model
      ensures Valid() && model == Forget(old(model))
      ensures bufStart + bufUsed == old(bufStart + bufUsed)
    {
      bufStart := bufStart + bufUsed;
      bufUsed := 0;
      model := Forget(model);
    }
  }
}
