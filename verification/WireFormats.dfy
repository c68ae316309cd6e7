/**
 * The bytes on the wire, field by field, as the packed structures under protocol/ lay them out: chunks, packets on a
 * stream, messages, data packets and secured packets.
 */
module WireFormats {
  import opened Common
  import BProto
  import FragmentModel
  import PacketProto
  import RouteBuffer
  import SPProto

  // ---- integers ----

  /** Byte `i` of a little-endian integer is its digit of weight 256 to the `i`. */
  lemma {:induction false} DigitLE(v: nat, n: nat, i: nat)
    requires i < n
    ensures PutLE(v, n)[i] == (v / Pow256(i)) % 256
    decreases i
  {
    if i > 0 {
      DigitLE(v / 256, n - 1, i - 1);
      DivideTwice(v, Pow256(i - 1));
    }
  }

  lemma DivideTwice(v: nat, d: nat)
    requires d > 0
    ensures v / 256 / d == v / (256 * d)
  {
    var q, r := v / 256 / d, v / 256 % d;
    var low := v % 256;
    assert v == 256 * (q * d + r) + low;
    assert v == q * (256 * d) + (256 * r + low);
    assert 0 <= 256 * r + low < 256 * d;
    Quotient(v, 256 * d, q, 256 * r + low);
  }

  lemma Quotient(v: nat, d: nat, q: nat, r: nat)
    requires d > 0 && v == q * d + r && r < d
    ensures v / d == q
  {
    var q1, r1 := v / d, v % d;
    assert v == q1 * d + r1;
    if q1 > q {
      Apart(q1, q, d);
    } else if q > q1 {
      Apart(q, q1, d);
    }
  }

  lemma Apart(a: nat, b: nat, d: nat)
    requires a > b
    ensures a * d >= b * d + d
  {
    assert a * d == b * d + (a - b) * d;
    SPProto.MulApart(d, a - b);
  }

  lemma Two(v: nat)
    requires v < TWO_16
    ensures PutLE(v, 2) == [v % 256, v / 256]
  {
    assert PutLE(v / 256 / 256, 0) == [];
    assert PutLE(v / 256, 1) == [v / 256 % 256] + [];
  }

  lemma Four(v: nat)
    requires v < TWO_32
    ensures PutLE(v, 4) == [v % 256, v / 256 % 256, v / 0x1_0000 % 256, v / 0x100_0000]
  {
    Pow256Values();
    assert Pow256(3) == 0x100_0000;
    var s := PutLE(v, 4);
    DigitLE(v, 4, 0);
    DigitLE(v, 4, 1);
    DigitLE(v, 4, 2);
    DigitLE(v, 4, 3);
    assert s == [s[0], s[1], s[2], s[3]];
  }

  // ---- packets ----

  /** Frame id, start, length, last mark, and the bytes. */
  lemma ChunkBytes(c: FragmentModel.Chunk)
    requires FragmentModel.WireOk(c)
    ensures var start, len := c.piece.start, |c.piece.data|;
      FragmentModel.EncodeChunk(c) ==
        [c.id % 256, c.id / 256, start % 256, start / 256, len % 256, len / 256, if c.piece.last then 1 else 0]
        + c.piece.data
  {
    Two(c.id);
    Two(c.piece.start);
    Two(|c.piece.data|);
  }

  /** The length, and the packet. */
  lemma PacketBytes(p: seq<Byte>)
    requires |p| < TWO_16
    ensures PacketProto.Encode(p) == [|p| % 256, |p| / 256] + p
  {
    Two(|p|);
  }

  /** A number: id, type, and its bytes; data: id, type, length, and the bytes. */
  lemma RecordBytes(r: BProto.Rec)
    requires BProto.WellFormed(r)
    ensures var len := |r.body|;
      BProto.EncodeRec(r) ==
        [r.id % 256, r.id / 256, r.ty, 0] +
        (if r.ty <= 4 then [] else [len % 256, len / 256 % 256, len / 0x1_0000 % 256, len / 0x100_0000]) + r.body
  {
    Two(r.id);
    Two(r.ty);
    if r.ty > 4 {
      Four(|r.body|);
    }
  }

  /** Flags, the peer the frame comes from, the number of destinations, which is one, and the destination. */
  lemma DataHeaderBytes(d: RouteBuffer.Dest)
    requires d.sourceId < TWO_16 && d.destId < TWO_16
    ensures RouteBuffer.Header(d) ==
      [d.flags, d.sourceId % 256, d.sourceId / 256, 1, 0, d.destId % 256, d.destId / 256]
  {
    Two(d.sourceId);
    Two(1);
    Two(d.destId);
  }

  /** What a message must hold of each field. */
  lemma CardinalitiesMean(sc: BProto.Schema, rs: seq<BProto.Rec>)
    ensures BProto.Accepts(sc, rs) <==>
      && (forall k :: 0 <= k < |rs| ==> BProto.Known(sc, rs[k]))
      && (forall i :: 0 <= i < |sc| ==> FieldCounts(sc[i].card, |BProto.ValuesOf(rs, sc[i].id)|))
  {
    hide BProto.Known, BProto.ValuesOf;
  }

  predicate FieldCounts(card: BProto.Cardinality, n: nat) {
    && (card.Required? || card.RequiredRepeated? ==> n >= 1)
    && (card.Required? || card.Optional? ==> n <= 1)
  }

  // ---- secured packets ----

  /** The plaintext is the password, the hash, and the payload; the hash is of all that, with zeros in its place. */
  lemma PlaintextBytes(p: SPProto.Params, su: SPProto.Suite, o: SPProto.Otp, payload: seq<Byte>)
    requires SPProto.OtpOk(o) && SPProto.HashOk(p, su)
    ensures var x := SPProto.Plaintext(p, su, o, payload); var at := if p.haveOtp then 6 else 0;
      && |x| == at + p.hashLen + |payload| && x[at + p.hashLen..] == payload
      && (p.haveOtp ==> x[..6] == [o.seedId % 256, o.seedId / 256] + o.otp)
      && (p.hashLen > 0 ==>
            x[at..at + p.hashLen] == su.hash(x[..at] + seq(p.hashLen, _ => 0) + x[at + p.hashLen..]))
  {
    Two(o.seedId);
    var head := SPProto.OtpData(p, o);
    var at, zeros := |head|, SPProto.Zeros(p.hashLen);
    var x := SPProto.Plaintext(p, su, o, payload);
    var h := if p.hashLen == 0 then zeros else su.hash(head + zeros + payload);
    assert x == head + h + payload && |h| == p.hashLen;
    assert x[..at] == head && x[at..at + p.hashLen] == h && x[at + p.hashLen..] == payload;
    assert zeros == seq(p.hashLen, _ => 0);
  }

  /**
   * An encrypted packet is the initialization vector in the clear, and then what decrypts under it to the plaintext,
   * a one and zeros up to whole blocks.
   */
  lemma EncryptedBytes(p: SPProto.Params, su: SPProto.Suite, o: SPProto.Otp, iv: seq<Byte>, payload: seq<Byte>)
    requires SPProto.OtpOk(o) && SPProto.CipherOk(p, su) && p.block > 0 && |iv| == p.block
    ensures var packet, x := SPProto.Encode(p, su, o, iv, payload), SPProto.Plaintext(p, su, o, payload);
      && |packet| >= p.block && packet[..p.block] == iv
      && var y := su.decrypt(iv, packet[p.block..]);
      && |y| % p.block == 0 && |x| < |y| <= |x| + p.block && y[..|x|] == x && y[|x|] == 1
      && forall k :: |x| < k < |y| ==> y[k] == 0
  {
    hide SPProto.Plaintext, SPProto.HashOff;
    var x := SPProto.Plaintext(p, su, o, payload);
    var y := SPProto.Padded(x, p.block);
    SPProto.AlignUpFacts(|x| + 1, p.block);
    var packet := iv + su.encrypt(iv, y);
    assert packet[p.block..] == su.encrypt(iv, y);
    assert su.decrypt(iv, su.encrypt(iv, y)) == y;
  }

  /**
   * Two different plaintexts that both pass under the same hash field are, but for that field, a collision of the
   * hash.
   */
  lemma ForgeryIsCollision(p: SPProto.Params, su: SPProto.Suite, mtu: nat, x: seq<Byte>, y: seq<Byte>)
    requires p.hashLen > 0 && x != y
    requires SPProto.DecodePlaintext(p, su, mtu, x).Some? && SPProto.DecodePlaintext(p, su, mtu, y).Some?
    requires x[SPProto.HashOff(p)..SPProto.HeaderLen(p)] == y[SPProto.HashOff(p)..SPProto.HeaderLen(p)]
    ensures SPProto.ZeroHash(p, x) != SPProto.ZeroHash(p, y)
    ensures su.hash(SPProto.ZeroHash(p, x)) == su.hash(SPProto.ZeroHash(p, y))
  {
    SameRest(p, x, y);
  }

  lemma SameRest(p: SPProto.Params, x: seq<Byte>, y: seq<Byte>)
    requires SPProto.HeaderLen(p) <= |x| && SPProto.HeaderLen(p) <= |y|
    requires x[SPProto.HashOff(p)..SPProto.HeaderLen(p)] == y[SPProto.HashOff(p)..SPProto.HeaderLen(p)]
    ensures SPProto.ZeroHash(p, x) == SPProto.ZeroHash(p, y) ==> x == y
  {
    var u, v := SPProto.ZeroHash(p, x), SPProto.ZeroHash(p, y);
    var at, end := SPProto.HashOff(p), SPProto.HeaderLen(p);
    assert u[..at] == x[..at] && v[..at] == y[..at] && u[end..] == x[end..] && v[end..] == y[end..];
    assert x == x[..at] + x[at..end] + x[end..];
    assert y == y[..at] + y[at..end] + y[end..];
  }
}
