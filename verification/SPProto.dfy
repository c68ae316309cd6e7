/**
 * The packet format of protocol/spproto.h as client/SPProtoEncoder.c writes it and client/SPProtoDecoder.c reads it,
 * for any cipher and any hash function. The one-time password is carried, and checked elsewhere.
 */
module SPProto {
  import opened Common

  const OTPDATA_LEN: nat := 6
  const INT_MAX: nat := 0x7FFF_FFFF

  /** `hashLen` is 0 for no hashes and `block` is 0 for no encryption. */
  datatype Params = Params(haveOtp: bool, hashLen: nat, block: nat)

  /** The hash function, and encryption and decryption under the key agreed on, each given the initialization vector. */
  datatype Suite = Suite(hash: seq<Byte> -> seq<Byte>,
                         encrypt: (seq<Byte>, seq<Byte>) -> seq<Byte>,
                         decrypt: (seq<Byte>, seq<Byte>) -> seq<Byte>)

  ghost predicate HashOk(p: Params, su: Suite) {
    forall x :: |su.hash(x)| == p.hashLen
  }

  /** The cipher keeps lengths and its two directions undo each other, on whole blocks. */
  ghost predicate CipherOk(p: Params, su: Suite) {
    && (forall iv, x :: |su.encrypt(iv, x)| == |x| && |su.decrypt(iv, x)| == |x|)
    && (forall iv, x :: p.block > 0 && |x| % p.block == 0 ==>
        su.decrypt(iv, su.encrypt(iv, x)) == x && su.encrypt(iv, su.decrypt(iv, x)) == x)
  }

  ghost predicate SuiteOk(p: Params, su: Suite) {
    HashOk(p, su) && CipherOk(p, su)
  }

  function HashOff(p: Params): nat { if p.haveOtp then OTPDATA_LEN else 0 }
  function HeaderLen(p: Params): nat { HashOff(p) + p.hashLen }

  function Zeros(n: nat): (z: seq<Byte>)
    ensures |z| == n && forall i :: 0 <= i < n ==> z[i] == 0
  {
    seq(n, _ => 0)
  }

  // ---- alignment ----

  function AlignUp(x: nat, n: nat): nat
    requires n > 0
  {
    if x % n != 0 then x + (n - x % n) else x
  }

  function AlignDown(x: nat, n: nat): nat
    requires n > 0
  {
    x - x % n
  }

  lemma MulApart(n: nat, d: int)
    ensures (d >= 1 ==> n * d >= n) && (d <= -1 ==> n * d <= 0 - n)
  {
  }

  /** Multiples less than one step apart are equal. */
  lemma MultiplesApart(a: nat, b: nat, n: nat)
    requires n > 0 && a % n == 0 && b % n == 0 && a < b + n
    ensures a <= b
  {
    var q, r := a / n, b / n;
    assert a == n * q && b == n * r;
    MulApart(n, q - r);
    assert n * (q - r) == n * q - n * r;
  }

  lemma AddMultiple(a: nat, n: nat)
    requires n > 0 && a % n == 0
    ensures (a + n) % n == 0 && (a >= n ==> (a - n) % n == 0)
  {
    var q := a / n;
    assert a == n * q && a + n == n * (q + 1);
    ModOfMultiple(q + 1, n);
    if a >= n {
      assert q >= 1 && a - n == n * (q - 1);
      ModOfMultiple(q - 1, n);
    }
  }

  lemma ModOfMultiple(q: nat, n: nat)
    requires n > 0
    ensures (n * q) % n == 0
  {
    var r, k := (n * q) % n, (n * q) / n;
    assert n * q == n * k + r && 0 <= r < n;
    assert n * (q - k) == r;
    MulApart(n, q - k);
  }

  lemma AlignUpFacts(x: nat, n: nat)
    requires n > 0
    ensures x <= AlignUp(x, n) < x + n && AlignUp(x, n) % n == 0
  {
    var q, r := x / n, x % n;
    assert x == n * q + r;
    if r != 0 {
      assert AlignUp(x, n) == n * (q + 1);
      ModOfMultiple(q + 1, n);
    }
  }

  /** The one multiple that is less than a step above. */
  lemma AlignUpUnique(x: nat, n: nat, m: nat)
    requires n > 0 && m % n == 0 && x <= m < x + n
    ensures m == AlignUp(x, n)
  {
    AlignUpFacts(x, n);
    MultiplesApart(m, AlignUp(x, n), n);
    MultiplesApart(AlignUp(x, n), m, n);
  }

  lemma AlignUpLeast(x: nat, n: nat, m: nat)
    requires n > 0 && m % n == 0
    ensures AlignUp(x, n) <= m <==> x <= m
  {
    AlignUpFacts(x, n);
    if x <= m {
      MultiplesApart(AlignUp(x, n), m, n);
    }
  }

  lemma AlignDownFacts(x: nat, n: nat)
    requires n > 0
    ensures AlignDown(x, n) % n == 0 && AlignDown(x, n) <= x < AlignDown(x, n) + n
  {
    var q := x / n;
    assert AlignDown(x, n) == n * q;
    ModOfMultiple(q, n);
  }

  lemma AlignDownGreatest(x: nat, n: nat, m: nat)
    requires n > 0 && m % n == 0
    ensures m <= AlignDown(x, n) <==> m <= x
  {
    AlignDownFacts(x, n);
    if m <= x {
      MultiplesApart(m, AlignDown(x, n), n);
    }
  }

  // ---- encoding ----

  /** The one-time password with the number of its seed. */
  datatype Otp = Otp(seedId: nat, otp: seq<Byte>)

  predicate OtpOk(o: Otp) {
    o.seedId < TWO_16 && |o.otp| == 4
  }

  function OtpData(p: Params, o: Otp): (s: seq<Byte>)
    requires OtpOk(o)
    ensures |s| == HashOff(p)
  {
    if p.haveOtp then PutLE(o.seedId, 2) + o.otp else []
  }

  /** Header and payload, with the hash taken while its own field is zero. */
  function Plaintext(p: Params, su: Suite, o: Otp, payload: seq<Byte>): seq<Byte>
    requires OtpOk(o)
  {
    var zeroed := OtpData(p, o) + Zeros(p.hashLen) + payload;
    if p.hashLen == 0 then zeroed else OtpData(p, o) + su.hash(zeroed) + payload
  }

  function Padded(x: seq<Byte>, block: nat): (y: seq<Byte>)
    requires block > 0
    ensures |y| == AlignUp(|x| + 1, block)
  {
    AlignUpFacts(|x| + 1, block);
    x + [1] + Zeros(AlignUp(|x| + 1, block) - (|x| + 1))
  }

  function Encode(p: Params, su: Suite, o: Otp, iv: seq<Byte>, payload: seq<Byte>): seq<Byte>
    requires OtpOk(o)
  {
    var x := Plaintext(p, su, o, payload);
    if p.block == 0 then x else iv + su.encrypt(iv, Padded(x, p.block))
  }

  // ---- decoding ----

  datatype Decoded = Decoded(otp: Otp, payload: seq<Byte>)

  const NO_OTP := Otp(0, [0, 0, 0, 0])

  /** Where the padding of the last block begins. */
  ghost predicate PaddingAt(x: seq<Byte>, block: nat, i: nat) {
    && |x| >= block && |x| - block <= i < |x|
    && x[i] == 1 && (forall k :: i < k < |x| ==> x[k] == 0)
  }

  lemma PaddingUnique(x: seq<Byte>, block: nat, i: nat, j: nat)
    requires PaddingAt(x, block, i) && PaddingAt(x, block, j)
    ensures i == j
  {
  }

  ghost function PlaintextEnd(x: seq<Byte>, block: nat): Option<nat> {
    if exists i: nat :: PaddingAt(x, block, i) then (var i: nat :| PaddingAt(x, block, i); Some(i)) else None
  }

  function ZeroHash(p: Params, x: seq<Byte>): seq<Byte>
    requires HeaderLen(p) <= |x|
  {
    x[..HashOff(p)] + Zeros(p.hashLen) + x[HeaderLen(p)..]
  }

  /** What the decoder makes of a plaintext: too short, too long for the output, wrong hash, or the packet. */
  function DecodePlaintext(p: Params, su: Suite, mtu: nat, x: seq<Byte>): (d: Option<Decoded>)
    ensures d.Some? ==> OtpOk(d.value.otp) && |d.value.payload| <= mtu
  {
    if |x| < HeaderLen(p) || |x| - HeaderLen(p) > mtu then None
    else if p.hashLen > 0 && x[HashOff(p)..HeaderLen(p)] != su.hash(ZeroHash(p, x)) then None
    else
      Pow256Values();
      PutGetLE(if p.haveOtp then x[..2] else [0, 0]);
      Some(Decoded(if p.haveOtp then Otp(GetLE(x[..2]), x[2..6]) else NO_OTP, x[HeaderLen(p)..]))
  }

  ghost function Decode(p: Params, su: Suite, haveKey: bool, mtu: nat, packet: seq<Byte>): Option<Decoded> {
    if p.block == 0 then DecodePlaintext(p, su, mtu, packet)
    else if |packet| % p.block != 0 || |packet| < p.block || !haveKey then None
    else
      var x := su.decrypt(packet[..p.block], packet[p.block..]);
      var end := PlaintextEnd(x, p.block);
      if end.None? || end.value > |x| then None else DecodePlaintext(p, su, mtu, x[..end.value])
  }

  // ---- round trip ----

  /** The padding scan stops exactly at the end of the plaintext, whatever its last bytes are. */
  lemma PaddedEnd(x: seq<Byte>, block: nat)
    requires block > 0
    ensures PlaintextEnd(Padded(x, block), block) == Some(|x|)
  {
    var y := Padded(x, block);
    AlignUpFacts(|x| + 1, block);
    MultiplesApart(block, |y|, block);
    assert PaddingAt(y, block, |x|);
    var i := PlaintextEnd(y, block).value;
    PaddingUnique(y, block, |x|, i);
  }

  /** What the scan accepts is exactly a padded plaintext. */
  lemma UnpaddedIsPadded(y: seq<Byte>, block: nat, i: nat)
    requires block > 0 && |y| % block == 0 && PaddingAt(y, block, i)
    ensures y == Padded(y[..i], block)
  {
    AlignUpUnique(i + 1, block, |y|);
  }

  lemma PlaintextDecodes(p: Params, su: Suite, mtu: nat, o: Otp, payload: seq<Byte>)
    requires HashOk(p, su) && OtpOk(o) && |payload| <= mtu
    ensures DecodePlaintext(p, su, mtu, Plaintext(p, su, o, payload)) ==
              Some(Decoded(if p.haveOtp then o else NO_OTP, payload))
  {
    hide PutLE, GetLE;
    var x := Plaintext(p, su, o, payload);
    var zeroed := OtpData(p, o) + Zeros(p.hashLen) + payload;
    assert |x| == HeaderLen(p) + |payload|;
    assert x[..HashOff(p)] == OtpData(p, o) && x[HeaderLen(p)..] == payload;
    if p.hashLen > 0 {
      assert x[HashOff(p)..HeaderLen(p)] == su.hash(zeroed);
      assert ZeroHash(p, x) == zeroed;
    }
    if p.haveOtp {
      OtpReads(o, x);
    }
  }

  lemma OtpReads(o: Otp, x: seq<Byte>)
    requires OtpOk(o) && |x| >= 6 && x[..6] == PutLE(o.seedId, 2) + o.otp
    ensures GetLE(x[..2]) == o.seedId && x[2..6] == o.otp
  {
    Pow256Values();
    GetPutLE(o.seedId, 2);
    assert x[..2] == x[..6][..2] == PutLE(o.seedId, 2);
    assert x[2..6] == x[..6][2..6];
  }

  lemma DecodedPlaintext(p: Params, su: Suite, mtu: nat, x: seq<Byte>)
    requires HashOk(p, su) && DecodePlaintext(p, su, mtu, x).Some?
    ensures var d := DecodePlaintext(p, su, mtu, x).value; x == Plaintext(p, su, d.otp, d.payload)
  {
    hide PutLE, GetLE;
    var d := DecodePlaintext(p, su, mtu, x).value;
    if p.haveOtp {
      Pow256Values();
      PutGetLE(x[..2]);
      assert OtpData(p, d.otp) == x[..2] + x[2..6] == x[..6];
    } else {
      assert OtpData(p, d.otp) == x[..0];
    }
    assert x == x[..HashOff(p)] + x[HashOff(p)..HeaderLen(p)] + d.payload;
    if p.hashLen == 0 {
      assert Zeros(0) == x[HashOff(p)..HeaderLen(p)];
    }
  }

  /**
   * Decoding an encoded payload gives back that payload and password, for every length, block size, hash and cipher.
   */
  lemma RoundTrip(p: Params, su: Suite, mtu: nat, o: Otp, iv: seq<Byte>, payload: seq<Byte>)
    requires SuiteOk(p, su) && OtpOk(o) && |iv| == p.block && |payload| <= mtu
    ensures Decode(p, su, true, mtu, Encode(p, su, o, iv, payload)) ==
              Some(Decoded(if p.haveOtp then o else NO_OTP, payload))
  {
    hide Plaintext, DecodePlaintext, PlaintextEnd, Padded;
    var x := Plaintext(p, su, o, payload);
    PlaintextDecodes(p, su, mtu, o, payload);
    if p.block > 0 {
      var packet, y := Encode(p, su, o, iv, payload), Padded(x, p.block);
      assert packet[..p.block] == iv && packet[p.block..] == su.encrypt(iv, y);
      AlignUpFacts(|x| + 1, p.block);
      AddMultiple(|y|, p.block);
      PaddedEnd(x, p.block);
      PaddedStart(x, p.block);
    }
  }

  lemma PaddedStart(x: seq<Byte>, block: nat)
    requires block > 0
    ensures |x| <= |Padded(x, block)| && Padded(x, block)[..|x|] == x
  {
    AlignUpFacts(|x| + 1, block);
  }

  /** The decoder accepts nothing but encodings: a packet it decodes is the encoding of what it returns. */
  lemma OnlyEncodings(p: Params, su: Suite, mtu: nat, packet: seq<Byte>)
    requires SuiteOk(p, su) && Decode(p, su, true, mtu, packet).Some?
    ensures var d := Decode(p, su, true, mtu, packet).value;
            p.block <= |packet| && packet == Encode(p, su, d.otp, packet[..p.block], d.payload)
  {
    hide Plaintext, DecodePlaintext, Padded;
    if p.block == 0 {
      DecodedPlaintext(p, su, mtu, packet);
    } else {
      var iv, c := packet[..p.block], packet[p.block..];
      var x := su.decrypt(iv, c);
      var i := PlaintextEnd(x, p.block).value;
      assert PaddingAt(x, p.block, i);
      AddMultiple(|packet|, p.block);
      assert |c| % p.block == 0;
      UnpaddedIsPadded(x, p.block, i);
      DecodedPlaintext(p, su, mtu, x[..i]);
      assert packet == iv + c;
    }
  }

  /** The encoding of some payload that is not too long. */
  ghost predicate IsEncoding(p: Params, su: Suite, mtu: nat, packet: seq<Byte>) {
    exists o, iv, payload ::
      OtpOk(o) && |iv| == p.block && |payload| <= mtu && packet == Encode(p, su, o, iv, payload)
  }

  /** What decodes is exactly what was encoded, once there is a key if there is encryption. */
  lemma DecodesExactly(p: Params, su: Suite, haveKey: bool, mtu: nat, packet: seq<Byte>)
    requires SuiteOk(p, su)
    ensures Decode(p, su, haveKey, mtu, packet).Some? <==>
              (haveKey || p.block == 0) && IsEncoding(p, su, mtu, packet)
  {
    hide Encode, DecodePlaintext, PlaintextEnd, OtpOk, HashOk, CipherOk;
    if haveKey || p.block == 0 {
      assert Decode(p, su, haveKey, mtu, packet) == Decode(p, su, true, mtu, packet);
      if IsEncoding(p, su, mtu, packet) {
        var o, iv, payload :|
          OtpOk(o) && |iv| == p.block && |payload| <= mtu && packet == Encode(p, su, o, iv, payload);
        RoundTrip(p, su, mtu, o, iv, payload);
      }
      if Decode(p, su, true, mtu, packet).Some? {
        DecodedWithin(p, su, mtu, packet);
        OnlyEncodings(p, su, mtu, packet);
      }
    }
  }

  lemma DecodedWithin(p: Params, su: Suite, mtu: nat, packet: seq<Byte>)
    requires Decode(p, su, true, mtu, packet).Some?
    ensures var d := Decode(p, su, true, mtu, packet).value; OtpOk(d.otp) && |d.payload| <= mtu
  {
  }

  // ---- sizes ----

  function EncodedLen(p: Params, n: nat): nat {
    if p.block == 0 then HeaderLen(p) + n else p.block + AlignUp(HeaderLen(p) + n + 1, p.block)
  }

  function PayloadMtu(p: Params, carrier: nat): int {
    if p.block == 0 then carrier - HeaderLen(p) else AlignDown(carrier, p.block) - p.block - HeaderLen(p) - 1
  }

  function CarrierMtu(p: Params, payload: nat): int {
    if p.block == 0 then if payload > INT_MAX - HeaderLen(p) then -1 else HeaderLen(p) + payload
    else if payload > INT_MAX - (p.block + HeaderLen(p) + p.block) then -1
    else p.block + AlignUp(HeaderLen(p) + payload + 1, p.block)
  }

  lemma EncodeLength(p: Params, su: Suite, o: Otp, iv: seq<Byte>, payload: seq<Byte>)
    requires SuiteOk(p, su) && OtpOk(o) && |iv| == p.block
    ensures |Encode(p, su, o, iv, payload)| == EncodedLen(p, |payload|)
  {
    assert |Plaintext(p, su, o, payload)| == HeaderLen(p) + |payload|;
  }

  /**
   * A payload fits a carrier packet exactly when it is no longer than the computed maximum; negative means nothing
   * fits.
   */
  lemma PayloadMtuExact(p: Params, carrier: nat, n: nat)
    ensures EncodedLen(p, n) <= carrier <==> n <= PayloadMtu(p, carrier)
  {
    if p.block > 0 {
      var b, x := p.block, HeaderLen(p) + n + 1;
      AlignUpFacts(x, b);
      AlignDownFacts(carrier, b);
      AddMultiple(AlignUp(x, b), b);
      AlignDownGreatest(carrier, b, AlignUp(x, b) + b);
      var d := AlignDown(carrier, b);
      AddMultiple(d, b);
      if d >= b {
        AlignUpLeast(x, b, d - b);
      }
    }
  }

  /**
   * The computed carrier size is what the longest payload needs, is enough for all shorter ones, and stays within an
   * int.
   */
  lemma CarrierMtuExact(p: Params, payload: nat, n: nat)
    requires n <= payload && CarrierMtu(p, payload) != -1
    ensures EncodedLen(p, n) <= EncodedLen(p, payload) == CarrierMtu(p, payload) <= INT_MAX
  {
    if p.block > 0 {
      var b, x, y := p.block, HeaderLen(p) + n + 1, HeaderLen(p) + payload + 1;
      AlignUpFacts(y, b);
      AlignUpLeast(x, b, AlignUp(y, b));
    }
  }

  /**
   * No carrier is found exactly if the packet, with a whole block of padding to spare when encrypted, leaves the
   * range.
   */
  lemma CarrierMtuRefuses(p: Params, payload: nat)
    ensures CarrierMtu(p, payload) < 0 <==> 2 * p.block + HeaderLen(p) + payload > INT_MAX
  {
    if p.block > 0 {
      AlignUpFacts(HeaderLen(p) + payload + 1, p.block);
    }
  }
}
