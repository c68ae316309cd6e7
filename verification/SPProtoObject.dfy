/** The work functions of client/SPProtoEncoder.c and client/SPProtoDecoder.c, on the buffers they work on in place. */
module SPProtoObject {
  import opened Common
  import opened SPProto

  method MemCopy(dst: array<Byte>, at: nat, src: seq<Byte>)
    requires at + |src| <= dst.Length
    modifies dst
    ensures dst[..] == Splice(old(dst[..]), at, src)
  {
    var i := 0;
    while i < |src|
      invariant i <= |src|
      invariant forall k :: 0 <= k < dst.Length ==> dst[k] == if at <= k < at + i then src[k - at] else old(dst[k])
    {
      dst[at + i] := src[i];
      i := i + 1;
    }
  }

  // ---- encoder ----

  lemma SpliceFront(s: seq<Byte>, w: seq<Byte>, z: seq<Byte>)
    requires |w| + |z| <= |s| && s[|w|..|w| + |z|] == z
    ensures Splice(s, 0, w)[..|w| + |z|] == w + z
  {
  }

  lemma SpliceMiddle(s: seq<Byte>, x: seq<Byte>, y: seq<Byte>, z: seq<Byte>, w: seq<Byte>)
    requires |x| + |y| + |z| <= |s| && s[..|x| + |y| + |z|] == x + y + z && |w| == |y|
    ensures Splice(s, |x|, w)[..|x| + |y| + |z|] == x + w + z
  {
    var n, l, r := |x| + |y| + |z|, Splice(s, |x|, w), x + w + z;
    forall k | 0 <= k < n
      ensures l[..n][k] == r[k]
    {
      assert s[k] == s[..n][k] == (x + y + z)[k];
    }
  }

  lemma HeaderWritten(p: Params, su: Suite, o: Otp, before: seq<Byte>, payload: seq<Byte>)
    requires HashOk(p, su) && OtpOk(o) && HeaderLen(p) + |payload| <= |before|
    requires before[HeaderLen(p)..HeaderLen(p) + |payload|] == payload
    ensures var a1 := Splice(before, 0, OtpData(p, o));
            var a2 := Splice(a1, HashOff(p), Zeros(p.hashLen));
            var n := HeaderLen(p) + |payload|;
            && a2[..n] == OtpData(p, o) + Zeros(p.hashLen) + payload
            && Splice(a2, HashOff(p), su.hash(a2[..n]))[..n] == OtpData(p, o) + su.hash(a2[..n]) + payload
  {
    hide Splice, OtpData, Zeros;
    var n := HeaderLen(p) + |payload|;
    var otp, mid := OtpData(p, o), before[HashOff(p)..HeaderLen(p)];
    assert before[HashOff(p)..n] == mid + payload;
    SpliceFront(before, otp, mid + payload);
    var a1 := Splice(before, 0, otp);
    assert a1[..n] == otp + mid + payload;
    SpliceMiddle(a1, otp, mid, payload, Zeros(p.hashLen));
    var a2 := Splice(a1, HashOff(p), Zeros(p.hashLen));
    SpliceMiddle(a2, otp, Zeros(p.hashLen), payload, su.hash(a2[..n]));
  }

  lemma OnlyPassword(p: Params, su: Suite, o: Otp, before: seq<Byte>, payload: seq<Byte>)
    requires p.hashLen == 0 && OtpOk(o) && HeaderLen(p) + |payload| <= |before|
    requires before[HeaderLen(p)..HeaderLen(p) + |payload|] == payload
    ensures Splice(before, 0, OtpData(p, o))[..HeaderLen(p) + |payload|] == Plaintext(p, su, o, payload)
  {
    SpliceFront(before, OtpData(p, o), payload);
    assert OtpData(p, o) + Zeros(0) + payload == OtpData(p, o) + payload;
  }

  class SPProtoEncoder {
    const params: Params
    const suite: Suite
    const buf: array<Byte>

    constructor (params: Params, suite: Suite, buf: array<Byte>)
      ensures this.params == params && this.suite == suite && this.buf == buf
    {
      this.params, this.suite, this.buf := params, suite, buf;
    }

    /** Puts the header in front of a payload already in place. */
    method WriteHeader(a: array<Byte>, inLen: nat, o: Otp)
      requires HashOk(params, suite) && OtpOk(o) && HeaderLen(params) + inLen <= a.Length
      modifies a
      ensures a[..HeaderLen(params) + inLen] ==
                Plaintext(params, suite, o, old(a[HeaderLen(params)..HeaderLen(params) + inLen]))
    {
      hide OtpData, Plaintext;
      ghost var before, payload := a[..], a[HeaderLen(params)..HeaderLen(params) + inLen];
      var n := HeaderLen(params) + inLen;
      MemCopy(a, 0, OtpData(params, o));
      if params.hashLen > 0 {
        HeaderWritten(params, suite, o, before, payload);
        MemCopy(a, HashOff(params), Zeros(params.hashLen));
        assert a[..n] == a[..][..n];
        var hash := suite.hash(a[..n]);
        MemCopy(a, HashOff(params), hash);
        assert a[..n] == a[..][..n];
        PlaintextHashed(params, suite, o, payload);
      } else {
        OnlyPassword(params, suite, o, before, payload);
        assert a[..n] == a[..][..n];
      }
    }

    method WritePadding(a: array<Byte>, n: nat)
      requires params.block > 0 && AlignUp(n + 1, params.block) <= a.Length && n + 1 <= AlignUp(n + 1, params.block)
      modifies a
      ensures a[..AlignUp(n + 1, params.block)] == Padded(old(a[..n]), params.block)
    {
      var len := AlignUp(n + 1, params.block);
      a[n] := 1;
      var i := n + 1;
      while i < len
        invariant n + 1 <= i <= len
        invariant a[n] == 1
        invariant forall k :: 0 <= k < n ==> a[k] == old(a[k])
        invariant forall k :: n < k < i ==> a[k] == 0
      {
        a[i] := 0;
        i := i + 1;
      }
    }

    /** Encodes the payload, which lies behind the header's place in `buf`, or in `out` when nothing is encrypted. */
    method EncodeWork(out: array<Byte>, inLen: nat, o: Otp, iv: seq<Byte>) returns (outLen: nat)
      requires SuiteOk(params, suite) && OtpOk(o) && |iv| == params.block && out != buf
      requires EncodedLen(params, inLen) <= out.Length
      requires params.block > 0 ==>
                 HeaderLen(params) + inLen < AlignUp(HeaderLen(params) + inLen + 1, params.block) <= buf.Length
      modifies buf, out
      ensures outLen == EncodedLen(params, inLen)
      ensures var plaintext := if params.block > 0 then old(buf[..]) else old(out[..]);
              out[..outLen] == Encode(params, suite, o, iv, plaintext[HeaderLen(params)..HeaderLen(params) + inLen])
    {
      hide Plaintext, Padded, HashOk, CipherOk, AlignUp;
      var n := HeaderLen(params) + inLen;
      if params.block > 0 {
        ghost var payload := buf[..][HeaderLen(params)..n];
        assert payload == buf[HeaderLen(params)..n];
        WriteHeader(buf, inLen, o);
        AlignUpFacts(n + 1, params.block);
        var len := AlignUp(n + 1, params.block);
        WritePadding(buf, n);
        MemCopy(out, 0, iv);
        var c := suite.encrypt(iv, buf[..len]);
        SameLength(params, suite, iv, buf[..len]);
        ghost var front := out[..];
        MemCopy(out, params.block, c);
        outLen := params.block + len;
        CipherPlaced(front, old(out[..]), iv, c, out[..]);
        assert out[..outLen] == out[..][..outLen];
      } else {
        ghost var payload := out[..][HeaderLen(params)..n];
        assert payload == out[HeaderLen(params)..n];
        WriteHeader(out, inLen, o);
        outLen := n;
      }
    }
  }

  lemma SameLength(p: Params, su: Suite, iv: seq<Byte>, x: seq<Byte>)
    requires CipherOk(p, su)
    ensures |su.encrypt(iv, x)| == |x| == |su.decrypt(iv, x)|
  {
  }

  lemma PlaintextHashed(p: Params, su: Suite, o: Otp, payload: seq<Byte>)
    requires p.hashLen > 0 && OtpOk(o)
    ensures Plaintext(p, su, o, payload) ==
              OtpData(p, o) + su.hash(OtpData(p, o) + Zeros(p.hashLen) + payload) + payload
  {
  }

  lemma CipherPlaced(front: seq<Byte>, before: seq<Byte>, iv: seq<Byte>, c: seq<Byte>, after: seq<Byte>)
    requires |iv| + |c| <= |before| && front == Splice(before, 0, iv) && after == Splice(front, |iv|, c)
    ensures after[..|iv| + |c|] == iv + c
  {
  }

  // ---- decoder ----

  class SPProtoDecoder {
    const params: Params
    const suite: Suite
    const outputMtu: nat
    const buf: array<Byte>
    var haveEncryptionKey: bool

    constructor (params: Params, suite: Suite, outputMtu: nat, buf: array<Byte>)
      ensures this.params == params && this.suite == suite && this.outputMtu == outputMtu && this.buf == buf
      ensures !haveEncryptionKey
    {
      this.params, this.suite, this.outputMtu, this.buf := params, suite, outputMtu, buf;
      haveEncryptionKey := false;
    }

    /** The backward scan: the end of the plaintext, or nothing if the last block is not properly padded. */
    method ReadPadding(a: array<Byte>, len: nat) returns (end: Option<nat>)
      requires params.block > 0 && len <= a.Length
      ensures end == PlaintextEnd(a[..len], params.block)
    {
      ghost var x := a[..len];
      if len < params.block {
        return None;
      }
      var i := len - 1;
      while i >= len - params.block
        invariant len - params.block - 1 <= i < len
        invariant forall k :: i < k < len ==> a[k] == 0
        decreases i
      {
        if a[i] == 1 {
          break;
        }
        if a[i] != 0 {
          NoPadding(x, params.block, i);
          return None;
        }
        i := i - 1;
      }
      if i < len - params.block {
        return None;
      }
      assert PaddingAt(x, params.block, i);
      PaddingUnique(x, params.block, i, PlaintextEnd(x, params.block).value);
      return Some(i);
    }

    /** Takes the hash with its field zeroed, and puts the field back as it was. */
    method CheckHash(a: array<Byte>, len: nat) returns (ok: bool)
      requires HashOk(params, suite) && HeaderLen(params) <= len <= a.Length
      modifies a
      ensures a[..] == old(a[..])
      ensures ok <==> a[..len][HashOff(params)..HeaderLen(params)] == suite.hash(ZeroHash(params, a[..len]))
    {
      hide Splice, ZeroHash, Zeros;
      ghost var before := a[..];
      var hash := a[HashOff(params)..HeaderLen(params)];
      MemCopy(a, HashOff(params), Zeros(params.hashLen));
      assert a[..len] == a[..][..len];
      HashZeroed(params, before, len);
      var calculated := suite.hash(a[..len]);
      assert hash == before[HashOff(params)..HeaderLen(params)];
      MemCopy(a, HashOff(params), hash);
      assert a[..len] == a[..][..len];
      ok := hash == calculated;
    }

    method DecodeFrom(a: array<Byte>, len: nat) returns (d: Option<Decoded>)
      requires HashOk(params, suite) && len <= a.Length
      modifies a
      ensures a[..] == old(a[..]) && d == DecodePlaintext(params, suite, outputMtu, old(a[..len]))
    {
      ghost var x := a[..len];
      if len < HeaderLen(params) {
        return None;
      }
      if len - HeaderLen(params) > outputMtu {
        return None;
      }
      var otp := NO_OTP;
      if params.haveOtp {
        otp := Otp(GetLE(a[..2]), a[2..6]);
        assert a[..2] == x[..2] && a[2..6] == x[2..6];
      }
      if params.hashLen > 0 {
        var ok := CheckHash(a, len);
        assert a[..len] == a[..][..len] == x;
        if !ok {
          return None;
        }
      }
      assert a[HeaderLen(params)..len] == x[HeaderLen(params)..];
      return Some(Decoded(otp, a[HeaderLen(params)..len]));
    }

    /** Decodes a packet; the input buffer is as before afterwards. */
    method DecodeWork(input: array<Byte>, inLen: nat) returns (d: Option<Decoded>)
      requires SuiteOk(params, suite) && inLen <= input.Length && input != buf
      requires params.block > 0 ==> inLen <= params.block + buf.Length
      modifies input, buf
      ensures d == Decode(params, suite, haveEncryptionKey, outputMtu, old(input[..inLen]))
      ensures input[..] == old(input[..])
    {
      hide DecodePlaintext, PlaintextEnd, HashOk, CipherOk;
      if params.block == 0 {
        d := DecodeFrom(input, inLen);
        return;
      }
      if inLen % params.block != 0 {
        return None;
      }
      if inLen < params.block {
        return None;
      }
      if !haveEncryptionKey {
        return None;
      }
      var iv := input[..params.block];
      var x := suite.decrypt(iv, input[params.block..inLen]);
      SameLength(params, suite, iv, input[params.block..inLen]);
      assert input[..inLen][..params.block] == iv && input[..inLen][params.block..] == input[params.block..inLen];
      MemCopy(buf, 0, x);
      assert buf[..|x|] == x;
      var end := ReadPadding(buf, inLen - params.block);
      if end.None? {
        return None;
      }
      EndWithin(x, params.block);
      assert buf[..end.value] == x[..end.value];
      d := DecodeFrom(buf, end.value);
    }
  }

  lemma HashZeroed(p: Params, s: seq<Byte>, len: nat)
    requires HeaderLen(p) <= len <= |s|
    ensures var z := Splice(s, HashOff(p), Zeros(p.hashLen)); var hash := s[HashOff(p)..HeaderLen(p)];
            && z[..len] == ZeroHash(p, s[..len]) && Splice(z, HashOff(p), hash) == s
            && s[..len][HashOff(p)..HeaderLen(p)] == hash
  {
    var z := Splice(s, HashOff(p), Zeros(p.hashLen));
    assert z[..len] == s[..HashOff(p)] + Zeros(p.hashLen) + s[HeaderLen(p)..len];
    assert s[..len][HeaderLen(p)..] == s[HeaderLen(p)..len];
    assert s[..len][..HashOff(p)] == s[..HashOff(p)];
    assert s[..len][HashOff(p)..HeaderLen(p)] == s[HashOff(p)..HeaderLen(p)];
    assert Splice(z, HashOff(p), s[HashOff(p)..HeaderLen(p)]) == s;
  }

  lemma NoPadding(x: seq<Byte>, block: nat, i: nat)
    requires block <= |x| && |x| - block <= i < |x| && x[i] != 0 && x[i] != 1 && forall k :: i < k < |x| ==> x[k] == 0
    ensures PlaintextEnd(x, block).None?
  {
  }

  lemma EndWithin(x: seq<Byte>, block: nat)
    requires PlaintextEnd(x, block).Some?
    ensures PlaintextEnd(x, block).value < |x|
  {
  }

  // ---- together ----

  /** What one side encodes the other decodes, on their own buffers. */
  method Exchange(e: SPProtoEncoder, d: SPProtoDecoder, wire: array<Byte>, inLen: nat, o: Otp, iv: seq<Byte>)
    returns (got: Option<Decoded>)
    requires e.params == d.params && e.suite == d.suite && SuiteOk(e.params, e.suite) && OtpOk(o)
    requires |iv| == e.params.block
    requires wire != e.buf && wire != d.buf && e.buf != d.buf && inLen <= d.outputMtu
    requires EncodedLen(e.params, inLen) <= wire.Length
    requires e.params.block > 0 ==>
               && d.haveEncryptionKey && HeaderLen(e.params) + inLen <= e.buf.Length
               && AlignUp(HeaderLen(e.params) + inLen + 1, e.params.block) <= Min(e.buf.Length, d.buf.Length)
    modifies wire, e.buf, d.buf
    ensures var plaintext := if e.params.block > 0 then old(e.buf[..]) else old(wire[..]);
            && HeaderLen(e.params) + inLen <= |plaintext|
            && got == Some(Decoded(if e.params.haveOtp then o else NO_OTP,
                                   plaintext[HeaderLen(e.params)..HeaderLen(e.params) + inLen]))
  {
    hide SuiteOk, Encode, PlaintextEnd, DecodePlaintext;
    ghost var plaintext := if e.params.block > 0 then e.buf[..] else wire[..];
    var n := e.EncodeWork(wire, inLen, o, iv);
    got := d.DecodeWork(wire, n);
    RoundTrip(e.params, e.suite, d.outputMtu, o, iv, plaintext[HeaderLen(e.params)..HeaderLen(e.params) + inLen]);
  }
}
