/**
 * The message format that bproto_generator/bproto_functions.php generates code for, parametric in the message
 * description: records of id, type and body, written one after the other. The parser remembers for every field only
 * where its first record starts and how far its last record is from there, and finds values by walking that span.
 */
module BProto {
  import opened Common

  const HEADER_LEN: nat := 4
  const DATA_HEADER_LEN: nat := 4

  const TYPE_DATA: nat := 5
  const TYPE_CONSTDATA: nat := 6

  /** A record; the body is the integer in little-endian form, or the payload. */
  datatype Rec = Rec(id: nat, ty: nat, body: seq<Byte>)

  /** Body size of the integer types; BPROTO_TYPE_UINT8 to BPROTO_TYPE_UINT64 are 1 to 4. */
  function UintSize(ty: nat): nat
    requires 1 <= ty <= 4
  {
    if ty == 1 then 1 else if ty == 2 then 2 else if ty == 3 then 4 else 8
  }

  predicate WellFormed(r: Rec) {
    && r.id < TWO_16 && 1 <= r.ty <= 6
    && (if r.ty <= 4 then |r.body| == UintSize(r.ty) else |r.body| < TWO_32)
  }

  ghost predicate AllWellFormed(rs: seq<Rec>) {
    forall i :: 0 <= i < |rs| ==> WellFormed(rs[i])
  }

  // ---- wire form ----

  function EncodeRec(r: Rec): (s: seq<Byte>)
    ensures |s| == HEADER_LEN + (if r.ty <= 4 then 0 else DATA_HEADER_LEN) + |r.body|
  {
    PutLE(r.id, 2) + PutLE(r.ty, 2) + (if r.ty <= 4 then [] else PutLE(|r.body|, 4)) + r.body
  }

  function EncodeAll(rs: seq<Rec>): seq<Byte> {
    if rs == [] then [] else EncodeRec(rs[0]) + EncodeAll(rs[1..])
  }

  /** The record at the front of `s`; None when it is cut short or of unknown type. */
  function DecodeRec(s: seq<Byte>): (r: Option<Rec>)
    ensures r.Some? ==> |EncodeRec(r.value)| <= |s|
  {
    if |s| < HEADER_LEN then None
    else
      var id, ty := GetLE(s[..2]), GetLE(s[2..4]);
      if 1 <= ty <= 4 then
        if |s| - HEADER_LEN < UintSize(ty) then None else Some(Rec(id, ty, s[HEADER_LEN..HEADER_LEN + UintSize(ty)]))
      else if ty == TYPE_DATA || ty == TYPE_CONSTDATA then
        if |s| - HEADER_LEN < DATA_HEADER_LEN then None
        else
          var len := GetLE(s[4..8]);
          if |s| - 8 < len then None else Some(Rec(id, ty, s[8..8 + len]))
      else None
  }

  lemma DecodeEncode(r: Rec, rest: seq<Byte>)
    requires WellFormed(r)
    ensures DecodeRec(EncodeRec(r) + rest) == Some(r)
    ensures (EncodeRec(r) + rest)[|EncodeRec(r)|..] == rest
  {
    Pow256Values();
    GetPutLE(r.id, 2);
    GetPutLE(r.ty, 2);
    var s := EncodeRec(r) + rest;
    assert s[..2] == PutLE(r.id, 2);
    assert s[2..4] == PutLE(r.ty, 2);
    if r.ty <= 4 {
      assert s[HEADER_LEN..HEADER_LEN + |r.body|] == r.body;
    } else {
      GetPutLE(|r.body|, 4);
      assert s[4..8] == PutLE(|r.body|, 4);
      assert s[8..8 + |r.body|] == r.body;
    }
  }

  lemma EncodeDecode(s: seq<Byte>)
    requires DecodeRec(s).Some?
    ensures WellFormed(DecodeRec(s).value)
    ensures s == EncodeRec(DecodeRec(s).value) + s[|EncodeRec(DecodeRec(s).value)|..]
  {
    hide PutLE, GetLE;
    Pow256Values();
    PutGetLE(s[..2]);
    PutGetLE(s[2..4]);
    var r := DecodeRec(s).value;
    if r.ty > 4 {
      PutGetLE(s[4..8]);
      Reassembled(s, r.body, 8);
    } else {
      Reassembled(s, r.body, 4);
    }
  }

  lemma Reassembled(s: seq<Byte>, body: seq<Byte>, at: nat)
    requires (at == 4 || at == 8) && at + |body| <= |s| && s[at..at + |body|] == body
    ensures s == s[..2] + s[2..4] + (if at == 4 then [] else s[4..8]) + body + s[at + |body|..]
  {
  }

  lemma {:induction false} EncodeConcat(rs: seq<Rec>, qs: seq<Rec>)
    ensures EncodeAll(rs + qs) == EncodeAll(rs) + EncodeAll(qs)
    decreases |rs|
  {
    hide EncodeRec;
    if rs == [] {
      assert rs + qs == qs;
    } else {
      var t := rs + qs;
      assert t[0] == rs[0] && t[1..] == rs[1..] + qs;
      EncodeConcat(rs[1..], qs);
      assert EncodeAll(t) == EncodeRec(rs[0]) + EncodeAll(rs[1..]) + EncodeAll(qs);
    }
  }

  lemma EncodeOne(r: Rec)
    ensures EncodeAll([r]) == EncodeRec(r)
  {
    assert EncodeAll([r]) == EncodeRec(r) + EncodeAll([]);
  }

  lemma EncodeAppend(rs: seq<Rec>, r: Rec)
    ensures EncodeAll(rs + [r]) == EncodeAll(rs) + EncodeRec(r)
  {
    EncodeConcat(rs, [r]);
    EncodeOne(r);
  }

  /** Two lists of records whose encodings start alike agree as far as the shorter goes. */
  lemma {:induction false} EncodingPrefix(rs: seq<Rec>, qs: seq<Rec>, rest: seq<Byte>)
    requires AllWellFormed(rs) && AllWellFormed(qs) && EncodeAll(rs) + rest == EncodeAll(qs)
    ensures rs <= qs && rest == EncodeAll(qs[|rs|..])
    decreases |rs|
  {
    hide EncodeRec, DecodeRec;
    if rs == [] {
      assert EncodeAll(rs) + rest == rest;
    } else {
      EncodeLength(rs[0]);
      assert qs != [];
      assert EncodeAll(rs) + rest == EncodeRec(rs[0]) + (EncodeAll(rs[1..]) + rest);
      DecodeEncode(rs[0], EncodeAll(rs[1..]) + rest);
      DecodeEncode(qs[0], EncodeAll(qs[1..]));
      EncodingPrefix(rs[1..], qs[1..], rest);
      assert rs == [rs[0]] + rs[1..] && qs == [qs[0]] + qs[1..];
      assert qs[1..][|rs| - 1..] == qs[|rs|..];
    }
  }

  lemma EncodeLength(r: Rec)
    ensures |EncodeRec(r)| >= HEADER_LEN
  {
  }

  /** The bytes say which records they are: the encoding loses nothing. */
  lemma EncodingUnique(rs: seq<Rec>, qs: seq<Rec>)
    requires AllWellFormed(rs) && AllWellFormed(qs) && EncodeAll(rs) == EncodeAll(qs)
    ensures rs == qs
  {
    assert EncodeAll(rs) + [] == EncodeAll(rs);
    EncodingPrefix(rs, qs, []);
    EncodingPrefix(qs, rs, []);
  }

  // ---- message descriptions ----

  datatype FieldType = Uint(ty: nat) | Data | ConstData(size: nat)
  datatype Cardinality = Repeated | RequiredRepeated | Optional | Required
  datatype Field = Field(id: nat, ty: FieldType, card: Cardinality)

  type Schema = seq<Field>

  /** Ids are distinct; types and sizes are those of the format. */
  ghost predicate SchemaOk(sc: Schema) {
    && (forall i, j :: 0 <= i < j < |sc| ==> sc[i].id != sc[j].id)
    && (forall i :: 0 <= i < |sc| ==> FieldOk(sc[i]))
  }

  predicate FieldOk(f: Field) {
    f.id < TWO_16 && (f.ty.Uint? ==> 1 <= f.ty.ty <= 4) && (f.ty.ConstData? ==> f.ty.size < TWO_32)
  }

  function TypeCode(ft: FieldType): nat {
    match ft
    case Uint(ty) => ty
    case Data => TYPE_DATA
    case ConstData(_) => TYPE_CONSTDATA
  }

  /** The record is one the parser accepts for the field. */
  predicate Matches(f: Field, r: Rec) {
    r.id == f.id && r.ty == TypeCode(f.ty) && (f.ty.ConstData? ==> |r.body| == f.ty.size)
  }

  predicate CountOk(card: Cardinality, n: nat) {
    match card
    case Repeated => true
    case RequiredRepeated => n >= 1
    case Optional => n <= 1
    case Required => n == 1
  }

  /** The bodies of the records with an id, in order. */
  function ValuesOf(rs: seq<Rec>, id: nat): seq<seq<Byte>> {
    if rs == [] then []
    else (if rs[0].id == id then [rs[0].body] else []) + ValuesOf(rs[1..], id)
  }

  ghost predicate Known(sc: Schema, r: Rec) {
    exists i :: 0 <= i < |sc| && Matches(sc[i], r)
  }

  /** Every record belongs to a field, and every field occurs as often as it may. */
  ghost predicate Accepts(sc: Schema, rs: seq<Rec>) {
    && (forall k :: 0 <= k < |rs| ==> Known(sc, rs[k]))
    && (forall i :: 0 <= i < |sc| ==> CountOk(sc[i].card, |ValuesOf(rs, sc[i].id)|))
  }

  lemma {:induction false} ValuesConcat(rs: seq<Rec>, qs: seq<Rec>, id: nat)
    ensures ValuesOf(rs + qs, id) == ValuesOf(rs, id) + ValuesOf(qs, id)
    decreases |rs|
  {
    if rs == [] {
      assert rs + qs == qs;
    } else {
      var t := rs + qs;
      assert t[0] == rs[0] && t[1..] == rs[1..] + qs;
      ValuesConcat(rs[1..], qs, id);
      var head := if rs[0].id == id then [rs[0].body] else [];
      assert head + (ValuesOf(rs[1..], id) + ValuesOf(qs, id)) == head + ValuesOf(rs[1..], id) + ValuesOf(qs, id);
    }
  }

  lemma ValuesOne(r: Rec, id: nat)
    ensures ValuesOf([r], id) == if r.id == id then [r.body] else []
  {
    assert ValuesOf([r], id) == (if r.id == id then [r.body] else []) + ValuesOf([], id);
  }

  lemma ValuesAppend(rs: seq<Rec>, r: Rec, id: nat)
    ensures ValuesOf(rs + [r], id) == ValuesOf(rs, id) + if r.id == id then [r.body] else []
  {
    ValuesConcat(rs, [r], id);
    ValuesOne(r, id);
  }

  lemma {:induction false} ValuesNone(rs: seq<Rec>, id: nat)
    ensures ValuesOf(rs, id) == [] <==> forall k :: 0 <= k < |rs| ==> rs[k].id != id
    decreases |rs|
  {
    if rs != [] {
      ValuesNone(rs[1..], id);
      assert forall k :: 0 < k < |rs| ==> rs[k] == rs[1..][k - 1];
    }
  }

  // ---- spans ----

  /**
   * Where the records of an id lie: byte offset of the first, distance from there to the end of the last, and count.
   */
  datatype Span = Span(start: nat, len: nat, count: nat)

  /** One record at offset `at` ending at `end`, as the parser's loop takes it in; `none` marks an unset start. */
  function Extend(sp: Span, isField: bool, at: nat, end: nat, none: nat): Span {
    if !isField then sp
    else
      var start := if sp.start == none then at else sp.start;
      Span(start, Max(0, end - start), sp.count + 1)
  }

  /** The first and last record of an id, as indices. */
  ghost predicate SpanOf(rs: seq<Rec>, id: nat, none: nat, sp: Span) {
    && sp.count == |ValuesOf(rs, id)|
    && (sp.count == 0 ==> sp.start == none && sp.len == 0)
    && (sp.count > 0 ==> sp.start < none && exists a: nat, b: nat :: Bounds(rs, id, sp, a, b))
  }

  /** Records `a` to `b` are exactly the span, and no record of the id lies outside. */
  ghost predicate Bounds(rs: seq<Rec>, id: nat, sp: Span, a: nat, b: nat) {
    && a <= b < |rs| && rs[a].id == id && rs[b].id == id
    && sp.start == |EncodeAll(rs[..a])| && sp.start + sp.len == |EncodeAll(rs[..b + 1])|
    && ValuesOf(rs[..a], id) == [] && ValuesOf(rs[b + 1..], id) == []
  }

  lemma SpanNext(rs: seq<Rec>, r: Rec, id: nat, none: nat, sp: Span)
    requires SpanOf(rs, id, none, sp) && |EncodeAll(rs)| < none
    ensures SpanOf(rs + [r], id, none, Extend(sp, r.id == id, |EncodeAll(rs)|, |EncodeAll(rs + [r])|, none))
  {
    hide EncodeAll, EncodeRec, Bounds, ValuesOf;
    var t, sp1 := rs + [r], Extend(sp, r.id == id, |EncodeAll(rs)|, |EncodeAll(rs + [r])|, none);
    ValuesAppend(rs, r, id);
    EncodeAppend(rs, r);
    if sp.count > 0 {
      var a: nat, b: nat :| Bounds(rs, id, sp, a, b);
      BoundsNext(rs, r, id, sp, none, a, b);
    } else if r.id == id {
      BoundsFirst(rs, r, id, sp1);
    }
  }

  /** A record appended ends the span if it has the id; otherwise the span stays. */
  lemma BoundsNext(rs: seq<Rec>, r: Rec, id: nat, sp: Span, none: nat, a: nat, b: nat)
    requires Bounds(rs, id, sp, a, b) && sp.start < none && |EncodeAll(rs)| <= |EncodeAll(rs + [r])|
    ensures Bounds(rs + [r], id, Extend(sp, r.id == id, |EncodeAll(rs)|, |EncodeAll(rs + [r])|, none), a,
                   if r.id == id then |rs| else b)
  {
    hide EncodeAll, EncodeRec, ValuesOf;
    var t := rs + [r];
    assert t[..a] == rs[..a];
    if r.id == id {
      PrefixShorter(rs, a);
      assert t[..|rs| + 1] == t && t[|rs| + 1..] == [];
      NoValues(id);
    } else {
      assert t[..b + 1] == rs[..b + 1] && t[b + 1..] == rs[b + 1..] + [r];
      ValuesAppend(rs[b + 1..], r, id);
    }
  }

  lemma BoundsFirst(rs: seq<Rec>, r: Rec, id: nat, sp: Span)
    requires r.id == id && ValuesOf(rs, id) == []
    requires sp.start == |EncodeAll(rs)| && sp.start + sp.len == |EncodeAll(rs + [r])|
    ensures Bounds(rs + [r], id, sp, |rs|, |rs|)
  {
    hide EncodeAll, EncodeRec, ValuesOf;
    var t := rs + [r];
    assert t[..|rs|] == rs && t[..|rs| + 1] == t && t[|rs| + 1..] == [];
    NoValues(id);
  }

  lemma NoValues(id: nat)
    ensures ValuesOf([], id) == []
  {
  }

  lemma PrefixShorter(rs: seq<Rec>, a: nat)
    requires a <= |rs|
    ensures |EncodeAll(rs[..a])| <= |EncodeAll(rs)|
  {
    EncodeConcat(rs[..a], rs[a..]);
    assert rs[..a] + rs[a..] == rs;
  }

  // ---- getting values ----

  /**
   * The getter of a field is about to look at record `k` of the span `a` to `b`, with the values `left` not yet got.
   */
  ghost predicate At(rs: seq<Rec>, id: nat, sp: Span, pos: nat, k: nat, left: seq<seq<Byte>>, a: nat, b: nat) {
    && Bounds(rs, id, sp, a, b) && a <= k <= b + 1
    && sp.start + pos == |EncodeAll(rs[..k])| && left == ValuesOf(rs[k..], id)
  }

  ghost predicate Cursor(rs: seq<Rec>, id: nat, sp: Span, pos: nat, k: nat, left: seq<seq<Byte>>) {
    if sp.count == 0 then pos == 0 && left == []
    else exists a: nat, b: nat :: At(rs, id, sp, pos, k, left, a, b)
  }

  lemma {:induction false} OffsetGrows(rs: seq<Rec>, i: nat, j: nat)
    requires i <= j <= |rs|
    ensures |EncodeAll(rs[..i])| + HEADER_LEN * (j - i) <= |EncodeAll(rs[..j])|
    decreases j
  {
    hide EncodeAll;
    if i < j {
      OffsetGrows(rs, i, j - 1);
      assert rs[..j] == rs[..j - 1] + [rs[j - 1]];
      EncodeAppend(rs[..j - 1], rs[j - 1]);
      EncodeLength(rs[j - 1]);
    }
  }

  lemma ValuesPresent(rs: seq<Rec>, id: nat, k: nat, b: nat)
    requires k <= b < |rs| && rs[b].id == id
    ensures ValuesOf(rs[k..], id) != []
  {
    ValuesNone(rs[k..], id);
    assert rs[k..][b - k] == rs[b];
  }

  /** The getter is at the end of its span if and only if no values are left. */
  lemma AtEndIffConsumed(rs: seq<Rec>, id: nat, none: nat, sp: Span, pos: nat, k: nat, left: seq<seq<Byte>>)
    requires SpanOf(rs, id, none, sp) && Cursor(rs, id, sp, pos, k, left)
    ensures pos <= sp.len && (pos == sp.len <==> left == [])
  {
    hide EncodeAll, ValuesOf;
    if sp.count > 0 {
      var a: nat, b: nat :| At(rs, id, sp, pos, k, left, a, b);
      OffsetGrows(rs, k, b + 1);
      if k <= b {
        ValuesPresent(rs, id, k, b);
      }
    }
  }

  /** The bytes from one record to a later one are those records; the first of them is found there. */
  lemma RecordsBetween(rs: seq<Rec>, k: nat, e: nat)
    requires AllWellFormed(rs) && k < e <= |rs|
    ensures |EncodeAll(rs[..k])| + |EncodeRec(rs[k])| == |EncodeAll(rs[..k + 1])|
    ensures |EncodeAll(rs[..k + 1])| <= |EncodeAll(rs[..e])| <= |EncodeAll(rs)|
    ensures DecodeRec(EncodeAll(rs)[|EncodeAll(rs[..k])|..|EncodeAll(rs[..e])|]) == Some(rs[k])
  {
    hide EncodeAll, EncodeRec, DecodeRec;
    assert rs[..k + 1] == rs[..k] + [rs[k]];
    EncodeAppend(rs[..k], rs[k]);
    OffsetGrows(rs, k + 1, e);
    OffsetGrows(rs, e, |rs|);
    assert rs[..|rs|] == rs;
    var mid := rs[k + 1..e];
    assert rs == rs[..k + 1] + mid + rs[e..] && rs[..e] == rs[..k + 1] + mid;
    EncodeConcat(rs[..k + 1], mid);
    EncodeConcat(rs[..e], rs[e..]);
    DecodeEncode(rs[k], EncodeAll(mid));
    Between(EncodeAll(rs[..k]), EncodeRec(rs[k]), EncodeAll(mid), EncodeAll(rs[e..]));
  }

  lemma Between(x: seq<Byte>, y: seq<Byte>, z: seq<Byte>, w: seq<Byte>)
    ensures (x + y + z + w)[|x|..|x + y + z|] == y + z
  {
  }

  lemma ValuesFrom(rs: seq<Rec>, id: nat, k: nat)
    requires k < |rs|
    ensures ValuesOf(rs[k..], id) == (if rs[k].id == id then [rs[k].body] else []) + ValuesOf(rs[k + 1..], id)
  {
    assert rs[k..][0] == rs[k] && rs[k..][1..] == rs[k + 1..];
  }

  lemma AtRecord(rs: seq<Rec>, id: nat, sp: Span, pos: nat, k: nat, left: seq<seq<Byte>>, a: nat, b: nat)
    requires AllWellFormed(rs) && At(rs, id, sp, pos, k, left, a, b) && k <= b
    ensures sp.start + sp.len <= |EncodeAll(rs)| && pos + |EncodeRec(rs[k])| <= sp.len
    ensures DecodeRec(EncodeAll(rs)[sp.start + pos..sp.start + sp.len]) == Some(rs[k])
    ensures At(rs, id, sp, pos + |EncodeRec(rs[k])|, k + 1, ValuesOf(rs[k + 1..], id), a, b)
  {
    hide EncodeAll, EncodeRec, DecodeRec, ValuesOf, AllWellFormed;
    RecordsBetween(rs, k, b + 1);
  }

  lemma AtWithin(rs: seq<Rec>, id: nat, sp: Span, pos: nat, k: nat, left: seq<seq<Byte>>, a: nat, b: nat)
    requires At(rs, id, sp, pos, k, left, a, b) && pos < sp.len
    ensures k <= b < |rs| && left == (if rs[k].id == id then [rs[k].body] else []) + ValuesOf(rs[k + 1..], id)
  {
    hide EncodeAll, ValuesOf;
    ValuesFrom(rs, id, k);
  }

  /** The record the getter looks at next is well within the span, so the assertions inside the getter hold. */
  lemma CursorRecord(rs: seq<Rec>, id: nat, none: nat, sp: Span, pos: nat, k: nat, left: seq<seq<Byte>>)
    requires AllWellFormed(rs) && SpanOf(rs, id, none, sp) && Cursor(rs, id, sp, pos, k, left) && pos < sp.len
    ensures k < |rs| && sp.start + sp.len <= |EncodeAll(rs)|
    ensures DecodeRec(EncodeAll(rs)[sp.start + pos..sp.start + sp.len]) == Some(rs[k])
    ensures pos + |EncodeRec(rs[k])| <= sp.len
    ensures rs[k].id == id ==> left != [] && left[0] == rs[k].body
    ensures Cursor(rs, id, sp, pos + |EncodeRec(rs[k])|, k + 1, if rs[k].id == id then left[1..] else left)
  {
    hide EncodeAll, EncodeRec, DecodeRec, ValuesOf, AllWellFormed, At, Bounds;
    var a: nat, b: nat :| At(rs, id, sp, pos, k, left, a, b);
    AtWithin(rs, id, sp, pos, k, left, a, b);
    AtRecord(rs, id, sp, pos, k, left, a, b);
    assert (if rs[k].id == id then left[1..] else left) == ValuesOf(rs[k + 1..], id);
  }

  /** Before the first value: everything is left. */
  lemma CursorStart(rs: seq<Rec>, id: nat, none: nat, sp: Span) returns (k: nat)
    requires SpanOf(rs, id, none, sp)
    ensures Cursor(rs, id, sp, 0, k, ValuesOf(rs, id))
  {
    hide EncodeAll, ValuesOf;
    k := 0;
    if sp.count > 0 {
      var a: nat, b: nat :| Bounds(rs, id, sp, a, b);
      k := a;
      assert rs == rs[..a] + rs[a..];
      ValuesConcat(rs[..a], rs[a..], id);
      assert [] + ValuesOf(rs[a..], id) == ValuesOf(rs[a..], id);
      assert At(rs, id, sp, 0, a, ValuesOf(rs, id), a, b);
    }
  }

  /** After the last: nothing is. */
  lemma CursorEnd(rs: seq<Rec>, id: nat, none: nat, sp: Span) returns (k: nat)
    requires SpanOf(rs, id, none, sp)
    ensures Cursor(rs, id, sp, sp.len, k, [])
  {
    hide EncodeAll, ValuesOf;
    k := 0;
    if sp.count > 0 {
      var a: nat, b: nat :| Bounds(rs, id, sp, a, b);
      k := b + 1;
      assert At(rs, id, sp, sp.len, k, [], a, b);
    }
  }
}
