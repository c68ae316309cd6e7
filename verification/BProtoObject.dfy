/**
 * The generated writer and parser of bproto_generator/bproto_functions.php as the objects the generated code works on.
 * Fields of a message are named by their index in the message description.
 */
module BProtoObject {
  import opened Common
  import opened BProto

  /** The bytes are a message: some records that fit the description encode to them. */
  ghost predicate Parses(sc: Schema, buf: seq<Byte>) {
    exists rs :: Message(sc, buf, rs)
  }

  ghost predicate Message(sc: Schema, buf: seq<Byte>, rs: seq<Rec>) {
    AllWellFormed(rs) && buf == EncodeAll(rs) && Accepts(sc, rs)
  }

  // ---- facts for the scanning loop ----

  /** What the scan keeps per field is where the records of the field lie among those seen. */
  ghost predicate Scanned(sc: Schema, rs: seq<Rec>, none: nat, start: seq<nat>, span: seq<nat>, count: seq<nat>) {
    && |start| == |span| == |count| == |sc|
    && (forall i :: 0 <= i < |sc| ==> SpanOf(rs, sc[i].id, none, Span(start[i], span[i], count[i])))
  }

  lemma ScanStep(sc: Schema, rs: seq<Rec>, r: Rec, none: nat, start: seq<nat>, span: seq<nat>, count: seq<nat>, j: nat)
    requires SchemaOk(sc) && Scanned(sc, rs, none, start, span, count) && j < |sc| && Matches(sc[j], r)
    requires |EncodeAll(rs)| < none
    ensures var sp := Extend(Span(start[j], span[j], count[j]), true, |EncodeAll(rs)|, |EncodeAll(rs + [r])|, none);
            Scanned(sc, rs + [r], none, start[j := sp.start], span[j := sp.len], count[j := sp.count])
  {
    hide EncodeAll, SpanOf;
    forall i | 0 <= i < |sc|
      ensures SpanOf(rs + [r], sc[i].id, none,
                     Extend(Span(start[i], span[i], count[i]), i == j, |EncodeAll(rs)|, |EncodeAll(rs + [r])|, none))
    {
      SpanNext(rs, r, sc[i].id, none, Span(start[i], span[i], count[i]));
    }
  }

  /** Bytes that do not continue with a record are no message. */
  lemma CutShort(sc: Schema, buf: seq<Byte>, rs: seq<Rec>, rest: seq<Byte>)
    requires AllWellFormed(rs) && buf == EncodeAll(rs) + rest && rest != [] && DecodeRec(rest).None?
    ensures !Parses(sc, buf)
  {
    hide EncodeRec, DecodeRec, Accepts;
    forall qs | Message(sc, buf, qs)
      ensures false
    {
      EncodingPrefix(rs, qs, rest);
      DecodeEncode(qs[|rs|], EncodeAll(qs[|rs|..][1..]));
    }
  }

  /** Neither are bytes with a record no field takes. */
  lemma NotInDescription(sc: Schema, buf: seq<Byte>, rs: seq<Rec>, rest: seq<Byte>)
    requires AllWellFormed(rs) && buf == EncodeAll(rs) + rest && DecodeRec(rest).Some?
    requires !Known(sc, DecodeRec(rest).value)
    ensures !Parses(sc, buf)
  {
    hide EncodeRec, Known;
    forall qs | Message(sc, buf, qs)
      ensures false
    {
      EncodingPrefix(rs, qs, rest);
      DecodeEncode(qs[|rs|], EncodeAll(qs[|rs|..][1..]));
    }
  }

  /** Nor are bytes where a field occurs too often or too rarely. */
  lemma CountWrong(sc: Schema, buf: seq<Byte>, rs: seq<Rec>, i: nat)
    requires AllWellFormed(rs) && buf == EncodeAll(rs) && i < |sc| && !CountOk(sc[i].card, |ValuesOf(rs, sc[i].id)|)
    ensures !Parses(sc, buf)
  {
    forall qs | Message(sc, buf, qs)
      ensures false
    {
      EncodingUnique(rs, qs);
    }
  }

  lemma TakeRecord(buf: seq<Byte>, rs: seq<Rec>, pos: nat)
    requires pos <= |buf| && AllWellFormed(rs) && buf[..pos] == EncodeAll(rs) && DecodeRec(buf[pos..]).Some?
    ensures var r := DecodeRec(buf[pos..]).value; var end := pos + |EncodeRec(r)|;
            end <= |buf| && AllWellFormed(rs + [r]) && buf[..end] == EncodeAll(rs + [r])
  {
    hide EncodeAll, EncodeRec, DecodeRec;
    var rest := buf[pos..];
    var r := DecodeRec(rest).value;
    EncodeDecode(rest);
    EncodeAppend(rs, r);
    var n := |EncodeRec(r)|;
    assert rest[..n] == EncodeRec(r);
    assert buf[..pos + n] == buf[..pos] + rest[..n];
  }

  /** Of a message, a record belongs to a field exactly when it bears its id. */
  lemma FieldById(sc: Schema, rs: seq<Rec>, k: nat, i: nat)
    requires SchemaOk(sc) && Accepts(sc, rs) && k < |rs| && i < |sc|
    ensures rs[k].id == sc[i].id <==> Matches(sc[i], rs[k])
  {
    assert Known(sc, rs[k]);
  }

  /** The state of a successfully initialized parser; `left[i]` are the values of field `i` not yet got. */
  ghost predicate ParserOk(sc: Schema, buf: seq<Byte>, start: seq<nat>, span: seq<nat>, pos: seq<nat>,
                           rs: seq<Rec>, at: seq<nat>, left: seq<seq<seq<Byte>>>) {
    && SchemaOk(sc) && Message(sc, buf, rs)
    && |start| == |span| == |pos| == |at| == |left| == |sc|
    && (forall i :: 0 <= i < |sc| ==> FieldState(sc[i].id, buf, start[i], span[i], pos[i], rs, at[i], left[i]))
  }

  ghost predicate FieldState(id: nat, buf: seq<Byte>, start: nat, span: nat, pos: nat, rs: seq<Rec>, at: nat,
                             left: seq<seq<Byte>>) {
    var sp := Span(start, span, |ValuesOf(rs, id)|);
    SpanOf(rs, id, |buf|, sp) && Cursor(rs, id, sp, pos, at, left)
  }

  lemma FieldReset(id: nat, buf: seq<Byte>, start: nat, span: nat, rs: seq<Rec>) returns (at: nat)
    requires SpanOf(rs, id, |buf|, Span(start, span, |ValuesOf(rs, id)|))
    ensures FieldState(id, buf, start, span, 0, rs, at, ValuesOf(rs, id))
  {
    at := CursorStart(rs, id, |buf|, Span(start, span, |ValuesOf(rs, id)|));
  }

  lemma FieldForward(id: nat, buf: seq<Byte>, start: nat, span: nat, rs: seq<Rec>) returns (at: nat)
    requires SpanOf(rs, id, |buf|, Span(start, span, |ValuesOf(rs, id)|))
    ensures FieldState(id, buf, start, span, span, rs, at, [])
  {
    at := CursorEnd(rs, id, |buf|, Span(start, span, |ValuesOf(rs, id)|));
  }

  lemma FieldEnd(id: nat, buf: seq<Byte>, start: nat, span: nat, pos: nat, rs: seq<Rec>, at: nat, left: seq<seq<Byte>>)
    requires FieldState(id, buf, start, span, pos, rs, at, left)
    ensures pos <= span && (pos == span <==> left == [])
  {
    hide SpanOf, Cursor;
    AtEndIffConsumed(rs, id, |buf|, Span(start, span, |ValuesOf(rs, id)|), pos, at, left);
  }

  lemma FieldRecord(id: nat, buf: seq<Byte>, start: nat, span: nat, pos: nat, rs: seq<Rec>, at: nat,
                    left: seq<seq<Byte>>)
    requires FieldState(id, buf, start, span, pos, rs, at, left) && AllWellFormed(rs) && buf == EncodeAll(rs)
    requires pos < span
    ensures at < |rs| && start + span <= |buf|
    ensures DecodeRec(buf[start + pos..start + span]) == Some(rs[at])
    ensures pos + |EncodeRec(rs[at])| <= span
    ensures rs[at].id == id ==> left != [] && left[0] == rs[at].body
    ensures FieldState(id, buf, start, span, pos + |EncodeRec(rs[at])|, rs, at + 1,
                       if rs[at].id == id then left[1..] else left)
  {
    hide SpanOf, Cursor, EncodeAll, EncodeRec, DecodeRec;
    CursorRecord(rs, id, |buf|, Span(start, span, |ValuesOf(rs, id)|), pos, at, left);
  }

  class Parser {
    const schema: Schema
    var buf: seq<Byte>
    var start: seq<nat>
    var span: seq<nat>
    var pos: seq<nat>
    ghost var rs: seq<Rec>
    ghost var at: seq<nat>
    ghost var left: seq<seq<seq<Byte>>>

    ghost predicate Valid()
      reads this
    {
      ParserOk(schema, buf, start, span, pos, rs, at, left)
    }

    constructor (schema: Schema)
      ensures this.schema == schema
    {
      this.schema := schema;
    }

    /** The field a record belongs to: the nested switch over type and id. */
    method FindField(r: Rec) returns (j: Option<nat>)
      ensures j.Some? ==> j.value < |schema| && Matches(schema[j.value], r)
      ensures j.None? ==> !Known(schema, r)
    {
      var i := 0;
      while i < |schema|
        invariant i <= |schema| && forall k :: 0 <= k < i ==> !Matches(schema[k], r)
      {
        if Matches(schema[i], r) {
          return Some(i);
        }
        i := i + 1;
      }
      return None;
    }

    /** Succeeds exactly on messages, and then has every value of every field still to give. */
    method Init(input: seq<Byte>) returns (ok: bool)
      requires SchemaOk(schema)
      modifies this
      ensures ok <==> Parses(schema, input)
      ensures ok ==> Valid() && buf == input
      ensures ok ==> forall i :: 0 <= i < |schema| ==> left[i] == ValuesOf(rs, schema[i].id)
    {
      hide Scanned, Known, DecodeRec, EncodeRec, EncodeAll, SchemaOk, Parses, AllWellFormed, ParserOk, ValuesOf;
      buf := input;
      start := seq(|schema|, _ => |input|);
      span := seq(|schema|, _ => 0);
      pos := seq(|schema|, _ => 0);
      var count: seq<nat> := seq(|schema|, _ => 0);
      var at0, remaining := 0, |input|;
      rs := [];
      NothingScanned(schema, |input|, start, span, count, input);

      while remaining > 0
        invariant buf == input && 0 <= at0 <= |input| && at0 + remaining == |input|
        invariant AllWellFormed(rs) && input[..at0] == EncodeAll(rs)
        invariant Scanned(schema, rs, |input|, start, span, count)
        invariant forall k :: 0 <= k < |rs| ==> Known(schema, rs[k])
        invariant |start| == |span| == |count| == |pos| == |schema| && forall i :: 0 <= i < |pos| ==> pos[i] == 0
      {
        assert input == input[..at0] + input[at0..];
        var d := DecodeRec(input[at0..]);
        if d.None? {
          CutShort(schema, input, rs, input[at0..]);
          return false;
        }
        var j := FindField(d.value);
        if j.None? {
          NotInDescription(schema, input, rs, input[at0..]);
          return false;
        }
        TakeRecord(input, rs, at0);
        var size := |EncodeRec(d.value)|;
        EncodeLength(d.value);
        KnownBy(schema, d.value, j.value);
        assert |EncodeAll(rs)| == at0 && |EncodeAll(rs + [d.value])| == at0 + size;
        count := NoteRecord(d.value, j.value, at0, at0 + size, count);
        at0, remaining := at0 + size, remaining - size;
      }
      assert input[..at0] == input;

      ok := CheckCounts(count);
      if ok {
        FinishInit(count);
      }
    }

    /** A record of field `j` widens the field's span and adds to its count. */
    method NoteRecord(r: Rec, j: nat, from: nat, to: nat, count: seq<nat>) returns (count1: seq<nat>)
      requires SchemaOk(schema) && Scanned(schema, rs, |buf|, start, span, count) && j < |schema|
      requires Matches(schema[j], r)
      requires from == |EncodeAll(rs)| < |buf| && to == |EncodeAll(rs + [r])|
      requires |start| == |span| == |count| == |schema|
      modifies this`start, this`span, this`rs
      ensures rs == old(rs) + [r] && Scanned(schema, rs, |buf|, start, span, count1)
      ensures |start| == |span| == |count1| == |schema|
    {
      hide Scanned, EncodeAll, SchemaOk, Matches;
      ScanStep(schema, rs, r, |buf|, start, span, count, j);
      assert start[j := start[j]] == start;
      if start[j] == |buf| {
        start := start[j := from];
      }
      span := span[j := Max(0, to - start[j])];
      count1 := count[j := count[j] + 1];
      rs := rs + [r];
    }

    method CheckCounts(count: seq<nat>) returns (ok: bool)
      requires SchemaOk(schema) && Scanned(schema, rs, |buf|, start, span, count)
      requires AllWellFormed(rs) && buf == EncodeAll(rs) && forall k :: 0 <= k < |rs| ==> Known(schema, rs[k])
      ensures ok ==> Message(schema, buf, rs)
      ensures ok <==> Parses(schema, buf)
    {
      hide Known, EncodeAll, SchemaOk, ValuesOf, AllWellFormed;
      var i := 0;
      while i < |schema|
        invariant i <= |schema|
        invariant forall k :: 0 <= k < i ==> CountOk(schema[k].card, |ValuesOf(rs, schema[k].id)|)
      {
        assert SpanOf(rs, schema[i].id, |buf|, Span(start[i], span[i], count[i]));
        if !CountOk(schema[i].card, count[i]) {
          CountWrong(schema, buf, rs, i);
          return false;
        }
        i := i + 1;
      }
      assert Message(schema, buf, rs);
      return true;
    }

    ghost method FinishInit(count: seq<nat>)
      requires SchemaOk(schema) && Scanned(schema, rs, |buf|, start, span, count) && Message(schema, buf, rs)
      requires |pos| == |schema| && forall i :: 0 <= i < |pos| ==> pos[i] == 0
      modifies this`at, this`left
      ensures Valid() && forall i :: 0 <= i < |schema| ==> left[i] == ValuesOf(rs, schema[i].id)
    {
      hide Known, EncodeAll, SchemaOk, ValuesOf, Message, SpanOf, Cursor, FieldState;
      at, left := [], [];
      for i := 0 to |schema|
        invariant |at| == |left| == i
        invariant forall k :: 0 <= k < i ==> left[k] == ValuesOf(rs, schema[k].id)
        invariant forall k :: 0 <= k < i ==> FieldState(schema[k].id, buf, start[k], span[k], 0, rs, at[k], left[k])
      {
        SpanCount(rs, schema[i].id, |buf|, Span(start[i], span[i], count[i]));
        var a := FieldReset(schema[i].id, buf, start[i], span[i], rs);
        at, left := at + [a], left + [ValuesOf(rs, schema[i].id)];
      }
    }

    /** The next value of a field, as bytes: the first one not yet got, which then counts as got. */
    method Get(i: nat) returns (v: Option<seq<Byte>>)
      requires Valid() && i < |schema|
      modifies this`pos, this`at, this`left
      ensures Valid()
      ensures v == if old(left[i]) == [] then None else Some(old(left[i])[0])
      ensures left == old(left)[i := if old(left[i]) == [] then [] else old(left[i])[1..]]
    {
      hide SchemaOk, Message, FieldState, DecodeRec, EncodeRec, EncodeAll, Accepts;
      ghost var p0, a0, l0 := pos, at, left;
      ghost var id := schema[i].id;
      var p := pos[i];
      ghost var k := at[i];
      FieldEnd(id, buf, start[i], span[i], p, rs, k, left[i]);
      MessageFacts(schema, buf, rs);

      while p < span[i]
        invariant start == old(start) && pos == p0 && at == a0 && left == l0
        invariant p <= span[i] && (p == span[i] ==> left[i] == [])
        invariant FieldState(id, buf, start[i], span[i], p, rs, k, left[i])
        decreases span[i] - p
      {
        FieldRecord(id, buf, start[i], span[i], p, rs, k, left[i]);
        var d := DecodeRec(buf[start[i] + p..start[i] + span[i]]);
        EncodeLength(d.value);
        p := p + |EncodeRec(d.value)|;
        FieldById(schema, rs, k, i);
        if d.value.ty == TypeCode(schema[i].ty) && d.value.id == schema[i].id {
          pos, at, left := pos[i := p], at[i := k + 1], left[i := left[i][1..]];
          return Some(d.value.body);
        }
        k := k + 1;
        FieldEnd(id, buf, start[i], span[i], p, rs, k, left[i]);
      }
      pos, at := pos[i := p], at[i := k];
      return None;
    }

    /** The next value of an integer field. */
    method GetUint(i: nat) returns (v: Option<nat>)
      requires Valid() && i < |schema| && schema[i].ty.Uint?
      modifies this`pos, this`at, this`left
      ensures Valid()
      ensures v == if old(left[i]) == [] then None else Some(GetLE(old(left[i])[0]))
      ensures left == old(left)[i := if old(left[i]) == [] then [] else old(left[i])[1..]]
    {
      var b := Get(i);
      v := if b.Some? then Some(GetLE(b.value)) else None;
    }

    method Reset(i: nat)
      requires Valid() && i < |schema|
      modifies this`pos, this`at, this`left
      ensures Valid() && left == old(left)[i := ValuesOf(rs, schema[i].id)]
    {
      hide SchemaOk, Message, ValuesOf, SpanOf, Cursor;
      pos := pos[i := 0];
      ghost var k := FieldReset(schema[i].id, buf, start[i], span[i], rs);
      at, left := at[i := k], left[i := ValuesOf(rs, schema[i].id)];
    }

    method Forward(i: nat)
      requires Valid() && i < |schema|
      modifies this`pos, this`at, this`left
      ensures Valid() && left == old(left)[i := []]
    {
      hide SchemaOk, Message, ValuesOf, SpanOf, Cursor;
      pos := pos[i := span[i]];
      ghost var k := FieldForward(schema[i].id, buf, start[i], span[i], rs);
      at, left := at[i := k], left[i := []];
    }

    /** True exactly when no field has a value left. */
    method GotEverything() returns (all: bool)
      requires Valid()
      ensures all <==> forall i :: 0 <= i < |schema| ==> left[i] == []
    {
      hide SchemaOk, Message, FieldState;
      var i := 0;
      while i < |schema|
        invariant i <= |schema| && forall k :: 0 <= k < i ==> left[k] == []
      {
        FieldEnd(schema[i].id, buf, start[i], span[i], pos[i], rs, at[i], left[i]);
        if pos[i] != span[i] {
          return false;
        }
        i := i + 1;
      }
      return true;
    }
  }

  lemma MessageFacts(sc: Schema, buf: seq<Byte>, rs: seq<Rec>)
    requires Message(sc, buf, rs)
    ensures AllWellFormed(rs) && buf == EncodeAll(rs) && Accepts(sc, rs)
  {
  }

  lemma SpanCount(rs: seq<Rec>, id: nat, none: nat, sp: Span)
    requires SpanOf(rs, id, none, sp)
    ensures sp.count == |ValuesOf(rs, id)|
  {
  }

  lemma KnownBy(sc: Schema, r: Rec, j: nat)
    requires j < |sc| && Matches(sc[j], r)
    ensures Known(sc, r)
  {
  }

  lemma NothingScanned(sc: Schema, none: nat, start: seq<nat>, span: seq<nat>, count: seq<nat>, input: seq<Byte>)
    requires |start| == |span| == |count| == |sc|
    requires forall i :: 0 <= i < |sc| ==> start[i] == none && span[i] == 0 && count[i] == 0
    ensures AllWellFormed([]) && input[..0] == EncodeAll([]) && Scanned(sc, [], none, start, span, count)
  {
  }

  // ---- writer ----

  /** The record a call for a field appends. */
  function RecordFor(f: Field, body: seq<Byte>): Rec {
    Rec(f.id, TypeCode(f.ty), body)
  }

  /** What a caller may pass for a field: the assertions of the generated code and the argument types. */
  predicate BodyOk(f: Field, body: seq<Byte>) {
    match f.ty
    case Uint(ty) => 1 <= ty <= 4 && |body| == UintSize(ty)
    case Data => |body| < TWO_32
    case ConstData(size) => |body| == size
  }

  ghost predicate Written(sc: Schema, rs: seq<Rec>, count: seq<nat>) {
    && |count| == |sc| && AllWellFormed(rs)
    && (forall k :: 0 <= k < |rs| ==> Known(sc, rs[k]))
    && (forall i :: 0 <= i < |sc| ==> count[i] == |ValuesOf(rs, sc[i].id)|)
  }

  lemma WriteStep(sc: Schema, rs: seq<Rec>, count: seq<nat>, i: nat, body: seq<Byte>)
    requires SchemaOk(sc) && Written(sc, rs, count) && i < |sc| && BodyOk(sc[i], body)
    ensures |count| == |sc| && Written(sc, rs + [RecordFor(sc[i], body)], count[i := count[i] + 1])
  {
    hide ValuesOf, Known;
    var r := RecordFor(sc[i], body);
    KnownBy(sc, r, i);
    assert FieldOk(sc[i]);
    forall j | 0 <= j < |sc|
      ensures count[i := count[i] + 1][j] == |ValuesOf(rs + [r], sc[j].id)|
    {
      ValuesAppend(rs, r, sc[j].id);
    }
  }

  /** What a finished writer holds is a message, of exactly the records written. */
  lemma FinishedParses(sc: Schema, rs: seq<Rec>, count: seq<nat>)
    requires Written(sc, rs, count) && forall i :: 0 <= i < |sc| ==> CountOk(sc[i].card, count[i])
    ensures Parses(sc, EncodeAll(rs))
    ensures forall qs :: Message(sc, EncodeAll(rs), qs) ==> qs == rs
  {
    assert Message(sc, EncodeAll(rs), rs);
    forall qs | Message(sc, EncodeAll(rs), qs)
      ensures qs == rs
    {
      EncodingUnique(qs, rs);
    }
  }

  class Writer {
    const schema: Schema
    const out: array<Byte>
    var used: nat
    var count: seq<nat>
    ghost var rs: seq<Rec>

    ghost predicate Valid()
      reads this, out
    {
      SchemaOk(schema) && used <= out.Length && out[..used] == EncodeAll(rs) && Written(schema, rs, count)
    }

    constructor (schema: Schema, out: array<Byte>)
      requires SchemaOk(schema)
      ensures Valid() && this.schema == schema && this.out == out && rs == []
    {
      this.schema, this.out, this.used, this.rs := schema, out, 0, [];
      this.count := seq(|schema|, _ => 0);
      new;
      assert out[..0] == EncodeAll([]);
    }

    method Put(data: seq<Byte>)
      requires used + |data| <= out.Length
      modifies this`used, out
      ensures used == old(used) + |data| && out[..used] == old(out[..used]) + data
    {
      var i := 0;
      while i < |data|
        invariant i <= |data| && used == old(used)
        invariant out[..used + i] == old(out[..used]) + data[..i]
      {
        out[used + i] := data[i];
        assert out[..used + (i + 1)] == out[..used + i] + [data[i]];
        assert data[..i + 1] == data[..i] + [data[i]];
        i := i + 1;
      }
      assert data[..i] == data;
      used := used + |data|;
    }

    /** Appends one value of a field; an optional or required field must not have one yet. */
    method Add(i: nat, body: seq<Byte>)
      requires Valid() && i < |schema| && BodyOk(schema[i], body)
      requires schema[i].card.Optional? || schema[i].card.Required? ==> count[i] == 0
      requires used + |EncodeRec(RecordFor(schema[i], body))| <= out.Length
      modifies this, out
      ensures Valid() && rs == old(rs) + [RecordFor(schema[i], body)]
      ensures count == old(count)[i := old(count[i]) + 1]
    {
      hide SchemaOk, Written, EncodeAll, EncodeRec;
      ghost var r := RecordFor(schema[i], body);
      WriteStep(schema, rs, count, i, body);
      EncodeAppend(rs, r);
      PutRecord(i, body);
      count := count[i := count[i] + 1];
      rs := rs + [r];
    }

    /** The header and the body of a record. */
    method PutRecord(i: nat, body: seq<Byte>)
      requires SchemaOk(schema) && i < |schema| && used + |EncodeRec(RecordFor(schema[i], body))| <= out.Length
      modifies this`used, out
      ensures used == old(used) + |EncodeRec(RecordFor(schema[i], body))|
      ensures out[..used] == old(out[..used]) + EncodeRec(RecordFor(schema[i], body))
    {
      hide SchemaOk, PutLE;
      FieldTypes(schema, i);
      ghost var before := out[..used];
      Put(PutLE(schema[i].id, 2));
      Put(PutLE(TypeCode(schema[i].ty), 2));
      if !schema[i].ty.Uint? {
        Put(PutLE(|body|, 4));
      }
      Put(body);
      Pieces(before, RecordFor(schema[i], body));
    }

    method AddUint(i: nat, v: nat)
      requires Valid() && i < |schema| && schema[i].ty.Uint? && 1 <= schema[i].ty.ty <= 4
      requires v < Pow256(UintSize(schema[i].ty.ty))
      requires schema[i].card.Optional? || schema[i].card.Required? ==> count[i] == 0
      requires used + HEADER_LEN + UintSize(schema[i].ty.ty) <= out.Length
      modifies this, out
      ensures Valid() && count == old(count)[i := old(count[i]) + 1]
      ensures |rs| == |old(rs)| + 1 && rs[..|old(rs)|] == old(rs)
      ensures rs[|old(rs)|].id == schema[i].id && GetLE(rs[|old(rs)|].body) == v
    {
      hide SchemaOk, Written, EncodeAll, PutLE, GetLE, Pow256;
      var n := UintSize(schema[i].ty.ty);
      GetPutLE(v, n);
      Add(i, PutLE(v, n));
    }

    /** The finished bytes parse, and only as the records written. */
    method Finish() returns (len: nat)
      requires Valid() && forall i :: 0 <= i < |schema| ==> CountOk(schema[i].card, count[i])
      ensures len == used && Parses(schema, out[..len])
      ensures forall qs :: Message(schema, out[..len], qs) ==> qs == rs
    {
      hide SchemaOk, Written, Message, Parses, EncodeAll;
      FinishedParses(schema, rs, count);
      len := used;
    }
  }

  lemma FieldTypes(sc: Schema, i: nat)
    requires SchemaOk(sc) && i < |sc|
    ensures sc[i].ty.Uint? <==> TypeCode(sc[i].ty) <= 4
  {
    assert FieldOk(sc[i]);
  }

  lemma Pieces(before: seq<Byte>, r: Rec)
    ensures before + PutLE(r.id, 2) + PutLE(r.ty, 2) + r.body ==
              before + (PutLE(r.id, 2) + PutLE(r.ty, 2) + [] + r.body)
    ensures before + PutLE(r.id, 2) + PutLE(r.ty, 2) + PutLE(|r.body|, 4) + r.body
         == before + (PutLE(r.id, 2) + PutLE(r.ty, 2) + PutLE(|r.body|, 4) + r.body)
  {
  }

  /** The round trip: what a finished writer holds parses, and every field has exactly the values written, in order. */
  method ReadBack(w: Writer, p: Parser)
    requires w.Valid() && p.schema == w.schema
    requires forall i :: 0 <= i < |w.schema| ==> CountOk(w.schema[i].card, w.count[i])
    modifies p
    ensures p.Valid() && p.rs == w.rs
    ensures forall i :: 0 <= i < |w.schema| ==> p.left[i] == ValuesOf(w.rs, w.schema[i].id)
  {
    hide SchemaOk, Written, EncodeAll, ValuesOf, Message, Parses;
    var len := w.Finish();
    var ok := p.Init(w.out[..len]);
    assert Message(w.schema, w.out[..len], p.rs);
  }
}
