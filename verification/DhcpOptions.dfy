/**
 * Reading a received DHCP packet, as recv_handler_done of dhcpclient/BDHCPClientCore.c does: the fixed header of
 * misc/dhcp_proto.h, then the options of section 2 of RFC 2132.
 */
module DhcpOptions {
  import opened Common
  import opened Dhcp

  const HEADER_LEN: nat := 240
  const MAGIC: nat := 0x63825363
  const MAX_SERVERS: nat := 16

  const SUBNET_MASK: nat := 1
  const ROUTER: nat := 3
  const DOMAIN_NAME_SERVER: nat := 6
  const LEASE_TIME: nat := 51
  const MESSAGE_TYPE: nat := 53
  const SERVER_IDENTIFIER: nat := 54

  /** A number in network byte order. */
  function Be32(s: seq<Byte>): nat
    requires |s| == 4
  {
    var a: int, b: int, c: int, d: int := s[0], s[1], s[2], s[3];
    a * 0x100_0000 + b * 0x1_0000 + c * 0x100 + d
  }

  // ---- items ----

  datatype Item = Pad | End | Opt(ty: Byte, val: seq<Byte>)

  predicate ItemOk(i: Item) {
    i.Opt? ==> 0 < i.ty < 255 && |i.val| < 256
  }

  ghost predicate AllOk(s: seq<Item>) {
    forall k :: 0 <= k < |s| ==> ItemOk(s[k])
  }

  function EncodeItem(i: Item): (s: seq<Byte>)
    requires ItemOk(i)
    ensures |s| > 0
  {
    match i
    case Pad => [0]
    case End => [255]
    case Opt(ty, val) => [ty, |val|] + val
  }

  ghost function EncodeItems(s: seq<Item>): seq<Byte>
    requires AllOk(s)
  {
    if s == [] then [] else EncodeItem(s[0]) + EncodeItems(s[1..])
  }

  /** The item at the front; None if it is cut short. */
  function NextItem(s: seq<Byte>): (r: Option<Item>)
    requires s != []
    ensures r.Some? ==> ItemOk(r.value) && |EncodeItem(r.value)| <= |s|
  {
    if s[0] == 0 then Some(Pad)
    else if s[0] == 255 then Some(End)
    else if |s| < 2 || s[1] > |s| - 2 then None
    else Some(Opt(s[0], s[2..2 + s[1]]))
  }

  lemma NextEncoded(i: Item, rest: seq<Byte>)
    requires ItemOk(i)
    ensures NextItem(EncodeItem(i) + rest) == Some(i)
    ensures (EncodeItem(i) + rest)[|EncodeItem(i)|..] == rest
  {
    if i.Opt? {
      assert (EncodeItem(i) + rest)[2..2 + |i.val|] == i.val;
    }
  }

  lemma EncodedNext(s: seq<Byte>)
    requires s != [] && NextItem(s).Some?
    ensures s == EncodeItem(NextItem(s).value) + s[|EncodeItem(NextItem(s).value)|..]
  {
  }

  lemma {:induction false} EncodeAppend(s: seq<Item>, i: Item)
    requires AllOk(s) && ItemOk(i)
    ensures AllOk(s + [i]) && EncodeItems(s + [i]) == EncodeItems(s) + EncodeItem(i)
    decreases |s|
  {
    hide EncodeItem;
    var t := s + [i];
    if s == [] {
      assert t[1..] == [] && EncodeItems(t) == EncodeItem(i) + EncodeItems([]);
    } else {
      assert t[0] == s[0] && t[1..] == s[1..] + [i];
      EncodeAppend(s[1..], i);
      assert EncodeItem(s[0]) + (EncodeItems(s[1..]) + EncodeItem(i)) ==
          EncodeItem(s[0]) + EncodeItems(s[1..]) + EncodeItem(i);
    }
  }

  /** Lists of items whose encodings start alike agree as far as the shorter goes. */
  lemma {:induction false} ItemsPrefix(s: seq<Item>, t: seq<Item>, rest: seq<Byte>)
    requires AllOk(s) && AllOk(t) && EncodeItems(s) + rest == EncodeItems(t)
    ensures s <= t && rest == EncodeItems(t[|s|..])
    decreases |s|
  {
    hide EncodeItem, NextItem;
    if s == [] {
      assert EncodeItems(s) + rest == rest;
    } else {
      assert EncodeItems(s) + rest == EncodeItem(s[0]) + (EncodeItems(s[1..]) + rest);
      assert t != [];
      NextEncoded(s[0], EncodeItems(s[1..]) + rest);
      NextEncoded(t[0], EncodeItems(t[1..]));
      ItemsPrefix(s[1..], t[1..], rest);
      assert s == [s[0]] + s[1..] && t == [t[0]] + t[1..];
      assert t[1..][|s| - 1..] == t[|s|..];
    }
  }

  // ---- what a list of items says ----

  predicate SizeOk(i: Item) {
    if !i.Opt? then true
    else if i.ty == MESSAGE_TYPE then |i.val| == 1
    else if i.ty == SERVER_IDENTIFIER || i.ty == LEASE_TIME || i.ty == SUBNET_MASK || i.ty == ROUTER then |i.val| == 4
    else if i.ty == DOMAIN_NAME_SERVER then |i.val| % 4 == 0
    else true
  }

  /** One end mark, options only before it, and padding anywhere. */
  ghost predicate EndsAt(s: seq<Item>, k: nat) {
    k < |s| && s[k].End? && (forall i :: 0 <= i < k ==> !s[i].End?) && (forall i :: k < i < |s| ==> s[i].Pad?)
  }

  ghost predicate Proper(s: seq<Item>) {
    (exists k: nat :: EndsAt(s, k)) && (forall i :: 0 <= i < |s| ==> SizeOk(s[i]))
  }

  /** The value of the last option of a type. */
  ghost function Last(s: seq<Item>, ty: nat): Option<seq<Byte>> {
    if s == [] then None
    else
      var i := s[|s| - 1];
      if i.Opt? && i.ty == ty then Some(i.val) else Last(s[..|s| - 1], ty)
  }

  function Number(o: Option<seq<Byte>>): Option<nat> {
    if o.Some? && |o.value| == 4 then Some(Be32(o.value)) else None
  }

  /** Up to sixteen addresses. */
  function Servers(v: seq<Byte>, n: nat): (r: seq<nat>)
    requires 4 * n <= |v|
    ensures |r| == n && forall i :: 0 <= i < n ==> r[i] == Be32(v[4 * i..4 * i + 4])
  {
    if n == 0 then [] else Servers(v, n - 1) + [Be32(v[4 * (n - 1)..4 * (n - 1) + 4])]
  }

  datatype Options = Options(kind: Option<nat>, server: Option<nat>, lease: Option<nat>, mask: Option<nat>,
                             router: Option<nat>, dns: seq<nat>)

  function KindOf(o: Option<seq<Byte>>): Option<nat> {
    if o.Some? && |o.value| == 1 then Some(o.value[0]) else None
  }

  function ServersOf(o: Option<seq<Byte>>): seq<nat> {
    if o.Some? then Servers(o.value, Min(|o.value| / 4, MAX_SERVERS)) else []
  }

  /** Of every option the last occurrence counts. */
  ghost function Says(s: seq<Item>): Options {
    Options(KindOf(Last(s, MESSAGE_TYPE)), Number(Last(s, SERVER_IDENTIFIER)), Number(Last(s, LEASE_TIME)),
            Number(Last(s, SUBNET_MASK)), Number(Last(s, ROUTER)), ServersOf(Last(s, DOMAIN_NAME_SERVER)))
  }

  ghost predicate Means(data: seq<Byte>, s: seq<Item>) {
    AllOk(s) && EncodeItems(s) == data && Proper(s)
  }

  // ---- the loop ----

  function Update(o: Options, i: Item): Options {
    if !i.Opt? then o
    else if i.ty == MESSAGE_TYPE then o.(kind := KindOf(Some(i.val)))
    else if i.ty == SERVER_IDENTIFIER then o.(server := Number(Some(i.val)))
    else if i.ty == LEASE_TIME then o.(lease := Number(Some(i.val)))
    else if i.ty == SUBNET_MASK then o.(mask := Number(Some(i.val)))
    else if i.ty == ROUTER then o.(router := Number(Some(i.val)))
    else if i.ty == DOMAIN_NAME_SERVER then o.(dns := ServersOf(Some(i.val)))
    else o
  }

  lemma SaysNext(s: seq<Item>, i: Item)
    ensures Says(s + [i]) == Update(Says(s), i)
  {
    assert (s + [i])[..|s|] == s;
  }

  ghost predicate EndSeen(s: seq<Item>, haveEnd: bool) {
    if haveEnd then exists k: nat :: EndsAt(s, k) else forall k :: 0 <= k < |s| ==> !s[k].End?
  }

  /** What the loop knows after reading the items `s` from the front of the data. */
  ghost predicate Reading(data: seq<Byte>, pos: nat, s: seq<Item>, haveEnd: bool) {
    && pos <= |data| && AllOk(s) && data[..pos] == EncodeItems(s)
    && EndSeen(s, haveEnd) && (forall i :: 0 <= i < |s| ==> SizeOk(s[i]))
  }

  lemma ReadNext(data: seq<Byte>, pos: nat, s: seq<Item>, haveEnd: bool)
    requires Reading(data, pos, s, haveEnd) && pos < |data| && NextItem(data[pos..]).Some?
    requires var i := NextItem(data[pos..]).value; SizeOk(i) && (haveEnd ==> i.Pad?)
    ensures var i := NextItem(data[pos..]).value;
            Reading(data, pos + |EncodeItem(i)|, s + [i], haveEnd || i.End?)
  {
    hide EncodeItem, NextItem, SizeOk;
    var rest := data[pos..];
    var i := NextItem(rest).value;
    var n := |EncodeItem(i)|;
    EncodedNext(rest);
    EncodeAppend(s, i);
    assert rest[..n] == EncodeItem(i);
    assert data[..pos + n] == data[..pos] + rest[..n];
    if haveEnd {
      var k: nat :| EndsAt(s, k);
      assert EndsAt(s + [i], k);
    } else if i.End? {
      assert EndsAt(s + [i], |s|);
    }
  }

  /** If the next item is missing or out of place, no list of items reads as the data. */
  lemma Refused(data: seq<Byte>, pos: nat, s: seq<Item>, haveEnd: bool, t: seq<Item>)
    requires Reading(data, pos, s, haveEnd) && Means(data, t)
    requires pos < |data|
    ensures NextItem(data[pos..]).Some?
    ensures var i := NextItem(data[pos..]).value; SizeOk(i) && (haveEnd ==> i.Pad?)
  {
    hide EncodeItem, NextItem, SizeOk;
    assert data == EncodeItems(s) + data[pos..];
    ItemsPrefix(s, t, data[pos..]);
    var rest := t[|s|..];
    NextEncoded(rest[0], EncodeItems(rest[1..]));
    if haveEnd {
      var k: nat :| EndsAt(s, k);
      assert t[k] == s[k];
      var j: nat :| EndsAt(t, j);
      assert j == k;
    }
  }

  lemma AllRead(data: seq<Byte>, s: seq<Item>, haveEnd: bool, t: seq<Item>)
    requires Reading(data, |data|, s, haveEnd) && Means(data, t)
    ensures t == s && haveEnd
  {
    assert data[..|data|] == data && EncodeItems(s) + [] == EncodeItems(t);
    ItemsPrefix(s, t, []);
  }

  method ReadServers(v: seq<Byte>) returns (dns: seq<nat>)
    ensures dns == ServersOf(Some(v))
  {
    var n := |v| / 4;
    dns := [];
    var i := 0;
    while i < n && i < MAX_SERVERS
      invariant 0 <= i <= n && i <= MAX_SERVERS && dns == Servers(v, i)
    {
      dns := dns + [Be32(v[i * 4..i * 4 + 4])];
      i := i + 1;
    }
  }

  /** Reads the options, or fails exactly when the data is no proper list of options. */
  method ParseOptions(data: seq<Byte>) returns (r: Option<Options>)
    ensures r.Some? <==> exists s :: Means(data, s)
    ensures forall s :: Means(data, s) ==> r == Some(Says(s))
  {
    hide Means, Says, Update, Reading, NextItem, EncodeItem;
    var pos, haveEnd := 0, false;
    var o := Options(None, None, None, None, None, []);
    ghost var s: seq<Item> := [];
    NothingRead(data);
    while pos < |data|
      invariant 0 <= pos <= |data| && Reading(data, pos, s, haveEnd) && o == Says(s)
    {
      forall t | Means(data, t)
        ensures NextItem(data[pos..]).Some? && SizeOk(NextItem(data[pos..]).value) &&
                  (haveEnd ==> NextItem(data[pos..]).value.Pad?)
      {
        Refused(data, pos, s, haveEnd, t);
      }
      var next := NextItem(data[pos..]);
      if next.None? {
        return None;
      }
      var i := next.value;
      if haveEnd && !i.Pad? {
        return None;
      }
      if !SizeOk(i) {
        return None;
      }
      ReadNext(data, pos, s, haveEnd);
      SaysNext(s, i);
      o := Interpret(o, i);
      haveEnd := haveEnd || i.End?;
      pos := pos + |EncodeItem(i)|;
      s := s + [i];
    }
    forall t | Means(data, t)
      ensures t == s && haveEnd
    {
      AllRead(data, s, haveEnd, t);
    }
    if !haveEnd {
      return None;
    }
    Complete(data, s);
    return Some(o);
  }

  lemma NothingRead(data: seq<Byte>)
    ensures Reading(data, 0, [], false) && Says([]) == Options(None, None, None, None, None, [])
  {
  }

  lemma Complete(data: seq<Byte>, s: seq<Item>)
    requires Reading(data, |data|, s, true)
    ensures Means(data, s)
  {
    assert data[..|data|] == data;
  }

  /** The switch over the option's type. */
  method Interpret(o: Options, i: Item) returns (r: Options)
    requires SizeOk(i)
    ensures r == Update(o, i)
  {
    r := o;
    if i.Opt? {
      if i.ty == MESSAGE_TYPE {
        r := r.(kind := Some(i.val[0]));
      } else if i.ty == SERVER_IDENTIFIER {
        r := r.(server := Some(Be32(i.val)));
      } else if i.ty == LEASE_TIME {
        r := r.(lease := Some(Be32(i.val)));
      } else if i.ty == SUBNET_MASK {
        r := r.(mask := Some(Be32(i.val)));
      } else if i.ty == ROUTER {
        r := r.(router := Some(Be32(i.val)));
      } else if i.ty == DOMAIN_NAME_SERVER {
        var dns := ReadServers(i.val);
        r := r.(dns := dns);
      }
    }
  }

  // ---- the packet ----

  predicate HeaderOk(mac: seq<Byte>, data: seq<Byte>) {
    && |data| >= HEADER_LEN && data[0] == 2 && data[1] == 1 && data[2] == 6
    && data[28..34] == mac && Be32(data[236..240]) == MAGIC
  }

  function KindFor(code: nat): Option<Kind> {
    if code == 2 then Some(Offer) else if code == 5 then Some(Ack) else if code == 6 then Some(Nak) else None
  }

  /** The message the options describe; it must have a type of interest and say which server it is from. */
  function ReplyFor(xid: nat, yiaddr: nat, o: Options): Option<Reply> {
    if o.kind.None? || KindFor(o.kind.value).None? || o.server.None? then None
    else Some(Reply(xid, KindFor(o.kind.value).value, o.server.value, yiaddr, o.lease, o.mask, o.router, o.dns))
  }

  /** The packet is a reply for this client, and says `r`. */
  ghost predicate Carries(mac: seq<Byte>, data: seq<Byte>, r: Reply) {
    && HeaderOk(mac, data)
    && exists s :: Means(data[HEADER_LEN..], s) && ReplyFor(Be32(data[4..8]), Be32(data[16..20]), Says(s)) == Some(r)
  }

  /** Reads the one reply a packet carries, and none exactly when it carries none. */
  method ParseReply(mac: seq<Byte>, data: seq<Byte>) returns (r: Option<Reply>)
    ensures r.Some? ==> Carries(mac, data, r.value)
    ensures forall x :: Carries(mac, data, x) ==> r == Some(x)
  {
    hide Means, Says, ReplyFor;
    if !HeaderOk(mac, data) {
      return None;
    }
    var o := ParseOptions(data[HEADER_LEN..]);
    if o.None? {
      return None;
    }
    r := ReplyFor(Be32(data[4..8]), Be32(data[16..20]), o.value);
  }
}
