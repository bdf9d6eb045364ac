/** PSON v2: the JSON values the library exchanges, the bytes they are written as and the
    value a reader makes of any bytes.  These functions are the specification that the
    imperative encoder and decoder in PsonCodec.dfy are proved against. */
module Pson {
  import opened Bytes
  import opened Floats
  import opened Varint

  /** A `nlohmann::json`.  It tells signed from unsigned integers and both from numbers in
      double precision; an object is a `std::map`, so its members are listed by increasing key. */
  datatype Json =
    | Null
    | Bool(b: bool)
    | Uint(u: u64)
    | Int(i: i64)
    | Real(d: Double)
    | Str(text: Text)
    | Bin(bytes: seq<byte>)
    | Arr(items: seq<Json>)
    | Obj(members: seq<Member>)

  datatype Member = Member(key: Text, value: Json)

  // The three wire bits of a tag.
  const UNSIGNED: nat := 0
  const SIGNED: nat := 1
  const FLOATING: nat := 2
  const DISCRETE: nat := 3
  const STRING: nat := 4
  const BYTES: nat := 5
  const MAP: nat := 6
  const ARRAY: nat := 7

  const UINT32_MAX: nat := 0xffff_ffff

  /** The part of a `std::string` that `c_str` and `strlen` see. */
  function CStr(s: Text): (r: Text)
    ensures |r| <= |s| && 0 !in r
    ensures r == s <==> 0 !in s
  {
    if s == [] || s[0] == 0 then []
    else
      var r := [s[0]] + CStr(s[1..]);
      assert 0 in s ==> 0 in s[1..];
      assert s == [s[0]] + s[1..];
      assert r[1..] == CStr(s[1..]);
      r
  }

  // ---- writing ----------------------------------------------------------------------

  /** Three bits of wire type and five of payload; 31 says that a varint follows. */
  function EncodeTag(wire: nat, payload: nat): (s: seq<byte>)
    requires wire < 8
    ensures s != []
  {
    if payload < 0x1f then [wire * 32 + payload]
    else [wire * 32 + 0x1f] + EncodeVarint(payload)
  }

  function EncodeString(s: Text): seq<byte> {
    EncodeTag(STRING, |CStr(s)|) + CStr(s)
  }

  function IntegerWire(i: i64): nat {
    if i < 0 then SIGNED else UNSIGNED
  }

  /** The bytes of a number that is no integer: in single precision if that holds it. */
  function FloatBytes(d: Double): seq<byte> {
    match Narrow(d)
    case Some(s) => SingleBytes(s)
    case None => DoubleBytes(d)
  }

  /** The wire type and the payload `v` is announced with: of a negative number `-signed_value`,
      passed on as an unsigned one; a float that is an integer goes as that integer … */
  function Wire(v: Json): (w: nat)
    ensures w < 8
  {
    match v
    case Null => DISCRETE
    case Bool(_) => DISCRETE
    case Uint(_) => UNSIGNED
    case Int(i) => IntegerWire(i)
    case Real(d) => if Whole(d).Some? then IntegerWire(Whole(d).value) else FLOATING
    case Str(_) => STRING
    case Bin(_) => BYTES
    case Arr(_) => ARRAY
    case Obj(_) => MAP
  }

  function Payload(v: Json): nat {
    match v
    case Null => 2
    case Bool(b) => if b then 1 else 0
    case Uint(u) => u
    case Int(i) => Abs(i)
    case Real(d) => if Whole(d).Some? then Abs(Whole(d).value) else if Narrow(d).Some? then 0 else 1
    case Str(s) => |CStr(s)|
    case Bin(b) => |b|
    case Arr(items) => |items|
    case Obj(members) => |members|
  }

  /** … and what follows the tag. */
  function Body(v: Json): seq<byte>
    decreases v, 0
  {
    match v
    case Real(d) => if Whole(d).Some? then [] else FloatBytes(d)
    case Str(s) => CStr(s)
    case Bin(b) => b
    case Arr(items) => EncodeItems(items)
    case Obj(members) => EncodeMembers(members)
    case _ => []
  }

  function Encode(v: Json): (s: seq<byte>)
    ensures s != []
    decreases v, 1
  {
    EncodeTag(Wire(v), Payload(v)) + Body(v)
  }

  function EncodeItems(items: seq<Json>): seq<byte>
    decreases items, 0
  {
    if items == [] then [] else Encode(items[0]) + EncodeItems(items[1..])
  }

  function EncodeMember(m: Member): seq<byte>
    decreases m, 0
  {
    EncodeString(m.key) + Encode(m.value)
  }

  function EncodeMembers(members: seq<Member>): seq<byte>
    decreases members, 0
  {
    if members == [] then [] else EncodeMember(members[0]) + EncodeMembers(members[1..])
  }

  // ---- reading ----------------------------------------------------------------------

  datatype TagRead = Tag(wire: nat, payload: u64, next: nat) | NoTag

  function DecodeTag(buf: seq<byte>, pos: nat): (r: TagRead)
    requires pos <= |buf|
    ensures r.Tag? ==> pos < r.next <= |buf| && r.wire < 8
  {
    if pos == |buf| then NoTag
    else if buf[pos] % 32 != 0x1f then Tag(buf[pos] / 32, buf[pos] % 32, pos + 1)
    else
      match ReadVarint64(buf, pos + 1)
      case Varint(value, next) => Tag(buf[pos] / 32, value, next)
      case Malformed => NoTag
  }

  datatype Decoded<T> = Done(value: T, next: nat) | Fail

  /** `n` raw bytes. */
  function Take(buf: seq<byte>, pos: nat, n: nat): (r: Decoded<seq<byte>>)
    requires pos <= |buf|
    ensures r.Done? ==> r.next == pos + n <= |buf| && r.value == buf[pos..pos + n]
  {
    if pos + n <= |buf| then Done(buf[pos..pos + n], pos + n) else Fail
  }

  /** Raw bytes whose number came from a tag; the decoder refuses 2^32 and more. */
  function TakeSized(buf: seq<byte>, pos: nat, n: nat): (r: Decoded<seq<byte>>)
    requires pos <= |buf|
    ensures r.Done? ==> r.next == pos + n <= |buf| && r.value == buf[pos..pos + n]
  {
    if n > UINT32_MAX then Fail else Take(buf, pos, n)
  }

  /** `-static_cast<int64_t>(p)`, in two's complement. */
  function Negated(p: u64): i64 {
    var n: int := p;
    if n <= TWO63 then -n else TWO64 - n
  }

  /** `object[key] = value` on a map kept in key order: in place if the key is there. */
  function Insert(members: seq<Member>, key: Text, value: Json): seq<Member> {
    if members == [] then [Member(key, value)]
    else if key == members[0].key then [Member(key, value)] + members[1..]
    else if Less(key, members[0].key) then [Member(key, value)] + members
    else [members[0]] + Insert(members[1..], key, value)
  }

  function Decode(buf: seq<byte>, pos: nat): (r: Decoded<Json>)
    requires pos <= |buf|
    ensures r.Done? ==> pos < r.next <= |buf|
    decreases |buf| - pos, 0
  {
    match DecodeTag(buf, pos)
    case NoTag => Fail
    case Tag(wire, p, next) => DecodeBody(buf, next, wire, p)
  }

  /** The value a tag with wire type `wire` and payload `p` announces. */
  function DecodeBody(buf: seq<byte>, pos: nat, wire: nat, p: u64): (r: Decoded<Json>)
    requires pos <= |buf|
    ensures r.Done? ==> pos <= r.next <= |buf|
    decreases |buf| - pos, 3
  {
    if wire == UNSIGNED then Done(Uint(p), pos)
    else if wire == SIGNED then Done(Int(Negated(p)), pos)
    else if wire == FLOATING then DecodeFloat(buf, pos, p)
    else if wire == DISCRETE then
      if p == 0 then Done(Bool(false), pos)
      else if p == 1 then Done(Bool(true), pos)
      else if p == 2 then Done(Null, pos)
      else Fail
    else if wire == STRING then
      match TakeSized(buf, pos, p)
      case Done(s, end) => Done(Str(s), end)
      case Fail => Fail
    else if wire == BYTES then
      match TakeSized(buf, pos, p)
      case Done(s, end) => Done(Bin(s), end)
      case Fail => Fail
    else if wire == MAP then
      match DecodeMembers(buf, pos, p, [])
      case Done(members, end) => Done(Obj(members), end)
      case Fail => Fail
    else
      match DecodeItems(buf, pos, p, [])
      case Done(items, end) => Done(Arr(items), end)
      case Fail => Fail
  }

  function DecodeFloat(buf: seq<byte>, pos: nat, p: u64): (r: Decoded<Json>)
    requires pos <= |buf|
    ensures r.Done? ==> pos < r.next <= |buf|
  {
    if p == 0 then
      match Take(buf, pos, 4)
      case Done(s, end) => Done(Real(Widen(SingleOf(s))), end)
      case Fail => Fail
    else if p == 1 then
      match Take(buf, pos, 8)
      case Done(s, end) => Done(Real(DoubleOf(s)), end)
      case Fail => Fail
    else Fail
  }

  /** `count` more values after the ones in `items`.  The measure is the bytes left: what
      the input declares as `count` plays no part in it. */
  function DecodeItems(buf: seq<byte>, pos: nat, count: nat, items: seq<Json>): (r: Decoded<seq<Json>>)
    requires pos <= |buf|
    ensures r.Done? ==> pos <= r.next <= |buf|
    decreases |buf| - pos, 1
  {
    if count == 0 then Done(items, pos)
    else
      match Decode(buf, pos)
      case Done(v, next) => DecodeItems(buf, next, count - 1, items + [v])
      case Fail => Fail
  }

  function DecodeKey(buf: seq<byte>, pos: nat): (r: Decoded<Text>)
    requires pos <= |buf|
    ensures r.Done? ==> pos < r.next <= |buf|
  {
    match DecodeTag(buf, pos)
    case NoTag => Fail
    case Tag(wire, p, next) => if wire != STRING then Fail else TakeSized(buf, next, p)
  }

  function DecodeMember(buf: seq<byte>, pos: nat): (r: Decoded<Member>)
    requires pos <= |buf|
    ensures r.Done? ==> pos < r.next <= |buf|
    decreases |buf| - pos, 1
  {
    match DecodeKey(buf, pos)
    case Fail => Fail
    case Done(key, next) =>
      match Decode(buf, next)
      case Done(v, end) => Done(Member(key, v), end)
      case Fail => Fail
  }

  function DecodeMembers(buf: seq<byte>, pos: nat, count: nat, members: seq<Member>): (r: Decoded<seq<Member>>)
    requires pos <= |buf|
    ensures r.Done? ==> pos <= r.next <= |buf|
    decreases |buf| - pos, 2
  {
    if count == 0 then Done(members, pos)
    else
      match DecodeMember(buf, pos)
      case Done(m, next) => DecodeMembers(buf, next, count - 1, Insert(members, m.key, m.value))
      case Fail => Fail
  }

  // ---- what a failure leaves ---------------------------------------------------------

  /** `object[key]`, which makes a member that is not there. */
  function Lookup(members: seq<Member>, key: Text): Json {
    if members == [] then Null
    else if members[0].key == key then members[0].value
    else Lookup(members[1..], key)
  }

  /** What a failing decoder leaves in the value it was given to fill: objects and arrays as far
      as they came, anything else as it was. */
  function Left(buf: seq<byte>, pos: nat, prior: Json): Json
    requires pos <= |buf|
    decreases |buf| - pos, 0
  {
    match DecodeTag(buf, pos)
    case NoTag => prior
    case Tag(wire, p, next) => LeftBody(buf, next, wire, p, prior)
  }

  function LeftBody(buf: seq<byte>, pos: nat, wire: nat, p: u64, prior: Json): Json
    requires pos <= |buf|
    decreases |buf| - pos, 3
  {
    if wire == MAP then Obj(LeftMembers(buf, pos, p, []))
    else if wire == ARRAY then Arr(LeftItems(buf, pos, p, []))
    else prior
  }

  function LeftItems(buf: seq<byte>, pos: nat, count: nat, items: seq<Json>): seq<Json>
    requires pos <= |buf|
    decreases |buf| - pos, 1
  {
    if count == 0 then items
    else
      match Decode(buf, pos)
      case Done(v, next) => LeftItems(buf, next, count - 1, items + [v])
      case Fail => items
  }

  /** A member whose key was read stays, with what its value came to. */
  function LeftMember(buf: seq<byte>, pos: nat, members: seq<Member>): seq<Member>
    requires pos <= |buf|
    decreases |buf| - pos, 1
  {
    match DecodeKey(buf, pos)
    case Fail => members
    case Done(key, next) => Insert(members, key, Left(buf, next, Lookup(members, key)))
  }

  function LeftMembers(buf: seq<byte>, pos: nat, count: nat, members: seq<Member>): seq<Member>
    requires pos <= |buf|
    decreases |buf| - pos, 2
  {
    if count == 0 then members
    else
      match DecodeMember(buf, pos)
      case Done(m, next) => LeftMembers(buf, next, count - 1, Insert(members, m.key, m.value))
      case Fail => LeftMember(buf, pos, members)
  }
}
