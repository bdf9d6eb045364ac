/** What the PSON codec promises: a reader gets back what was written, whatever follows
    it; what it gets back is the same value except for text behind a NUL; and writing
    again what was read takes no more room, but for certain floats. */
module PsonLaws {
  import opened Bytes
  import opened Floats
  import opened Varint
  import opened Pson

  // ---- which values, and what becomes of them ---------------------------------------

  /** Members listed by strictly increasing key. */
  predicate Sorted(members: seq<Member>) {
    forall i, j :: 0 <= i < j < |members| ==> Less(members[i].key, members[j].key)
  }

  /** What a `nlohmann::json` in memory can be: counts and lengths are a `size_t`, objects
      are in key order. */
  predicate Representable(v: Json)
    decreases v
  {
    match v
    case Str(s) => |s| < TWO64
    case Bin(b) => |b| < TWO64
    case Arr(items) => |items| < TWO64 && AllRepresentable(items)
    case Obj(members) => |members| < TWO64 && Sorted(members) && MembersRepresentable(members)
    case _ => true
  }

  predicate AllRepresentable(items: seq<Json>)
    decreases items
  {
    items == [] || (Representable(items[0]) && AllRepresentable(items[1..]))
  }

  predicate MembersRepresentable(members: seq<Member>)
    decreases members
  {
    members == [] ||
    (|members[0].key| < TWO64 && Representable(members[0].value) && MembersRepresentable(members[1..]))
  }

  /** No written string, key or byte block has 2^32 bytes or more: the decoder's limit. */
  predicate Fits(v: Json)
    decreases v
  {
    match v
    case Str(s) => |CStr(s)| <= UINT32_MAX
    case Bin(b) => |b| <= UINT32_MAX
    case Arr(items) => ItemsFit(items)
    case Obj(members) => MembersFit(members)
    case _ => true
  }

  predicate ItemsFit(items: seq<Json>)
    decreases items
  {
    items == [] || (Fits(items[0]) && ItemsFit(items[1..]))
  }

  predicate MemberFits(m: Member)
    decreases m
  {
    |CStr(m.key)| <= UINT32_MAX && Fits(m.value)
  }

  predicate MembersFit(members: seq<Member>)
    decreases members
  {
    members == [] || (MemberFits(members[0]) && MembersFit(members[1..]))
  }

  /** An integer as the decoder gives it. */
  function Integer(i: i64): Json {
    if i < 0 then Int(i) else Uint(i)
  }

  /** The value that arrives: text cut at its first NUL, floats that are integers as integers,
      non-negative ones unsigned, members stored one by one under their cut keys. */
  function Received(v: Json): Json
    decreases v, 0
  {
    match v
    case Int(i) => Integer(i)
    case Real(d) => if Whole(d).Some? then Integer(Whole(d).value) else v
    case Str(s) => Str(CStr(s))
    case Arr(items) => Arr(ReceivedItems(items))
    case Obj(members) => Obj(ReceivedMembers(members, []))
    case _ => v
  }

  function ReceivedItems(items: seq<Json>): (r: seq<Json>)
    ensures |r| == |items|
    decreases items, 0
  {
    if items == [] then [] else [Received(items[0])] + ReceivedItems(items[1..])
  }

  function ReceivedMembers(members: seq<Member>, into: seq<Member>): seq<Member>
    decreases members, 0
  {
    if members == [] then into
    else ReceivedMembers(members[1..], Insert(into, CStr(members[0].key), Received(members[0].value)))
  }

  // ---- round trip -------------------------------------------------------------------

  lemma TagRoundTrip(buf: seq<byte>, pos: nat, wire: nat, p: u64)
    requires wire < 8 && At(buf, pos, EncodeTag(wire, p))
    ensures DecodeTag(buf, pos) == Tag(wire, p, pos + |EncodeTag(wire, p)|)
  {
    if p < 0x1f {
      assert buf[pos] == EncodeTag(wire, p)[0];
    } else {
      var first: seq<byte> := [wire * 32 + 0x1f];
      AtConcat(buf, pos, first, EncodeVarint(p));
      assert first[0] == buf[pos + 0];
      ReadEncoded64(buf, pos + 1, p);
    }
  }

  lemma SizedRoundTrip(buf: seq<byte>, pos: nat, s: seq<byte>)
    requires At(buf, pos, s)
    ensures TakeSized(buf, pos, |s|) == if |s| <= UINT32_MAX then Done(s, pos + |s|) else Fail
  {
    AtSlice(buf, pos, s);
  }

  /** Wherever `Encode(v)` stands, and whatever stands behind it, the decoder reads all of
      it and no more, and delivers `Received(v)`; it refuses exactly the values that hold a
      string or block past its limit. */
  lemma {:induction false} RoundTrip(buf: seq<byte>, pos: nat, v: Json)
    requires Representable(v) && At(buf, pos, Encode(v))
    ensures Decode(buf, pos) == if Fits(v) then Done(Received(v), pos + |Encode(v)|) else Fail
    decreases v, 1
  {
    var tag := EncodeTag(Wire(v), Payload(v));
    AtConcat(buf, pos, tag, Body(v));
    hide At, EncodeTag, DecodeTag, Body, DecodeBody, Fits, Received;
    TagRoundTrip(buf, pos, Wire(v), Payload(v));
    BodyRoundTrip(buf, pos + |tag|, v);
  }

  /** A float arrives as the number it is, in whichever of the three forms it travels. */
  lemma FloatRoundTrip(buf: seq<byte>, pos: nat, d: Double)
    requires At(buf, pos, Body(Real(d)))
    ensures DecodeBody(buf, pos, Wire(Real(d)), Payload(Real(d))) == Done(Received(Real(d)), pos + |Body(Real(d))|)
  {
    hide Whole, Narrow, Widen, SingleBytes, SingleOf, DoubleBytes, DoubleOf;
    AtSlice(buf, pos, Body(Real(d)));
    if Whole(d) == None {
      if Narrow(d).Some? {
        NarrowedWidens(d);
        SingleRoundTrip(Narrow(d).value);
      } else {
        DoubleRoundTrip(d);
      }
    }
  }

  lemma {:induction false} BodyRoundTrip(buf: seq<byte>, pos: nat, v: Json)
    requires Representable(v) && At(buf, pos, Body(v))
    ensures DecodeBody(buf, pos, Wire(v), Payload(v)) ==
            if Fits(v) then Done(Received(v), pos + |Body(v)|) else Fail
    decreases v, 0
  {
    match v
    case Real(d) => FloatRoundTrip(buf, pos, d);
    case Str(s) => SizedRoundTrip(buf, pos, CStr(s));
    case Bin(b) => SizedRoundTrip(buf, pos, b);
    case Arr(items) => ItemsRoundTrip(buf, pos, items, []); assert [] + ReceivedItems(items) == ReceivedItems(items);
    case Obj(members) => MembersRoundTrip(buf, pos, members, []);
    case _ =>
  }

  lemma FirstItem(buf: seq<byte>, pos: nat, items: seq<Json>)
    requires items != [] && At(buf, pos, EncodeItems(items))
    ensures var first, rest := Encode(items[0]), EncodeItems(items[1..]);
            && At(buf, pos, first) && At(buf, pos + |first|, rest)
            && |EncodeItems(items)| == |first| + |rest|
  {
    AtConcat(buf, pos, Encode(items[0]), EncodeItems(items[1..]));
  }

  lemma {:induction false} ItemsRoundTrip(buf: seq<byte>, pos: nat, items: seq<Json>, before: seq<Json>)
    requires AllRepresentable(items)
    requires At(buf, pos, EncodeItems(items))
    ensures DecodeItems(buf, pos, |items|, before) ==
            if ItemsFit(items)
            then Done(before + ReceivedItems(items), pos + |EncodeItems(items)|) else Fail
    decreases items, 0
  {
    hide At, Encode, Decode, Fits, Received, Representable;
    if items == [] {
      assert before + [] == before;
    } else {
      FirstItem(buf, pos, items);
      RoundTrip(buf, pos, items[0]);
      if Fits(items[0]) {
        ItemsRoundTrip(buf, pos + |Encode(items[0])|, items[1..], before + [Received(items[0])]);
        assert before + ReceivedItems(items) == before + [Received(items[0])] + ReceivedItems(items[1..]);
      }
    }
  }

  lemma KeyRoundTrip(buf: seq<byte>, pos: nat, key: Text)
    requires |key| < TWO64 && At(buf, pos, EncodeString(key))
    ensures DecodeKey(buf, pos) ==
            if |CStr(key)| <= UINT32_MAX then Done(CStr(key), pos + |EncodeString(key)|) else Fail
  {
    var tag := EncodeTag(STRING, |CStr(key)|);
    AtConcat(buf, pos, tag, CStr(key));
    TagRoundTrip(buf, pos, STRING, |CStr(key)|);
    SizedRoundTrip(buf, pos + |tag|, CStr(key));
  }

  lemma {:induction false} MembersRoundTrip(buf: seq<byte>, pos: nat, members: seq<Member>, into: seq<Member>)
    requires MembersRepresentable(members)
    requires At(buf, pos, EncodeMembers(members))
    ensures MembersFit(members) ==>
              DecodeMembers(buf, pos, |members|, into) ==
              Done(ReceivedMembers(members, into), pos + |EncodeMembers(members)|)
    ensures !MembersFit(members) ==> DecodeMembers(buf, pos, |members|, into) == Fail
    decreases members, 0
  {
    hide At, EncodeMember, DecodeMember, MemberFits, Insert, CStr, Received, Representable;
    if members != [] {
      var m := members[0];
      var r := Member(CStr(m.key), Received(m.value));
      FirstMember(buf, pos, members);
      MemberRoundTrip(buf, pos, m);
      if MemberFits(m) { MembersRoundTrip(buf, pos + |EncodeMember(m)|, members[1..], Insert(into, r.key, r.value)); }
    }
  }

  lemma {:induction false} MemberRoundTrip(buf: seq<byte>, pos: nat, m: Member)
    requires |m.key| < TWO64 && Representable(m.value) && At(buf, pos, EncodeMember(m))
    ensures DecodeMember(buf, pos) ==
            if MemberFits(m) then Done(Member(CStr(m.key), Received(m.value)), pos + |EncodeMember(m)|) else Fail
    decreases m, 0
  {
    AtConcat(buf, pos, EncodeString(m.key), Encode(m.value));
    hide At, Encode, EncodeString, Decode, DecodeKey, CStr, Received, Fits, Representable;
    KeyRoundTrip(buf, pos, m.key);
    if |CStr(m.key)| <= UINT32_MAX { RoundTrip(buf, pos + |EncodeString(m.key)|, m.value); }
  }

  lemma FirstMember(buf: seq<byte>, pos: nat, members: seq<Member>)
    requires members != [] && At(buf, pos, EncodeMembers(members))
    ensures var first, rest := EncodeMember(members[0]), EncodeMembers(members[1..]);
            && At(buf, pos, first) && At(buf, pos + |first|, rest)
            && |EncodeMembers(members)| == |first| + |rest|
  {
    AtConcat(buf, pos, EncodeMember(members[0]), EncodeMembers(members[1..]));
  }

  /** What is left of a value the decoder refuses: the items and members before the one with a
      string, key or block past its limit, and of that one what there is to keep. */
  function Remains(v: Json, prior: Json): Json
    decreases v, 0
  {
    match v
    case Arr(items) => Arr(RemainingItems(items, []))
    case Obj(members) => Obj(RemainingMembers(members, []))
    case _ => prior
  }

  function RemainingItems(items: seq<Json>, before: seq<Json>): seq<Json>
    decreases items, 0
  {
    if items == [] || !Fits(items[0]) then before else RemainingItems(items[1..], before + [Received(items[0])])
  }

  function RemainingMembers(members: seq<Member>, into: seq<Member>): seq<Member>
    decreases members, 0
  {
    if members == [] then into
    else
      var key, value := CStr(members[0].key), members[0].value;
      if |key| > UINT32_MAX then into
      else if !Fits(value) then Insert(into, key, Remains(value, Lookup(into, key)))
      else RemainingMembers(members[1..], Insert(into, key, Received(value)))
  }

  /** Items and members that are all read are all left. */
  lemma {:induction false} ItemsInFull(buf: seq<byte>, pos: nat, count: nat, items: seq<Json>)
    requires pos <= |buf| && DecodeItems(buf, pos, count, items).Done?
    ensures LeftItems(buf, pos, count, items) == DecodeItems(buf, pos, count, items).value
    decreases count
  {
    hide Decode;
    if count > 0 { ItemsInFull(buf, Decode(buf, pos).next, count - 1, items + [Decode(buf, pos).value]); }
  }

  lemma {:induction false} MembersInFull(buf: seq<byte>, pos: nat, count: nat, into: seq<Member>)
    requires pos <= |buf| && DecodeMembers(buf, pos, count, into).Done?
    ensures LeftMembers(buf, pos, count, into) == DecodeMembers(buf, pos, count, into).value
    decreases count
  {
    hide DecodeMember, Insert;
    if count > 0 {
      var Done(m, next) := DecodeMember(buf, pos);
      MembersInFull(buf, next, count - 1, Insert(into, m.key, m.value));
    }
  }

  /** A value that is refused leaves what `Remains` says, wherever it stands. */
  lemma {:induction false} RefusedLeaves(buf: seq<byte>, pos: nat, v: Json, prior: Json)
    requires Representable(v) && At(buf, pos, Encode(v)) && !Fits(v)
    ensures Left(buf, pos, prior) == Remains(v, prior)
    decreases v, 1
  {
    hide At, Encode, EncodeTag, DecodeTag, Body, Left, LeftBody, Fits, Remains, Representable;
    TagFirst(buf, pos, v);
    LeftBehindTag(buf, pos, prior);
    BodyLeaves(buf, DecodeTag(buf, pos).next, v, prior);
  }

  lemma TagFirst(buf: seq<byte>, pos: nat, v: Json)
    requires Representable(v) && At(buf, pos, Encode(v))
    ensures var t := DecodeTag(buf, pos);
            t.Tag? && t.wire == Wire(v) && t.payload == Payload(v) && At(buf, t.next, Body(v))
  {
    var tag := EncodeTag(Wire(v), Payload(v));
    AtConcat(buf, pos, tag, Body(v));
    hide At, EncodeTag, DecodeTag, Body;
    TagRoundTrip(buf, pos, Wire(v), Payload(v));
  }

  lemma LeftBehindTag(buf: seq<byte>, pos: nat, prior: Json)
    requires pos <= |buf| && DecodeTag(buf, pos).Tag?
    ensures var t := DecodeTag(buf, pos); Left(buf, pos, prior) == LeftBody(buf, t.next, t.wire, t.payload, prior)
  {
    hide DecodeTag, LeftBody;
  }

  lemma {:induction false} BodyLeaves(buf: seq<byte>, pos: nat, v: Json, prior: Json)
    requires Representable(v) && At(buf, pos, Body(v)) && !Fits(v)
    ensures LeftBody(buf, pos, Wire(v), Payload(v), prior) == Remains(v, prior)
    decreases v, 0
  {
    hide At, Encode, Decode, Received, CStr, Sorted;
    match v
    case Arr(items) => ItemsLeave(buf, pos, items, []);
    case Obj(members) => MembersLeave(buf, pos, members, []);
    case _ =>
  }

  lemma {:induction false} ItemsLeave(buf: seq<byte>, pos: nat, items: seq<Json>, before: seq<Json>)
    requires AllRepresentable(items) && At(buf, pos, EncodeItems(items)) && !ItemsFit(items)
    ensures LeftItems(buf, pos, |items|, before) == RemainingItems(items, before)
    decreases items, 0
  {
    hide At, Encode, Decode, Fits, Received, Representable;
    FirstItem(buf, pos, items);
    RoundTrip(buf, pos, items[0]);
    if Fits(items[0]) {
      ItemsLeave(buf, pos + |Encode(items[0])|, items[1..], before + [Received(items[0])]);
    }
  }

  lemma {:induction false} MemberLeaves(buf: seq<byte>, pos: nat, m: Member, into: seq<Member>)
    requires |m.key| < TWO64 && Representable(m.value) && At(buf, pos, EncodeMember(m)) && !MemberFits(m)
    ensures LeftMember(buf, pos, into) ==
            if |CStr(m.key)| > UINT32_MAX then into
            else Insert(into, CStr(m.key), Remains(m.value, Lookup(into, CStr(m.key))))
    decreases m, 0
  {
    AtConcat(buf, pos, EncodeString(m.key), Encode(m.value));
    hide At, Encode, EncodeString, Left, DecodeKey, CStr, Remains, Fits, Representable, Insert, Lookup;
    KeyRoundTrip(buf, pos, m.key);
    if |CStr(m.key)| <= UINT32_MAX {
      RefusedLeaves(buf, pos + |EncodeString(m.key)|, m.value, Lookup(into, CStr(m.key)));
    }
  }

  lemma LeftFirst(buf: seq<byte>, pos: nat, count: nat, into: seq<Member>)
    requires pos <= |buf| && count > 0
    ensures LeftMembers(buf, pos, count, into) ==
            match DecodeMember(buf, pos)
            case Done(m, next) => LeftMembers(buf, next, count - 1, Insert(into, m.key, m.value))
            case Fail => LeftMember(buf, pos, into)
  {
    hide DecodeMember, LeftMember, Insert;
  }

  lemma RemainsFirst(members: seq<Member>, into: seq<Member>)
    requires members != []
    ensures var m := members[0];
            RemainingMembers(members, into) ==
            if MemberFits(m) then RemainingMembers(members[1..], Insert(into, CStr(m.key), Received(m.value)))
            else if |CStr(m.key)| > UINT32_MAX then into
            else Insert(into, CStr(m.key), Remains(m.value, Lookup(into, CStr(m.key))))
  {
    hide Insert, CStr, Received, Remains, Lookup, Fits;
  }

  lemma {:induction false} MembersLeave(buf: seq<byte>, pos: nat, members: seq<Member>, into: seq<Member>)
    requires MembersRepresentable(members) && At(buf, pos, EncodeMembers(members)) && !MembersFit(members)
    ensures LeftMembers(buf, pos, |members|, into) == RemainingMembers(members, into)
    decreases members, 0
  {
    hide At, EncodeMember, EncodeMembers, DecodeMember, LeftMember, LeftMembers, MemberFits;
    hide Insert, Lookup, CStr, Received, Remains, RemainingMembers, Representable, Fits;
    var m := members[0];
    FirstMember(buf, pos, members);
    MemberRoundTrip(buf, pos, m);
    LeftFirst(buf, pos, |members|, into);
    RemainsFirst(members, into);
    if MemberFits(m) {
      MembersLeave(buf, pos + |EncodeMember(m)|, members[1..], Insert(into, CStr(m.key), Received(m.value)));
    } else {
      MemberLeaves(buf, pos, m, into);
    }
  }

  /** No encoding is a proper prefix of another one: values can be sent back to back. */
  lemma PrefixFree(v: Json, w: Json)
    requires Representable(v) && Representable(w) && Fits(v) && Fits(w)
    requires Encode(v) <= Encode(w)
    ensures Encode(v) == Encode(w) && Received(v) == Received(w)
  {
    RoundTrip(Encode(w), 0, v);
    RoundTrip(Encode(w), 0, w);
  }

  // ---- what arrives is what was sent ------------------------------------------------

  predicate NulFree(v: Json)
    decreases v
  {
    match v
    case Str(s) => 0 !in s
    case Arr(items) => forall x <- items :: NulFree(x)
    case Obj(members) => forall m <- members :: 0 !in m.key && NulFree(m.value)
    case _ => true
  }

  /** `v` with its floats that are integers written as integers, its non-negative integers as
      unsigned ones and nothing else changed: `nlohmann::json` compares the two equal. */
  function Canonical(v: Json): Json
    decreases v
  {
    match v
    case Int(i) => Integer(i)
    case Real(d) => if Whole(d).Some? then Integer(Whole(d).value) else v
    case Arr(items) => Arr(seq(|items|, k requires 0 <= k < |items| => Canonical(items[k])))
    case Obj(members) =>
      Obj(seq(|members|, k requires 0 <= k < |members| => Member(members[k].key, Canonical(members[k].value))))
    case _ => v
  }

  /** The value arrives unchanged up to the kind of its integers exactly if no text in it
      contains a NUL. */
  lemma {:induction false} ArrivesUnchanged(v: Json)
    requires Representable(v)
    ensures Received(v) == Canonical(v) <==> NulFree(v)
    decreases v
  {
    match v
    case Arr(items) =>
      EachRepresentable(items);
      forall x <- items ensures Received(x) == Canonical(x) <==> NulFree(x) { ArrivesUnchanged(x); }
      ReceivedItemsAt(items);
      var r, c := ReceivedItems(items), Canonical(v).items;
      assert forall k :: 0 <= k < |items| ==> r[k] == Received(items[k]) && c[k] == Canonical(items[k]);
      if r == c {
        forall x <- items ensures NulFree(x) {
          var k :| 0 <= k < |items| && items[k] == x;
          assert r[k] == c[k];
        }
      }
    case Obj(members) =>
      EachMemberRepresentable(members);
      forall m <- members ensures Received(m.value) == Canonical(m.value) <==> NulFree(m.value) {
        ArrivesUnchanged(m.value);
      }
      ObjectArrives(members);
    case _ =>
  }

  lemma {:induction false} EachRepresentable(items: seq<Json>)
    requires AllRepresentable(items)
    ensures forall x <- items :: Representable(x)
  {
    if items != [] { EachRepresentable(items[1..]); }
  }

  lemma {:induction false} EachMemberRepresentable(members: seq<Member>)
    requires MembersRepresentable(members)
    ensures forall m <- members :: Representable(m.value)
  {
    if members != [] { EachMemberRepresentable(members[1..]); }
  }

  lemma {:induction false} ReceivedItemsAt(items: seq<Json>)
    ensures forall k :: 0 <= k < |items| ==> ReceivedItems(items)[k] == Received(items[k])
  {
    if items != [] { ReceivedItemsAt(items[1..]); }
  }

  lemma ObjectArrives(members: seq<Member>)
    requires Sorted(members)
    requires forall m <- members :: Received(m.value) == Canonical(m.value) <==> NulFree(m.value)
    ensures Received(Obj(members)) == Canonical(Obj(members)) <==> NulFree(Obj(members))
  {
    var r, c := ReceivedMembers(members, []), Canonical(Obj(members)).members;
    assert |c| == |members|;
    assert forall k :: 0 <= k < |c| ==> c[k] == Member(members[k].key, Canonical(members[k].value));
    KeysAreCut(members, []);
    if forall m <- members :: 0 !in m.key {
      KeptInOrder(members, []);
      assert [] + MapReceived(members) == MapReceived(members);
      if r == c {
        forall m <- members ensures NulFree(m.value) {
          var k :| 0 <= k < |members| && members[k] == m;
          assert MapReceived(members)[k] == c[k];
        }
      }
    } else {
      var k :| 0 <= k < |members| && 0 in members[k].key;
      assert c[k].key == members[k].key;
      assert c[k] !in r;
    }
  }

  /** Every key that arrives is free of NULs. */
  lemma {:induction false} KeysAreCut(members: seq<Member>, into: seq<Member>)
    requires forall m <- into :: 0 !in m.key
    ensures forall m <- ReceivedMembers(members, into) :: 0 !in m.key
    decreases members
  {
    if members != [] {
      InsertedAre(into, CStr(members[0].key), Received(members[0].value));
      KeysAreCut(members[1..], Insert(into, CStr(members[0].key), Received(members[0].value)));
    }
  }

  lemma {:induction false} InsertedAre(into: seq<Member>, key: Text, value: Json)
    ensures forall m <- Insert(into, key, value) :: m in into || m == Member(key, value)
  {
    if into != [] { InsertedAre(into[1..], key, value); }
  }

  function MapReceived(members: seq<Member>): (r: seq<Member>) {
    seq(|members|, k requires 0 <= k < |members| => Member(members[k].key, Received(members[k].value)))
  }

  /** Members that come in key order, with keys that survive the cut, are appended. */
  lemma {:induction false} KeptInOrder(members: seq<Member>, into: seq<Member>)
    requires Sorted(members) && forall m <- members :: 0 !in m.key
    requires members != [] ==> AllBelow(into, members[0].key)
    ensures ReceivedMembers(members, into) == into + MapReceived(members)
    decreases members
  {
    hide Less, Received, Insert;
    if members != [] {
      var m, rest := members[0], members[1..];
      var r := Member(m.key, Received(m.value));
      AppendLargest(into, m.key, r.value);
      StillBelow(members, into, r);
      KeptInOrder(rest, into + [r]);
      assert MapReceived(members) == [r] + MapReceived(rest);
      assert into + MapReceived(members) == into + [r] + MapReceived(rest);
    } else {
      assert into + [] == into;
    }
  }

  lemma StillBelow(members: seq<Member>, into: seq<Member>, r: Member)
    requires Sorted(members) && members != [] && AllBelow(into, members[0].key) && r.key == members[0].key
    ensures Sorted(members[1..])
    ensures |members| > 1 ==> AllBelow(into + [r], members[1].key)
  {
    if |members| > 1 {
      assert Less(r.key, members[1].key);
      forall a <- into + [r] ensures Less(a.key, members[1].key) {
        if a in into { LessTransitive(a.key, r.key, members[1].key); }
      }
    }
  }

  predicate AllBelow(members: seq<Member>, key: Text) {
    forall a <- members :: Less(a.key, key)
  }

  lemma {:induction false} AppendLargest(into: seq<Member>, key: Text, value: Json)
    requires AllBelow(into, key)
    ensures Insert(into, key, value) == into + [Member(key, value)]
  {
    if into != [] {
      var a := into[0];
      assert Less(a.key, key);
      LessIrreflexive(key);
      if Less(key, a.key) { LessTransitive(a.key, key, a.key); LessIrreflexive(a.key); }
      AppendLargest(into[1..], key, value);
    }
  }

  // ---- writing again never grows ----------------------------------------------------

  /** A tag that was read is written again in no more bytes, and so is a smaller payload. */
  lemma RewrittenTagFits(buf: seq<byte>, pos: nat, wire: nat, payload: nat)
    requires pos <= |buf| && DecodeTag(buf, pos).Tag? && wire < 8
    requires payload <= DecodeTag(buf, pos).payload
    ensures |EncodeTag(wire, payload)| <= DecodeTag(buf, pos).next - pos
  {
    if payload >= 0x1f {
      RewrittenVarintFits(buf, pos + 1, 10, TWO64);
      LongerForLarger(payload, DecodeTag(buf, pos).payload);
    }
  }

  /** The fewest bytes a float is read from: some single precision number is it, or none. */
  ghost function Least(d: Double): nat {
    if exists s: Single :: Widen(s) == d then 5 else 9
  }

  /** The fewest bytes `v` can have been read from. */
  ghost function Weight(v: Json): nat
    decreases v, 1
  {
    match v
    case Real(d) => Least(d)
    case _ => |EncodeTag(Wire(v), Payload(v))| + BodyWeight(v)
  }

  ghost function BodyWeight(v: Json): nat
    decreases v, 0
  {
    match v
    case Real(d) => Least(d) - 1
    case Arr(items) => ItemsWeight(items)
    case Obj(members) => MembersWeight(members)
    case _ => |Body(v)|
  }

  ghost function ItemsWeight(items: seq<Json>): nat
    decreases items, 0
  {
    if items == [] then 0 else Weight(items[0]) + ItemsWeight(items[1..])
  }

  ghost function MemberWeight(m: Member): nat
    decreases m, 0
  {
    |EncodeString(m.key)| + Weight(m.value)
  }

  ghost function MembersWeight(members: seq<Member>): nat
    decreases members, 0
  {
    if members == [] then 0 else MemberWeight(members[0]) + MembersWeight(members[1..])
  }

  lemma {:induction false} RewrittenValueFits(buf: seq<byte>, pos: nat)
    requires pos <= |buf| && Decode(buf, pos).Done?
    ensures Weight(Decode(buf, pos).value) <= Decode(buf, pos).next - pos
    decreases |buf| - pos, 0
  {
    hide DecodeTag, DecodeBody, EncodeTag, Least;
    var Tag(wire, p, next) := DecodeTag(buf, pos);
    var v := Decode(buf, pos).value;
    RewrittenBodyFits(buf, next, wire, p);
    if !v.Real? { RewrittenTagFits(buf, pos, Wire(v), Payload(v)); }
  }

  lemma {:induction false} RewrittenBodyFits(buf: seq<byte>, pos: nat, wire: nat, p: u64)
    requires pos <= |buf| && DecodeBody(buf, pos, wire, p).Done?
    ensures var r := DecodeBody(buf, pos, wire, p);
            (r.value.Real? || Payload(r.value) <= p) && BodyWeight(r.value) <= r.next - pos
    decreases |buf| - pos, 3
  {
    hide Decode, CStr, DecodeItems, DecodeMembers, Widen, Whole, Narrow, SingleOf, DoubleOf;
    match DecodeBody(buf, pos, wire, p).value
    case Arr(items) => ItemsRewritten(buf, pos, p, []);
    case Obj(members) => MembersRewritten(buf, pos, p, []);
    case _ =>
  }

  lemma {:induction false} ItemsWeightConcat(a: seq<Json>, b: seq<Json>)
    ensures ItemsWeight(a + b) == ItemsWeight(a) + ItemsWeight(b)
  {
    hide Weight;
    if a == [] {
      assert a + b == b;
    } else {
      ItemsWeightConcat(a[1..], b);
      assert (a + b)[1..] == a[1..] + b;
    }
  }

  lemma {:induction false} ItemsRewritten(buf: seq<byte>, pos: nat, count: nat, before: seq<Json>)
    requires pos <= |buf| && DecodeItems(buf, pos, count, before).Done?
    ensures var r := DecodeItems(buf, pos, count, before);
            && |r.value| == |before| + count
            && ItemsWeight(r.value) <= ItemsWeight(before) + (r.next - pos)
    decreases |buf| - pos, 1
  {
    hide Decode, Weight;
    if count > 0 {
      var Done(v, next) := Decode(buf, pos);
      RewrittenValueFits(buf, pos);
      ItemsRewritten(buf, next, count - 1, before + [v]);
      ItemsWeightConcat(before, [v]);
      assert ItemsWeight([v]) == Weight(v) + ItemsWeight([]);
    }
  }

  lemma {:induction false} MembersRewritten(buf: seq<byte>, pos: nat, count: nat, before: seq<Member>)
    requires pos <= |buf| && DecodeMembers(buf, pos, count, before).Done?
    ensures var r := DecodeMembers(buf, pos, count, before);
            && |r.value| <= |before| + count
            && MembersWeight(r.value) <= MembersWeight(before) + (r.next - pos)
    decreases |buf| - pos, 2
  {
    hide DecodeMember, Insert, MembersWeight, MemberWeight;
    if count > 0 {
      var Done(m, next) := DecodeMember(buf, pos);
      MemberRewritten(buf, pos);
      InsertFits(before, m.key, m.value);
      MembersRewritten(buf, next, count - 1, Insert(before, m.key, m.value));
    }
  }

  lemma {:induction false} MemberRewritten(buf: seq<byte>, pos: nat)
    requires pos <= |buf| && DecodeMember(buf, pos).Done?
    ensures var r := DecodeMember(buf, pos); MemberWeight(r.value) <= r.next - pos
    decreases |buf| - pos, 1
  {
    hide Decode, Weight, DecodeTag, EncodeTag;
    var Tag(wire, p, keyAt) := DecodeTag(buf, pos);
    RewrittenTagFits(buf, pos, STRING, |CStr(DecodeMember(buf, pos).value.key)|);
    RewrittenValueFits(buf, keyAt + p);
  }

  lemma {:induction false} InsertFits(into: seq<Member>, key: Text, value: Json)
    ensures |Insert(into, key, value)| <= |into| + 1
    ensures MembersWeight(Insert(into, key, value)) <= MembersWeight(into) + MemberWeight(Member(key, value))
  {
    hide Less, MemberWeight;
    var m := Member(key, value);
    if into == [] {
      assert MembersWeight([m]) == MemberWeight(m) + MembersWeight([]);
    } else if key == into[0].key {
      assert ([m] + into[1..])[1..] == into[1..];
    } else if Less(key, into[0].key) {
      assert ([m] + into)[1..] == into;
    } else {
      InsertFits(into[1..], key, value);
      assert ([into[0]] + Insert(into[1..], key, value))[1..] == Insert(into[1..], key, value);
    }
  }

  // ---- what floats take -------------------------------------------------------------

  /** No float in `v` is written in more bytes than it can have been read from. */
  ghost predicate Steady(v: Json)
    decreases v
  {
    match v
    case Real(d) => |Encode(v)| <= Least(d)
    case Arr(items) => forall x <- items :: Steady(x)
    case Obj(members) => forall m <- members :: Steady(m.value)
    case _ => true
  }

  lemma TagLength(wire: nat, payload: nat)
    requires wire < 8
    ensures payload < 2 ==> |EncodeTag(wire, payload)| == 1
    ensures |EncodeTag(wire, payload)| <= 5 <==> payload < 0x1000_0000
    ensures |EncodeTag(wire, payload)| <= 9 <==> payload < 0x100_0000_0000_0000
    ensures payload < TWO64 ==> |EncodeTag(wire, payload)| <= 11
  {
    SomePowers();
    EncodedLength(payload, 4);
    EncodedLength(payload, 8);
    EncodedLength(payload, 10);
    hide EncodeVarint, Pow128;
  }

  lemma SomePowers()
    ensures Pow128(4) == 0x1000_0000 && Pow128(8) == 0x100_0000_0000_0000 && Pow128(10) > TWO64
  {
    assert Pow128(2) == 16384;
    assert Pow128(4) == 16384 * Pow128(2);
    assert Pow128(6) == 16384 * Pow128(4);
    assert Pow128(8) == 16384 * Pow128(6);
    assert Pow128(10) == 16384 * Pow128(8);
  }

  /** Which floats are steady: integers below 2^28, or below 2^56 if no single precision number is
      they, and everything else but a NaN that can have come in single precision. */
  lemma SteadyIff(d: Double)
    ensures Steady(Real(d)) <==>
            match Whole(d)
            case Some(i) => Abs(i) < 0x1000_0000 || (Abs(i) < 0x100_0000_0000_0000 && Least(d) == 9)
            case None => !NotANumber(d, SPECIAL64) || Least(d) == 9
    ensures |Encode(Real(d))| <= 11 && (Least(d) == 5 || Least(d) == 9)
  {
    FloatLeast(d);
    hide Whole, Narrow, SingleBytes, DoubleBytes, EncodeTag, Least;
    TagLength(Wire(Real(d)), Payload(Real(d)));
    if Whole(d) == None {
      assert |Encode(Real(d))| == if Narrow(d).Some? then 5 else 9;
    } else {
      assert |Encode(Real(d))| == |EncodeTag(IntegerWire(Whole(d).value), Abs(Whole(d).value))|;
    }
  }

  lemma FloatLeast(d: Double)
    ensures Narrow(d).Some? ==> Least(d) == 5
    ensures Narrow(d) == None && !NotANumber(d, SPECIAL64) ==> Least(d) == 9
    ensures NotANumber(d, SPECIAL64) ==> Narrow(d) == None && Whole(d) == None
    ensures Least(d) == 5 || Least(d) == 9
  {
    NarrowIff(d);
    if !NotANumber(d, SPECIAL64) {
      forall s: Single | Widen(s) == d ensures !NotANumber(s, SPECIAL32) {}
    }
    hide Narrow, Widen;
  }

  /** What the fewest bytes say of the written ones: as many at most if the floats are steady, and
      eleven for five in any case. */
  lemma {:induction false} WrittenWeight(v: Json, k: nat)
    requires k == 11 || (k == 5 && Steady(v))
    ensures 5 * |Encode(v)| <= k * Weight(v)
    decreases v, 0
  {
    hide EncodeTag, Least;
    match v
    case Real(d) => SteadyIff(d);
    case Arr(items) => WrittenItems(items, k);
    case Obj(members) => WrittenMembers(members, k);
    case _ =>
  }

  lemma {:induction false} WrittenItems(items: seq<Json>, k: nat)
    requires k == 11 || (k == 5 && forall x <- items :: Steady(x))
    ensures 5 * |EncodeItems(items)| <= k * ItemsWeight(items)
    decreases items, 0
  {
    hide Encode, Weight, Steady;
    if items != [] {
      WrittenWeight(items[0], k);
      WrittenItems(items[1..], k);
    }
  }

  lemma {:induction false} WrittenMembers(members: seq<Member>, k: nat)
    requires k == 11 || (k == 5 && forall m <- members :: Steady(m.value))
    ensures 5 * |EncodeMembers(members)| <= k * MembersWeight(members)
    decreases members, 0
  {
    hide Encode, EncodeString, Weight, Steady;
    if members != [] {
      WrittenWeight(members[0].value, k);
      WrittenMembers(members[1..], k);
    }
  }

  /** Whatever bytes the decoder accepted, long forms, repeated keys and text with NULs included:
      a value whose floats are steady is written again in no more bytes than were consumed … */
  lemma RewritingNeverGrows(buf: seq<byte>, pos: nat)
    requires pos <= |buf| && Decode(buf, pos).Done? && Steady(Decode(buf, pos).value)
    ensures |Encode(Decode(buf, pos).value)| <= Decode(buf, pos).next - pos
  {
    RewrittenValueFits(buf, pos);
    WrittenWeight(Decode(buf, pos).value, 5);
    hide Encode, Decode, Weight, Steady;
  }

  /** … and any value in no more than eleven for every five. */
  lemma RewritingGrowth(buf: seq<byte>, pos: nat)
    requires pos <= |buf| && Decode(buf, pos).Done?
    ensures 5 * |Encode(Decode(buf, pos).value)| <= 11 * (Decode(buf, pos).next - pos)
  {
    RewrittenValueFits(buf, pos);
    WrittenWeight(Decode(buf, pos).value, 11);
    hide Encode, Decode, Weight;
  }

  /** A float that is not steady does grow: it is read from these bytes. */
  lemma UnsteadyGrows(d: Double) returns (buf: seq<byte>)
    requires !Steady(Real(d))
    ensures Decode(buf, 0) == Done(Real(d), |buf|) && |Encode(Real(d))| > |buf|
  {
    if s: Single :| Widen(s) == d {
      buf := AsSingle(s);
    } else {
      buf := AsDouble(d);
    }
    hide Encode, Decode;
  }

  lemma AsSingle(s: Single) returns (buf: seq<byte>)
    ensures |buf| == 5 && Decode(buf, 0) == Done(Real(Widen(s)), 5)
  {
    buf := [FLOATING * 32] + SingleBytes(s);
    hide SingleBytes, SingleOf, Widen;
    assert buf[1..5] == SingleBytes(s);
    SingleRoundTrip(s);
    assert DecodeTag(buf, 0) == Tag(FLOATING, 0, 1);
  }

  lemma AsDouble(d: Double) returns (buf: seq<byte>)
    ensures |buf| == 9 && Decode(buf, 0) == Done(Real(d), 9)
  {
    buf := [FLOATING * 32 + 1] + DoubleBytes(d);
    hide DoubleBytes, DoubleOf;
    assert buf[1..9] == DoubleBytes(d);
    DoubleRoundTrip(d);
    assert DecodeTag(buf, 0) == Tag(FLOATING, 1, 1);
  }

  /** And eleven for five does happen: -2^63 in single precision. */
  lemma LargestGrowth() returns (buf: seq<byte>)
    ensures Decode(buf, 0).Done? && Decode(buf, 0).next == |buf| == 5 && |Encode(Decode(buf, 0).value)| == 11
  {
    var s := PowerOfTwo(true, 63);
    PowerIsWhole(true, 63);
    LargestPowers();
    buf := AsSingle(s);
    hide Whole, Widen, PowerOfTwo, Decode, EncodeVarint, Pow128, Shift;
    SomePowers();
    EncodedLength(TWO63, 9);
    EncodedLength(TWO63, 10);
    assert Pow128(9) == TWO63 by { OddPower(); }
  }

  lemma OddPower()
    ensures Pow128(9) == TWO63
  {
    SomePowers();
    assert Pow128(9) == 128 * Pow128(8);
  }

  // ---- what was read can be written -------------------------------------------------

  lemma SortedTail(members: seq<Member>)
    requires Sorted(members) && members != []
    ensures Sorted(members[1..])
    ensures forall m <- members[1..] :: Less(members[0].key, m.key)
  {
  }

  lemma SortedCons(m: Member, rest: seq<Member>)
    requires Sorted(rest) && forall x <- rest :: Less(m.key, x.key)
    ensures Sorted([m] + rest)
  {
    var all := [m] + rest;
    forall i, j | 0 <= i < j < |all| ensures Less(all[i].key, all[j].key) {
      assert all[j] == rest[j - 1];
    }
  }

  /** Storing a member keeps the key order, and a member of the new list is an old one or the new. */
  lemma {:induction false} InsertSorted(members: seq<Member>, key: Text, value: Json)
    requires Sorted(members)
    ensures Sorted(Insert(members, key, value))
  {
    hide Sorted, Less;
    var m := Member(key, value);
    if members == [] {
      SortedEmpty();
      SortedCons(m, []);
      assert [m] + [] == [m];
    } else {
      var first, rest := members[0], members[1..];
      SortedTail(members);
      LessTotal(key, first.key);
      if key == first.key {
        SortedCons(m, rest);
      } else if Less(key, first.key) {
        forall x <- members ensures Less(key, x.key) {
          if x != first {
            assert x in rest;
            LessTransitive(key, first.key, x.key);
          }
        }
        SortedCons(m, members);
      } else {
        InsertSorted(rest, key, value);
        InsertedAre(rest, key, value);
        SortedCons(first, Insert(rest, key, value));
      }
    }
  }

  lemma SortedEmpty()
    ensures Sorted([])
  {
  }

  // ---- objects, in whatever order their members come --------------------------------

  /** Storing a member keeps every member under another key, replaces the one under its own, and
      adds nothing else. */
  lemma {:induction false} InsertStores(members: seq<Member>, key: Text, value: Json)
    requires Sorted(members)
    ensures forall x :: x in Insert(members, key, value) <==> x == Member(key, value) || (x in members && x.key != key)
  {
    hide Sorted, Less;
    if members != [] {
      var first, rest := members[0], members[1..];
      assert members == [first] + rest;
      SortedTail(members);
      LessIrreflexive(first.key);
      if key != first.key && Less(key, first.key) {
        forall x <- members ensures x.key != key {
          if x in rest { LessTransitive(key, first.key, x.key); }
          LessIrreflexive(key);
        }
      } else if key != first.key {
        InsertStores(rest, key, value);
      }
    }
  }

  /** The value a list of members ends up with under a key: that of the last one with it. */
  function Last(members: seq<Member>, key: Text): Option<Json>
    decreases |members|
  {
    if members == [] then None
    else
      var end := members[|members| - 1];
      if end.key == key then Some(end.value) else Last(members[..|members| - 1], key)
  }

  /** `object` is what becomes of `members`: in key order, with the last value of every key and
      nothing else. */
  ghost predicate ObjectOf(object_: seq<Member>, members: seq<Member>) {
    Sorted(object_) && forall x :: x in object_ <==> Last(members, x.key) == Some(x.value)
  }

  lemma ObjectGrows(object_: seq<Member>, members: seq<Member>, m: Member)
    requires ObjectOf(object_, members)
    ensures ObjectOf(Insert(object_, m.key, m.value), members + [m])
  {
    hide Sorted, Insert;
    InsertSorted(object_, m.key, m.value);
    InsertStores(object_, m.key, m.value);
    assert (members + [m])[..|members|] == members;
  }

  lemma EmptyObject()
    ensures ObjectOf([], [])
  {
  }

  /** Two objects of the same members are the same. */
  lemma {:induction false} SameObject(a: seq<Member>, b: seq<Member>)
    requires Sorted(a) && Sorted(b) && forall x :: x in a <==> x in b
    ensures a == b
    decreases |a|
  {
    if a == [] {
      FirstMemberIn(b);
    } else {
      assert a[0] in b && b[0] in a;
      FirstIsFirst(a, b);
      TailsAlike(a, b);
      SameObject(a[1..], b[1..]);
      assert a == [a[0]] + a[1..] && b == [b[0]] + b[1..];
    }
  }

  lemma FirstMemberIn(b: seq<Member>)
    ensures b == [] || b[0] in b
  {
  }

  lemma FirstIsFirst(a: seq<Member>, b: seq<Member>)
    requires Sorted(a) && Sorted(b) && a != [] && b != [] && a[0] in b && b[0] in a
    ensures a[0] == b[0]
  {
    hide Less;
    SortedTail(a);
    SortedTail(b);
    if a[0] != b[0] {
      assert a == [a[0]] + a[1..] && b == [b[0]] + b[1..];
      LessTransitive(a[0].key, b[0].key, a[0].key);
      LessIrreflexive(a[0].key);
    }
  }

  lemma TailsAlike(a: seq<Member>, b: seq<Member>)
    requires Sorted(a) && Sorted(b) && a != [] && b != [] && a[0] == b[0]
    requires forall x :: x in a <==> x in b
    ensures Sorted(a[1..]) && Sorted(b[1..]) && forall x :: x in a[1..] <==> x in b[1..]
  {
    SortedTail(a);
    SortedTail(b);
    LessIrreflexive(a[0].key);
    hide Less, Sorted;
    assert a == [a[0]] + a[1..] && b == [b[0]] + b[1..];
    assert a[0] !in a[1..] && b[0] !in b[1..];
    assert forall x :: x in a <==> x == a[0] || x in a[1..];
    assert forall x :: x in b <==> x == a[0] || x in b[1..];
  }

  lemma ObjectIsUnique(a: seq<Member>, b: seq<Member>, members: seq<Member>)
    requires ObjectOf(a, members) && ObjectOf(b, members)
    ensures a == b
  {
    hide Sorted, Last;
    SameObject(a, b);
  }

  lemma {:induction false} LookupFinds(members: seq<Member>, key: Text)
    ensures Member(key, Lookup(members, key)) in members
            || (Lookup(members, key) == Null && forall m <- members :: m.key != key)
  {
    if members != [] {
      LookupFinds(members[1..], key);
      assert members == [members[0]] + members[1..];
    }
  }

  /** What is looked up in an object is the last value that came under the key. */
  lemma LookupIsLast(object_: seq<Member>, members: seq<Member>, key: Text)
    requires ObjectOf(object_, members)
    ensures Lookup(object_, key) == match Last(members, key) case Some(v) => v case None => Null
  {
    LookupFinds(object_, key);
    hide Lookup, Last, Sorted;
    match Last(members, key)
    case Some(v) => assert Member(key, v) in object_;
    case None =>
  }

  /** The members that stand in the bytes, as they come. */
  function ReadMembers(buf: seq<byte>, pos: nat, count: nat): (r: Decoded<seq<Member>>)
    requires pos <= |buf|
    ensures r.Done? ==> |r.value| == count
    decreases count
  {
    if count == 0 then Done([], pos)
    else
      match DecodeMember(buf, pos)
      case Fail => Fail
      case Done(m, next) =>
        match ReadMembers(buf, next, count - 1)
        case Fail => Fail
        case Done(rest, end) => Done([m] + rest, end)
  }

  /** Whatever the bytes, in whatever order the keys come and however often: an object holds the
      last value read under each key, and nothing else. */
  lemma DecodedObject(buf: seq<byte>, pos: nat, count: nat)
    requires pos <= |buf|
    ensures var r, read := DecodeMembers(buf, pos, count, []), ReadMembers(buf, pos, count);
            && (r.Done? <==> read.Done?)
            && (r.Done? ==> r.next == read.next && ObjectOf(r.value, read.value))
  {
    EmptyObject();
    DecodedObjectFrom(buf, pos, count, [], []);
    hide ReadMembers, DecodeMembers, ObjectOf;
    if ReadMembers(buf, pos, count).Done? {
      assert [] + ReadMembers(buf, pos, count).value == ReadMembers(buf, pos, count).value;
    }
  }

  lemma {:induction false} DecodedObjectFrom(
    buf: seq<byte>, pos: nat, count: nat, before: seq<Member>, object_: seq<Member>)
    requires pos <= |buf| && ObjectOf(object_, before)
    ensures var r, read := DecodeMembers(buf, pos, count, object_), ReadMembers(buf, pos, count);
            && (r.Done? <==> read.Done?)
            && (r.Done? ==> r.next == read.next && ObjectOf(r.value, before + read.value))
    decreases count
  {
    hide DecodeMember, ObjectOf, Insert;
    if count == 0 {
      assert before + [] == before;
    } else if DecodeMember(buf, pos).Done? {
      var Done(m, next) := DecodeMember(buf, pos);
      ObjectGrows(object_, before, m);
      DecodedObjectFrom(buf, next, count - 1, before + [m], Insert(object_, m.key, m.value));
      var rest := ReadMembers(buf, next, count - 1);
      if rest.Done? { assert before + [m] + rest.value == before + ([m] + rest.value); }
    }
  }

  /** The members of an object as they are written: keys cut, values as received. */
  function CutMembers(members: seq<Member>): (r: seq<Member>)
    ensures |r| == |members|
  {
    seq(|members|, k requires 0 <= k < |members| => Member(CStr(members[k].key), Received(members[k].value)))
  }

  /** What arrives of an object: the last value of each key as cut. */
  lemma {:induction false} ReceivedObject(members: seq<Member>, before: seq<Member>, into: seq<Member>)
    requires ObjectOf(into, before)
    ensures ObjectOf(ReceivedMembers(members, into), before + CutMembers(members))
    decreases members
  {
    hide ObjectOf, Insert, CStr, Received;
    if members == [] {
      assert before + CutMembers(members) == before;
    } else {
      var m := Member(CStr(members[0].key), Received(members[0].value));
      ObjectGrows(into, before, m);
      ReceivedObject(members[1..], before + [m], Insert(into, m.key, m.value));
      assert before + CutMembers(members) == before + [m] + CutMembers(members[1..]);
    }
  }

  predicate MembersFine(members: seq<Member>) {
    MembersRepresentable(members) && MembersFit(members)
  }

  lemma {:induction false} InsertFine(members: seq<Member>, key: Text, value: Json)
    requires MembersFine(members) && |key| <= UINT32_MAX && Representable(value) && Fits(value)
    ensures MembersFine(Insert(members, key, value))
  {
    hide Less, MembersFine, CStr;
    var m := Member(key, value);
    if members == [] {
      FineCons(m, []);
      assert [m] + [] == [m];
    } else {
      var rest := members[1..];
      assert members == [members[0]] + rest;
      FineCons(members[0], rest);
      FineCons(m, rest);
      FineCons(m, members);
      if key != members[0].key && !Less(key, members[0].key) {
        InsertFine(rest, key, value);
        FineCons(members[0], Insert(rest, key, value));
      }
    }
  }

  lemma FineCons(m: Member, rest: seq<Member>)
    ensures MembersFine([m] + rest) <==>
            MembersFine(rest) && |m.key| < TWO64 && Representable(m.value) && MemberFits(m)
    ensures MembersFine([])
  {
    hide Representable, MemberFits;
    assert ([m] + rest)[1..] == rest;
  }

  predicate ItemsFine(items: seq<Json>) {
    AllRepresentable(items) && ItemsFit(items)
  }

  lemma {:induction false} AppendFine(items: seq<Json>, v: Json)
    requires ItemsFine(items) && Representable(v) && Fits(v)
    ensures ItemsFine(items + [v])
  {
    hide Representable, Fits;
    if items == [] {
      assert items + [v] == [v];
    } else {
      AppendFine(items[1..], v);
      assert (items + [v])[1..] == items[1..] + [v];
    }
  }

  /** Whatever bytes a value was read from, the encoder can be given it and the decoder will take
      it: its objects are in key order, its lengths within what both can handle. */
  lemma {:induction false} DecodedIsFine(buf: seq<byte>, pos: nat)
    requires pos <= |buf| && Decode(buf, pos).Done?
    ensures Representable(Decode(buf, pos).value) && Fits(Decode(buf, pos).value)
    decreases |buf| - pos, 0
  {
    var Tag(wire, p, next) := DecodeTag(buf, pos);
    DecodedBodyIsFine(buf, next, wire, p);
    hide Representable, Fits, DecodeBody;
  }

  lemma {:induction false} DecodedBodyIsFine(buf: seq<byte>, pos: nat, wire: nat, p: u64)
    requires pos <= |buf| && DecodeBody(buf, pos, wire, p).Done?
    ensures Representable(DecodeBody(buf, pos, wire, p).value) && Fits(DecodeBody(buf, pos, wire, p).value)
    decreases |buf| - pos, 3
  {
    hide Decode, DecodeItems, DecodeMembers, CStr, Sorted;
    SortedEmpty();
    match DecodeBody(buf, pos, wire, p).value
    case Arr(items) =>
      DecodedItemsAreFine(buf, pos, p, []);
      assert Representable(Arr(items)) && Fits(Arr(items));
    case Obj(members) =>
      DecodedMembersAreFine(buf, pos, p, []);
      assert Representable(Obj(members)) && Fits(Obj(members));
    case Str(s) => assert Representable(Str(s)) && Fits(Str(s));
    case Bin(b) => assert Representable(Bin(b)) && Fits(Bin(b));
    case _ =>
  }

  lemma {:induction false} DecodedItemsAreFine(buf: seq<byte>, pos: nat, count: nat, before: seq<Json>)
    requires pos <= |buf| && DecodeItems(buf, pos, count, before).Done? && ItemsFine(before)
    ensures var r := DecodeItems(buf, pos, count, before).value; |r| == |before| + count && ItemsFine(r)
    decreases |buf| - pos, 1
  {
    hide Decode, ItemsFine, Representable, Fits;
    if count > 0 {
      var Done(v, next) := Decode(buf, pos);
      DecodedIsFine(buf, pos);
      AppendFine(before, v);
      DecodedItemsAreFine(buf, next, count - 1, before + [v]);
    }
  }

  lemma {:induction false} DecodedMembersAreFine(buf: seq<byte>, pos: nat, count: nat, before: seq<Member>)
    requires pos <= |buf| && DecodeMembers(buf, pos, count, before).Done? && Sorted(before) && MembersFine(before)
    ensures var r := DecodeMembers(buf, pos, count, before).value;
            |r| <= |before| + count && Sorted(r) && MembersFine(r)
    decreases |buf| - pos, 2
  {
    hide DecodeMember, Insert, Sorted, MembersFine, Representable, Fits;
    if count > 0 {
      var Done(m, next) := DecodeMember(buf, pos);
      DecodedMemberIsFine(buf, pos);
      InsertFine(before, m.key, m.value);
      InsertSorted(before, m.key, m.value);
      InsertGrows(before, m.key, m.value);
      DecodedMembersAreFine(buf, next, count - 1, Insert(before, m.key, m.value));
    }
  }

  lemma {:induction false} DecodedMemberIsFine(buf: seq<byte>, pos: nat)
    requires pos <= |buf| && DecodeMember(buf, pos).Done?
    ensures var m := DecodeMember(buf, pos).value; |m.key| <= UINT32_MAX && Representable(m.value) && Fits(m.value)
    decreases |buf| - pos, 1
  {
    hide Decode, DecodeTag, Representable, Fits;
    DecodedIsFine(buf, DecodeKey(buf, pos).next);
  }

  lemma {:induction false} InsertGrows(into: seq<Member>, key: Text, value: Json)
    ensures |Insert(into, key, value)| <= |into| + 1
  {
    hide Less;
    if into != [] { InsertGrows(into[1..], key, value); }
  }

  /** To read, write and read again is to read once, up to the kind of its integers, exactly if no
      text that was read holds a NUL. */
  lemma RewritingKeepsTheValue(buf: seq<byte>, pos: nat)
    requires pos <= |buf| && Decode(buf, pos).Done?
    ensures var v := Decode(buf, pos).value;
            && Representable(v)
            && Decode(Encode(v), 0) == Done(Received(v), |Encode(v)|)
            && (Received(v) == Canonical(v) <==> NulFree(v))
  {
    var v := Decode(buf, pos).value;
    DecodedIsFine(buf, pos);
    ArrivesUnchanged(v);
    hide Encode, Decode, Representable, Fits, Received, Canonical, NulFree;
    RoundTrip(Encode(v), 0, v);
  }
}
