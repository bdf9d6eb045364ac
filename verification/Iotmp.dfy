/** IOTMP messages: numbered fields in the body of a frame.  Specification and laws; the
    code is in IotmpCodec.dfy. */
module Iotmp {
  import opened Bytes
  import opened Varint
  import opened Pson
  import opened PsonLaws
  import opened Framing

  type Fields = map<byte, Json>

  const VARINT: nat := 0
  const PSON_V2: nat := 2

  /** A message to be sent; `order` is the order its unordered field map is walked in. */
  datatype AnyMessage = Message(kind: byte, fields: Fields, order: seq<byte>) {

    predicate Valid() {
      && (set f | f in order) == fields.Keys
      && Distinct(order)
      && (forall f <- fields :: Representable(fields[f]))
    }
  }

  type Message = m: AnyMessage | m.Valid() witness Message(0, map[], [])

  predicate Covers(fields: Fields, order: seq<byte>) {
    forall f <- order :: f in fields
  }

  predicate Distinct(order: seq<byte>) {
    forall i, j :: 0 <= i < j < |order| ==> order[i] != order[j]
  }

  // ---- writing ----------------------------------------------------------------------

  /** `(field_number << 3) | wire_type`, kept in one byte. */
  function FieldTag(field: byte, wire: nat): byte
    requires wire < 8
  {
    var n: nat := field;
    8 * n % 256 + wire
  }

  function EncodeField(field: byte, v: Json): (s: seq<byte>)
    ensures s != []
  {
    match v
    case Uint(u) => [FieldTag(field, VARINT)] + EncodeVarint(u)
    case Int(i) => [FieldTag(field, VARINT)] + EncodeVarint(if i >= 0 then i else 0)
    case _ => [FieldTag(field, PSON_V2)] + Encode(v)
  }

  function EncodeFields(order: seq<byte>, fields: Fields): seq<byte>
    requires Covers(fields, order)
  {
    if order == [] then [] else EncodeField(order[0], fields[order[0]]) + EncodeFields(order[1..], fields)
  }

  function FrameOf(m: Message): Frame {
    Frame(m.kind, EncodeFields(m.order, m.fields))
  }

  // ---- reading ----------------------------------------------------------------------

  datatype Field = Field(number: byte, value: Json)

  /** One field; a number sits in 32 bits here and its field number in 8. */
  function DecodeField(buf: seq<byte>, pos: nat): (r: Decoded<Field>)
    requires pos <= |buf|
    ensures r.Done? ==> pos < r.next <= |buf|
  {
    match ReadVarint32(buf, pos)
    case Malformed => Fail
    case Varint(tag, next) =>
      if tag % 8 == VARINT then
        match ReadVarint32(buf, next)
        case Malformed => Fail
        case Varint(u, end) => Done(Field(tag / 8 % 256, Uint(u)), end)
      else if tag % 8 == PSON_V2 then
        match Decode(buf, next)
        case Fail => Fail
        case Done(v, end) => Done(Field(tag / 8 % 256, v), end)
      else Fail
  }

  /** The fields from `pos` to the end of a body, stored over those in `fields`. */
  function DecodeFields(buf: seq<byte>, pos: nat, fields: Fields): (r: Decoded<Fields>)
    requires pos <= |buf|
    ensures r.Done? ==> r.next == |buf|
    decreases |buf| - pos
  {
    if pos == |buf| then Done(fields, pos)
    else
      match DecodeField(buf, pos)
      case Fail => Fail
      case Done(f, next) => DecodeFields(buf, next, fields[f.number := f.value])
  }

  /** `message[field_number]`, which makes a field that is not there. */
  function FieldOf(fields: Fields, f: byte): Json {
    if f in fields then fields[f] else Null
  }

  /** The field map once the decoder is through, or has failed: the fields before the failure, and
      of a PSON value that failed what it left. */
  function FieldsLeft(buf: seq<byte>, pos: nat, fields: Fields): Fields
    requires pos <= |buf|
    decreases |buf| - pos
  {
    if pos == |buf| then fields
    else
      match DecodeField(buf, pos)
      case Fail => FailedField(buf, pos, fields)
      case Done(f, next) => FieldsLeft(buf, next, fields[f.number := f.value])
  }

  function FailedField(buf: seq<byte>, pos: nat, fields: Fields): Fields
    requires pos <= |buf|
  {
    match ReadVarint32(buf, pos)
    case Malformed => fields
    case Varint(tag, next) =>
      if tag % 8 != PSON_V2 then fields
      else
        var f := tag / 8 % 256;
        fields[f := Left(buf, next, FieldOf(fields, f))]
  }

  /** Which fields are read, and as what: after a tag that is a number, a number if its three low bits
      are 0 and a PSON value if they are 2; the field number is the rest of the tag, in a byte. */
  lemma FieldIff(buf: seq<byte>, pos: nat)
    requires pos <= |buf|
    ensures var t, r := ReadVarint32(buf, pos), DecodeField(buf, pos);
            && (t == Malformed ==> r == Fail)
            && (t.Varint? && t.value % 8 != 0 && t.value % 8 != 2 ==> r == Fail)
            && (t.Varint? && t.value % 8 == 0 ==>
                  var n := ReadVarint32(buf, t.next);
                  r == if n.Varint? then Done(Field(t.value / 8 % 256, Uint(n.value)), n.next) else Fail)
            && (t.Varint? && t.value % 8 == 2 ==>
                  var d := Decode(buf, t.next);
                  r == if d.Done? then Done(Field(t.value / 8 % 256, d.value), d.next) else Fail)
  {
    hide Decode, ReadVarint32;
  }

  /** What a field that fails is filled over: the value stored under its number before, if any. */
  lemma FilledOver(fields: Fields, f: byte, v: Json)
    ensures FieldOf(fields[f := v], f) == v
    ensures FieldOf(fields - {f}, f) == Null
  {
  }

  lemma {:induction false} AllFieldsLeft(buf: seq<byte>, pos: nat, fields: Fields)
    requires pos <= |buf| && DecodeFields(buf, pos, fields).Done?
    ensures FieldsLeft(buf, pos, fields) == DecodeFields(buf, pos, fields).value
    decreases |buf| - pos
  {
    hide DecodeField;
    if pos < |buf| {
      var Done(f, next) := DecodeField(buf, pos);
      AllFieldsLeft(buf, next, fields[f.number := f.value]);
    }
  }

  /** The message made of a frame; whether its body decoded to the end it does not say. */
  datatype Delivery = Delivery(kind: byte, fields: Fields)

  function Delivered(f: Frame): Delivery {
    Delivery(f.kind, FieldsLeft(f.body, 0, map[]))
  }

  lemma EmptyBody(kind: byte)
    ensures Delivered(Frame(kind, [])) == Delivery(kind, map[])
  {
  }

  // ---- one field --------------------------------------------------------------------

  /** A field number survives its one-byte tag exactly if it is below 16. */
  lemma TagSurvives(buf: seq<byte>, pos: nat, field: byte, wire: nat)
    requires wire < 8 && pos < |buf| && buf[pos] == FieldTag(field, wire)
    ensures ReadVarint32(buf, pos) == Varint(8 * field as int + wire, pos + 1) <==> field < 16
  {
    hide ReadVarint, FieldTag, EncodeVarint;
    if field < 16 {
      SmallTag(field, wire);
      ReadEncoded32(buf, pos, 8 * field as int + wire);
    } else {
      OneByteValue(buf, pos, 5, TWO32);
    }
  }

  lemma SmallTag(field: byte, wire: nat)
    requires field < 16 && wire < 8
    ensures EncodeVarint(8 * field as int + wire) == [FieldTag(field, wire)]
  {
  }

  function ReceivedField(v: Json): Json {
    match v
    case Uint(u) => Uint(u % TWO32)
    case Int(i) => Uint(if i >= 0 then i % TWO32 else 0)
    case _ => PsonLaws.Received(v)
  }

  /** Numbers are read back from at most five bytes. */
  predicate FieldFits(v: Json) {
    match v
    case Uint(u) => u < 0x8_0000_0000
    case Int(i) => i < 0x8_0000_0000
    case _ => Fits(v)
  }

  /** A field arrives unchanged, up to the kind of its integers, exactly if it is a number
      from 0 to 2^32 - 1 or another value without NULs in its text. */
  lemma FieldArrivesUnchanged(v: Json)
    requires Representable(v)
    ensures ReceivedField(v) == Canonical(v) <==>
            match v
            case Uint(u) => u < TWO32
            case Int(i) => 0 <= i < TWO32
            case _ => NulFree(v)
  {
    ArrivesUnchanged(v);
  }

  // ---- a body, in whatever order its fields come ------------------------------------

  predicate AllFieldsFit(order: seq<byte>, fields: Fields)
    requires Covers(fields, order)
  {
    order == [] || (FieldFits(fields[order[0]]) && AllFieldsFit(order[1..], fields))
  }

  function ReceivedFields(order: seq<byte>, fields: Fields): Fields
    requires Covers(fields, order)
  {
    map f | f in order :: ReceivedField(fields[f])
  }

  /** A tag below 128 read: what the rest of the field is read as. */
  lemma TaggedField(buf: seq<byte>, pos: nat, field: byte, wire: nat)
    requires wire == VARINT || wire == PSON_V2
    requires field < 16 && pos < |buf| && buf[pos] == FieldTag(field, wire)
    ensures wire == VARINT ==>
              DecodeField(buf, pos) ==
              match ReadVarint32(buf, pos + 1)
              case Malformed => Fail
              case Varint(u, end) => Done(Field(field, Uint(u)), end)
    ensures wire == PSON_V2 ==>
              DecodeField(buf, pos) ==
              match Decode(buf, pos + 1)
              case Fail => Fail
              case Done(v, end) => Done(Field(field, v), end)
  {
    hide ReadVarint, FieldTag, Decode;
    TagSurvives(buf, pos, field, wire);
    var tag := 8 * field as int + wire;
    assert tag % 8 == wire && tag / 8 % 256 == field;
  }

  /** And what is stored of it if that fails. */
  lemma TaggedFailure(buf: seq<byte>, pos: nat, field: byte, wire: nat, fields: Fields)
    requires wire == VARINT || wire == PSON_V2
    requires field < 16 && pos < |buf| && buf[pos] == FieldTag(field, wire)
    ensures FailedField(buf, pos, fields) ==
            if wire == VARINT then fields else fields[field := Left(buf, pos + 1, FieldOf(fields, field))]
  {
    hide ReadVarint, FieldTag, Left;
    TagSurvives(buf, pos, field, wire);
    var tag := 8 * field as int + wire;
    assert tag % 8 == wire && tag / 8 % 256 == field;
  }

  lemma NumberRoundTrip(buf: seq<byte>, pos: nat, field: byte, n: nat)
    requires field < 16 && At(buf, pos, [FieldTag(field, VARINT)] + EncodeVarint(n))
    ensures DecodeField(buf, pos) ==
            if n < 0x8_0000_0000 then Done(Field(field, Uint(n % TWO32)), pos + 1 + |EncodeVarint(n)|) else Fail
  {
    hide FieldTag, DecodeField, ReadVarint32, EncodeVarint;
    var tag := [FieldTag(field, VARINT)];
    AtConcat(buf, pos, tag, EncodeVarint(n));
    assert tag[0] == buf[pos + 0];
    TaggedField(buf, pos, field, VARINT);
    ReadEncoded32(buf, pos + 1, n);
  }

  lemma ValueRoundTrip(buf: seq<byte>, pos: nat, field: byte, v: Json)
    requires field < 16 && Representable(v) && At(buf, pos, [FieldTag(field, PSON_V2)] + Encode(v))
    ensures DecodeField(buf, pos) ==
            if Fits(v) then Done(Field(field, PsonLaws.Received(v)), pos + 1 + |Encode(v)|) else Fail
  {
    hide FieldTag, DecodeField, Decode, Encode, Representable, Fits, PsonLaws.Received;
    var tag := [FieldTag(field, PSON_V2)];
    AtConcat(buf, pos, tag, Encode(v));
    assert tag[0] == buf[pos + 0];
    TaggedField(buf, pos, field, PSON_V2);
    RoundTrip(buf, pos + 1, v);
  }

  lemma FieldRoundTrip(buf: seq<byte>, pos: nat, field: byte, v: Json)
    requires field < 16 && Representable(v) && At(buf, pos, EncodeField(field, v))
    ensures DecodeField(buf, pos) ==
            if FieldFits(v) then Done(Field(field, ReceivedField(v)), pos + |EncodeField(field, v)|) else Fail
  {
    match v
    case Uint(u) => NumberRoundTrip(buf, pos, field, u);
    case Int(i) => NumberRoundTrip(buf, pos, field, if i >= 0 then i else 0);
    case _ => ValueRoundTrip(buf, pos, field, v);
  }

  /** What the field map holds after a field that does not fit. */
  function WithRemains(into: Fields, f: byte, v: Json): Fields {
    if v.Uint? || v.Int? then into else into[f := Remains(v, FieldOf(into, f))]
  }

  lemma FieldLeaves(buf: seq<byte>, pos: nat, field: byte, v: Json, into: Fields)
    requires field < 16 && Representable(v) && At(buf, pos, EncodeField(field, v)) && !FieldFits(v)
    ensures FailedField(buf, pos, into) == WithRemains(into, field, v)
  {
    var number := v.Uint? || v.Int?;
    var wire := if number then VARINT else PSON_V2;
    hide FailedField, Left, Encode, EncodeVarint, Remains, Representable, FieldTag, Fits;
    assert EncodeField(field, v)[0] == FieldTag(field, wire);
    assert buf[pos + 0] == EncodeField(field, v)[0];
    TaggedFailure(buf, pos, field, wire, into);
    if !number {
      AtConcat(buf, pos, [FieldTag(field, wire)], Encode(v));
      RefusedLeaves(buf, pos + 1, v, FieldOf(into, field));
    }
  }

  /** The fields in the order they went out, up to the first that does not fit. */
  function ReceivedUntil(order: seq<byte>, fields: Fields, into: Fields): Fields
    requires Covers(fields, order)
  {
    if order == [] then into
    else
      var f, v := order[0], fields[order[0]];
      if FieldFits(v) then ReceivedUntil(order[1..], fields, into[f := ReceivedField(v)])
      else WithRemains(into, f, v)
  }

  lemma {:induction false} ReceivedInFull(order: seq<byte>, fields: Fields, into: Fields)
    requires Covers(fields, order) && Distinct(order) && AllFieldsFit(order, fields)
    ensures ReceivedUntil(order, fields, into) == into + ReceivedFields(order, fields)
    decreases order
  {
    if order == [] {
      assert into + ReceivedFields(order, fields) == into;
    } else {
      FieldStored(order, fields, into);
      hide ReceivedField, FieldFits;
      ReceivedInFull(order[1..], fields, into[order[0] := ReceivedField(fields[order[0]])]);
    }
  }

  lemma {:induction false} FieldsRoundTrip(buf: seq<byte>, pos: nat, order: seq<byte>, fields: Fields, into: Fields)
    requires Covers(fields, order) && Distinct(order) && AllSendable(fields)
    requires At(buf, pos, EncodeFields(order, fields)) && pos + |EncodeFields(order, fields)| == |buf|
    ensures AllFieldsFit(order, fields) ==>
              DecodeFields(buf, pos, into) == Done(into + ReceivedFields(order, fields), |buf|)
    ensures !AllFieldsFit(order, fields) ==> DecodeFields(buf, pos, into) == Fail
    ensures FieldsLeft(buf, pos, into) == ReceivedUntil(order, fields, into)
    decreases order
  {
    hide At, EncodeField, DecodeField, FailedField, WithRemains, ReceivedField, FieldFits, Representable;
    if order == [] {
      assert into + ReceivedFields(order, fields) == into;
    } else {
      var f, rest := order[0], order[1..];
      var v := fields[f];
      var next, into' := pos + |EncodeField(f, v)|, into[f := ReceivedField(v)];
      FirstField(buf, pos, order, fields);
      FieldRoundTrip(buf, pos, f, v);
      if FieldFits(v) {
        OneMoreField(buf, pos, into, Field(f, ReceivedField(v)), next);
        FieldsRoundTrip(buf, next, rest, fields, into');
        FieldStored(order, fields, into);
      } else {
        FieldLeaves(buf, pos, f, v, into);
      }
    }
  }

  predicate AllSendable(fields: Fields) {
    forall f <- fields :: f < 16 && Representable(fields[f])
  }

  lemma FirstField(buf: seq<byte>, pos: nat, order: seq<byte>, fields: Fields)
    requires order != [] && Covers(fields, order)
    requires At(buf, pos, EncodeFields(order, fields))
    ensures Covers(fields, order[1..])
    ensures At(buf, pos, EncodeField(order[0], fields[order[0]]))
    ensures At(buf, pos + |EncodeField(order[0], fields[order[0]])|, EncodeFields(order[1..], fields))
    ensures pos < |buf|
  {
    var f, v := order[0], fields[order[0]];
    AtConcat(buf, pos, EncodeField(f, v), EncodeFields(order[1..], fields));
  }

  lemma OneMoreField(buf: seq<byte>, pos: nat, into: Fields, f: Field, next: nat)
    requires pos <= |buf| && DecodeField(buf, pos) == Done(f, next)
    ensures DecodeFields(buf, pos, into) == DecodeFields(buf, next, into[f.number := f.value])
    ensures FieldsLeft(buf, pos, into) == FieldsLeft(buf, next, into[f.number := f.value])
  {
  }

  lemma FieldStored(order: seq<byte>, fields: Fields, into: Fields)
    requires order != [] && Covers(fields, order) && Distinct(order)
    ensures Covers(fields, order[1..])
    ensures into + ReceivedFields(order, fields) ==
            into[order[0] := ReceivedField(fields[order[0]])] + ReceivedFields(order[1..], fields)
  {
    hide ReceivedField;
    assert order == [order[0]] + order[1..];
  }

  // ---- messages ---------------------------------------------------------------------

  /** A message of the library: a type of the enumeration, field numbers below 16. */
  predicate Sendable(m: Message) {
    && m.kind < 128
    && (forall f <- m.fields :: f < 16)
  }

  predicate FieldsFit(fields: Fields) {
    forall f <- fields :: FieldFits(fields[f])
  }

  /** What the peer should have in its hands once `m` has been sent: its fields as received, up to
      the first in the order they went out that the decoder does not take. */
  function Expected(m: Message): Delivery {
    Delivery(m.kind, ReceivedUntil(m.order, m.fields, map[]))
  }

  function EachReceived(fields: Fields): Fields {
    map f | f in fields :: ReceivedField(fields[f])
  }

  lemma {:induction false} FitsInAnyOrder(order: seq<byte>, fields: Fields)
    requires Covers(fields, order)
    ensures AllFieldsFit(order, fields) <==> forall f <- order :: FieldFits(fields[f])
  {
    if order != [] {
      FitsInAnyOrder(order[1..], fields);
      assert order == [order[0]] + order[1..];
    }
  }

  lemma OrderIsKeys(m: Message)
    ensures forall f :: f in m.order <==> f in m.fields
  {
    assert forall f :: f in m.order <==> f in (set g | g in m.order);
  }

  /** A sent message is delivered as expected; if all its fields fit, that is with all of them, in
      whatever order they went out. */
  lemma MessageRoundTrip(m: Message)
    requires Sendable(m)
    ensures Delivered(FrameOf(m)) == Expected(m)
    ensures FieldsFit(m.fields) ==> Expected(m) == Delivery(m.kind, EachReceived(m.fields))
  {
    hide ReceivedField, FieldFits, DecodeFields, FieldsLeft, ReceivedUntil, EncodeFields, Representable;
    var body := EncodeFields(m.order, m.fields);
    assert At(body, 0, body);
    FieldsRoundTrip(body, 0, m.order, m.fields, map[]);
    FitsInAnyOrder(m.order, m.fields);
    OrderIsKeys(m);
    if FieldsFit(m.fields) {
      ReceivedInFull(m.order, m.fields, map[]);
      assert map[] + ReceivedFields(m.order, m.fields) == EachReceived(m.fields);
    }
  }

  function FramesOf(ms: seq<Message>): seq<Frame> {
    seq(|ms|, i requires 0 <= i < |ms| => FrameOf(ms[i]))
  }

  /** The whole path, end to end: messages within the limit are written one after another
      and the connection breaks somewhere inside the next one.  The peer's read loop then
      has exactly those messages, in order and with the fields they were sent with. */
  lemma StreamRoundTrip(ms: seq<Message>, part: seq<byte>, next: Message)
    requires forall m <- ms :: Sendable(m) && |FrameOf(m).body| <= MAX_MESSAGE_SIZE
    requires Sendable(next) && part < EncodeFrame(FrameOf(next))
    ensures var arrived := ReadFrames(EncodeFrames(FramesOf(ms)) + part, 0, []);
            && |arrived| == |ms|
            && forall i :: 0 <= i < |ms| ==> Delivered(arrived[i]) == Expected(ms[i])
  {
    forall f <- FramesOf(ms) ensures Deliverable(f) {
      var i :| 0 <= i < |ms| && FrameOf(ms[i]) == f;
    }
    BrokenStream(FramesOf(ms), part, FrameOf(next));
    forall i | 0 <= i < |ms| ensures Delivered(FramesOf(ms)[i]) == Expected(ms[i]) {
      assert ms[i] in ms;
      MessageRoundTrip(ms[i]);
    }
  }
}
