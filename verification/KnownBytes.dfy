/** The bytes themselves: which ones announce what, written out. */
module KnownBytes {
  import opened Bytes
  import opened Floats
  import opened Framing
  import opened Iotmp
  import P = PathMatcher
  import opened Pson
  import opened PsonLaws
  import opened Varint

  /** Seven-bit text as bytes. */
  function Ascii(s: string): (t: Text)
    requires forall i :: 0 <= i < |s| ==> s[i] as int < 128
    ensures |t| == |s|
  {
    seq<byte>(|s|, i requires 0 <= i < |s| => s[i] as int)
  }

  /** The top three bits of the first byte, by kind of value. */
  function KindBits(v: Json): nat {
    match v
    case Uint(_) => 0
    case Int(i) => if i < 0 then 1 else 0
    case Real(d) => if Whole(d).Some? then if Whole(d).value < 0 then 1 else 0 else 2
    case Null => 3
    case Bool(_) => 3
    case Str(_) => 4
    case Bin(_) => 5
    case Obj(_) => 6
    case Arr(_) => 7
  }

  /** The number in or behind the lower five: the number itself, what is to come, how much. */
  function Announced(v: Json): nat {
    match v
    case Uint(u) => u
    case Int(i) => if i < 0 then 0 - i else i
    case Real(d) =>
      if Whole(d).Some? then if Whole(d).value < 0 then 0 - Whole(d).value else Whole(d).value
      else if Narrow(d).Some? then 0 else 1
    case Null => 2
    case Bool(b) => if b then 1 else 0
    case Str(s) => |CStr(s)|
    case Bin(b) => |b|
    case Obj(members) => |members|
    case Arr(items) => |items|
  }

  /** Every value is announced by its kind and number: in one byte, or with a varint behind it. */
  lemma WrittenKind(v: Json)
    ensures Encode(v)[0] == 32 * KindBits(v) + if Announced(v) < 31 then Announced(v) else 31
    ensures Announced(v) >= 31 ==> [Encode(v)[0]] + EncodeVarint(Announced(v)) <= Encode(v)
  {
    hide Whole, Narrow, CStr, EncodeVarint;
    assert Encode(v) == EncodeTag(Wire(v), Payload(v)) + Body(v);
  }

  /** And every value that is read is of the kind its first byte says. */
  lemma ReadKind(buf: seq<byte>, pos: nat)
    requires pos < |buf| && Decode(buf, pos).Done?
    ensures match Decode(buf, pos).value
            case Uint(_) => buf[pos] / 32 == 0
            case Int(_) => buf[pos] / 32 == 1
            case Real(_) => buf[pos] == 64 || buf[pos] == 65 || buf[pos] == 95
            case Bool(_) => buf[pos] / 32 == 3
            case Null => buf[pos] / 32 == 3
            case Str(_) => buf[pos] / 32 == 4
            case Bin(_) => buf[pos] / 32 == 5
            case Obj(_) => buf[pos] / 32 == 6
            case Arr(_) => buf[pos] / 32 == 7
  {
  }

  lemma ShortTag(buf: seq<byte>, pos: nat)
    requires pos < |buf| && buf[pos] % 32 != 31
    ensures DecodeTag(buf, pos) == Tag(buf[pos] / 32, buf[pos] % 32, pos + 1)
  {
  }

  /** What a first byte below the long forms is read as: numbers and constants … */
  lemma ReadShort(buf: seq<byte>, pos: nat)
    requires pos < |buf|
    ensures var b, r := buf[pos], Decode(buf, pos);
            && (b < 31 ==> r == Done(Uint(b), pos + 1))
            && (32 <= b < 63 ==> r == Done(Int(32 - b as int), pos + 1))
            && (b == 96 ==> r == Done(Bool(false), pos + 1))
            && (b == 97 ==> r == Done(Bool(true), pos + 1))
            && (b == 98 ==> r == Done(Null, pos + 1))
            && (66 <= b < 95 || 99 <= b < 127 ==> r == Fail)
  {
    hide DecodeTag, DecodeItems, DecodeMembers, TakeSized;
    if buf[pos] % 32 != 31 { ShortTag(buf, pos); }
  }

  /** … texts and blocks, which need their bytes. */
  lemma ReadShortBytes(buf: seq<byte>, pos: nat)
    requires pos < |buf|
    ensures var b, left := buf[pos], |buf| - pos - 1;
            && (128 <= b < 159 ==>
                  Decode(buf, pos) ==
                  if b - 128 <= left then Done(Str(buf[pos + 1..pos + b - 127]), pos + b - 127) else Fail)
            && (160 <= b < 191 ==>
                  Decode(buf, pos) ==
                  if b - 160 <= left then Done(Bin(buf[pos + 1..pos + b - 159]), pos + b - 159) else Fail)
  {
    hide DecodeTag, DecodeItems, DecodeMembers, DecodeFloat;
    if buf[pos] % 32 != 31 { ShortTag(buf, pos); }
  }

  /** Of values without parts, exactly these are read: any number, a float in one of two forms and
      with its bytes, three constants, texts and blocks below 2^32 bytes that are there. */
  lemma ReadIff(buf: seq<byte>, pos: nat)
    requires pos <= |buf|
    ensures DecodeTag(buf, pos) == NoTag ==> Decode(buf, pos) == Fail
    ensures DecodeTag(buf, pos).Tag? && DecodeTag(buf, pos).wire < 6 ==>
              var Tag(kind, n, next) := DecodeTag(buf, pos);
              Decode(buf, pos).Done? <==>
              || kind < 2
              || (kind == 2 && ((n == 0 && next + 4 <= |buf|) || (n == 1 && next + 8 <= |buf|)))
              || (kind == 3 && n < 3)
              || (4 <= kind && n < 0x1_0000_0000 && next + n <= |buf|)
  {
    hide DecodeTag;
  }

  /** A member's key is a text, and nothing else is. */
  lemma KeyIff(buf: seq<byte>, pos: nat)
    requires pos <= |buf|
    ensures var t := DecodeTag(buf, pos);
            if t.Tag? && t.wire == 4 && t.payload < 0x1_0000_0000 && t.next + t.payload <= |buf|
            then DecodeKey(buf, pos) == Done(buf[t.next..t.next + t.payload], t.next + t.payload)
            else DecodeKey(buf, pos) == Fail
  {
    hide DecodeTag;
  }

  /** One value of each kind. */
  lemma Samples()
    ensures Encode(Null) == [0x62] && Encode(Bool(false)) == [0x60] && Encode(Bool(true)) == [0x61]
    ensures Encode(Uint(5)) == [0x05] && Encode(Int(5)) == [0x05] && Encode(Int(-5)) == [0x25]
    ensures Encode(Uint(300)) == [0x1f, 0xac, 0x02]
    ensures Encode(Str([97])) == [0x81, 97] && Encode(Bin([97])) == [0xa1, 97]
    ensures Encode(Arr([Null])) == [0xe1, 0x62]
    ensures Encode(Obj([Member([97], Uint(2))])) == [0xc1, 0x81, 97, 0x02]
  {
    ThreeHundred();
    hide EncodeVarint;
    assert CStr([97]) == [97] + CStr([]);
    assert EncodeItems([Null]) == Encode(Null) + EncodeItems([]);
    var m := Member([97], Uint(2));
    assert EncodeMembers([m]) == EncodeMember(m) + EncodeMembers([]);
  }

  lemma ThreeHundred()
    ensures EncodeVarint(300) == [0xac, 0x02]
  {
    assert EncodeVarint(2) == [2];
  }

  /** `{"b": 1, "a": 2}` from a writer that does not order its keys. */
  lemma Unordered()
    ensures var buf: seq<byte> := [0xc2, 0x81, 98, 0x01, 0x81, 97, 0x02];
            Decode(buf, 0) == Done(Obj([Member([97], Uint(2)), Member([98], Uint(1))]), 7)
  {
    var buf: seq<byte> := [0xc2, 0x81, 98, 0x01, 0x81, 97, 0x02];
    var b, a := Member([98], Uint(1)), Member([97], Uint(2));
    OneMember(buf, 1, 98, 1);
    OneMember(buf, 4, 97, 2);
    ShortTag(buf, 0);
    BeforeLarger(a, b);
    hide DecodeTag, DecodeMember, Insert;
    assert DecodeMembers(buf, 1, 2, []) == DecodeMembers(buf, 4, 1, [b]) == DecodeMembers(buf, 7, 0, [a, b]);
  }

  lemma OneMember(buf: seq<byte>, pos: nat, key: byte, n: byte)
    requires pos + 3 <= |buf| && buf[pos] == 0x81 && buf[pos + 1] == key && buf[pos + 2] == n < 31
    ensures DecodeMember(buf, pos) == Done(Member([key], Uint(n)), pos + 3)
  {
    ShortTag(buf, pos);
    ReadShort(buf, pos + 2);
    hide Decode, DecodeTag;
    assert buf[pos + 1..pos + 2] == [key];
  }

  lemma BeforeLarger(a: Member, b: Member)
    requires Less(a.key, b.key) && a.key != b.key
    ensures Insert([], b.key, b.value) == [b] && Insert([b], a.key, a.value) == [a, b]
  {
  }

  // ---- messages ---------------------------------------------------------------------

  /** Type, size, and each field under its number: eight times the number, and 2 for PSON. */
  lemma FieldBytes(field: byte, v: Json)
    requires field < 16
    ensures EncodeField(field, v)[0] == 8 * field as int + if v.Uint? || v.Int? then 0 else 2
    ensures v.Uint? ==> EncodeField(field, v) == [8 * field as int] + EncodeVarint(v.u)
    ensures v.Int? ==> EncodeField(field, v) == [8 * field as int] + EncodeVarint(if v.i < 0 then 0 else v.i)
    ensures !v.Uint? && !v.Int? ==> EncodeField(field, v) == [8 * field as int + 2] + Encode(v)
  {
    hide Encode, EncodeVarint;
  }

  /** STREAM_DATA on stream 7 with one byte for payload; and a message without fields. */
  lemma WholeMessage()
    ensures EncodeFrame(FrameOf(OneByteOfStream())) == [0x0a, 0x05, 0x08, 0x07, 0x1a, 0xa1, 97]
    ensures EncodeFrame(FrameOf(Message(5, map[], []))) == [0x05, 0x00]
  {
    OneByteBody();
    SmallNumbers();
    hide EncodeVarint, OneByteOfStream, EncodeFields;
    assert EncodeFields([], map[]) == [] by { NoBody(); }
  }

  function OneByteOfStream(): Message {
    var order: seq<byte> := [1, 3];
    assert order[0] in order && order[1] in order;
    Message(10, map[1 := Uint(7), 3 := Bin([97])], order)
  }

  lemma NoBody()
    ensures EncodeFields([], map[]) == []
  {
  }

  lemma OneByteBody()
    ensures FrameOf(OneByteOfStream()) == Frame(10, [0x08, 0x07, 0x1a, 0xa1, 97])
  {
    OneByteBlock();
    SmallNumbers();
    var fields := OneByteOfStream().fields;
    FieldBytes(1, fields[1]);
    FieldBytes(3, fields[3]);
    hide Encode, EncodeVarint, EncodeField;
    assert OneByteOfStream().order[1..] == [3];
    assert EncodeFields([3], fields) == EncodeField(3, fields[3]) + EncodeFields([], fields);
  }

  lemma OneByteBlock()
    ensures Encode(Bin([97])) == [0xa1, 97]
  {
  }

  lemma SmallNumbers()
    ensures EncodeVarint(0) == [0] && EncodeVarint(5) == [5] && EncodeVarint(7) == [7] && EncodeVarint(10) == [10]
  {
  }

  // ---- paths ------------------------------------------------------------------------

  /** What stands out in a pattern. */
  lemma Marks()
    ensures [P.SLASH, P.COLON, P.STAR] == Ascii("/:*")
  {
  }
}
