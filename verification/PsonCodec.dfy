/** The PSON encoder and decoder as they run: one appends to a shared writer, the other
    advances a shared reader; both are proved against the functions of Pson.dfy. */
module PsonCodec {
  import opened Bytes
  import opened Floats
  import opened Varint
  import opened Pson
  import opened PsonLaws
  import opened Adapters

  /** The `do … while(value > 0)` loop, shared by the PSON and the message encoder. */
  method WriteVarint(writer: Writer, v: u64) returns (ok: bool)
    requires writer.Valid()
    modifies writer.Repr()
    ensures writer.Valid() && ok && writer.Emitted() == old(writer.Emitted()) + EncodeVarint(v)
  {
    var value: nat := v;
    while true
      invariant writer.Valid()
      invariant writer.Emitted() + EncodeVarint(value) == old(writer.Emitted()) + EncodeVarint(v)
      decreases value
    {
      ghost var emitted, whole := writer.Emitted(), EncodeVarint(value);
      var b: byte := value % 128;
      value := value / 128;
      if value > 0 { b := b + 128; }
      assert whole == [b] + if value > 0 then EncodeVarint(value) else [];
      assert emitted + whole == emitted + [b] + if value > 0 then EncodeVarint(value) else [];
      ok := writer.Write([b]);
      if !ok { return false; }
      if value == 0 { return true; }
    }
  }

  class PsonEncoder {
    const writer: Writer

    constructor (writer: Writer)
      ensures this.writer == writer
    {
      this.writer := writer;
    }

    method EncodeTagTo(wire: nat, payload: u64) returns (ok: bool)
      requires writer.Valid() && wire < 8
      modifies writer.Repr()
      ensures writer.Valid() && ok && writer.Emitted() == old(writer.Emitted()) + EncodeTag(wire, payload)
    {
      hide EncodeVarint;
      if payload < 0x1f {
        ok := writer.Write([wire * 32 + payload]);
      } else {
        ghost var base := writer.Emitted();
        ok := writer.Write([wire * 32 + 0x1f]);
        if ok { ok := WriteVarint(writer, payload); }
        Assoc(base, [wire * 32 + 0x1f], EncodeVarint(payload));
      }
    }

    method EncodeStringTo(s: Text) returns (ok: bool)
      requires writer.Valid() && |s| < TWO64
      modifies writer.Repr()
      ensures writer.Valid() && ok && writer.Emitted() == old(writer.Emitted()) + EncodeString(s)
    {
      var visible := CStr(s);
      ghost var base := writer.Emitted();
      ok := EncodeTagTo(STRING, |visible|);
      if ok { ok := writer.Write(visible); }
      Assoc(base, EncodeTag(STRING, |visible|), visible);
    }

    /** As an integer if it is one, in single precision if that holds it, else as it is. */
    method EncodeFloat(d: Double) returns (ok: bool)
      requires writer.Valid()
      modifies writer.Repr()
      ensures writer.Valid() && ok && writer.Emitted() == old(writer.Emitted()) + Encode(Real(d))
    {
      hide Whole, Narrow, SingleBytes, DoubleBytes, EncodeTag;
      ghost var base := writer.Emitted();
      Assoc(base, EncodeTag(Wire(Real(d)), Payload(Real(d))), Body(Real(d)));
      var whole := Whole(d);
      if whole.Some? {
        var i := whole.value;
        if i < 0 {
          ok := EncodeTagTo(SIGNED, Abs(i));
        } else {
          ok := EncodeTagTo(UNSIGNED, i);
        }
        return;
      }
      var narrow := Narrow(d);
      if narrow.Some? {
        ok := EncodeTagTo(FLOATING, 0);
        if ok { ok := writer.Write(SingleBytes(narrow.value)); }
      } else {
        ok := EncodeTagTo(FLOATING, 1);
        if ok { ok := writer.Write(DoubleBytes(d)); }
      }
    }

    method EncodeArray(items: seq<Json>) returns (ok: bool)
      requires writer.Valid() && |items| < TWO64 && AllRepresentable(items)
      modifies writer.Repr()
      ensures writer.Valid() && ok
      ensures writer.Emitted() == old(writer.Emitted()) + (EncodeTag(ARRAY, |items|) + EncodeItems(items))
      decreases items, 0
    {
      ghost var base := writer.Emitted();
      ok := EncodeTagTo(ARRAY, |items|);
      Assoc(base, EncodeTag(ARRAY, |items|), EncodeItems(items));
      assert items[0..] == items;
      for i := 0 to |items|
        invariant writer.Valid() && ok && AllRepresentable(items[i..])
        invariant writer.Emitted() + EncodeItems(items[i..]) ==
                  base + (EncodeTag(ARRAY, |items|) + EncodeItems(items))
      {
        ghost var rest := items[i + 1..];
        assert items[i..][1..] == rest;
        Assoc(writer.Emitted(), Encode(items[i]), EncodeItems(rest));
        ok := EncodeValue(items[i]);
      }
    }

    method EncodeObject(members: seq<Member>) returns (ok: bool)
      requires writer.Valid() && |members| < TWO64 && MembersRepresentable(members)
      modifies writer.Repr()
      ensures writer.Valid() && ok
      ensures writer.Emitted() == old(writer.Emitted()) + (EncodeTag(MAP, |members|) + EncodeMembers(members))
      decreases members, 0
    {
      ghost var base := writer.Emitted();
      ok := EncodeTagTo(MAP, |members|);
      Assoc(base, EncodeTag(MAP, |members|), EncodeMembers(members));
      assert members[0..] == members;
      for i := 0 to |members|
        invariant writer.Valid() && ok && MembersRepresentable(members[i..])
        invariant writer.Emitted() + EncodeMembers(members[i..]) ==
                  base + (EncodeTag(MAP, |members|) + EncodeMembers(members))
      {
        var m := members[i];
        ghost var rest, here := members[i + 1..], writer.Emitted();
        assert members[i..][1..] == rest;
        Assoc(here, EncodeMember(m), EncodeMembers(rest));
        Assoc(here, EncodeString(m.key), Encode(m.value));
        ok := EncodeStringTo(m.key);
        if ok { ok := EncodeValue(m.value); }
      }
    }

    /** Appends exactly `Encode(value)`, whichever writer this encoder was made for. */
    method EncodeValue(value: Json) returns (ok: bool)
      requires writer.Valid() && Representable(value)
      modifies writer.Repr()
      ensures writer.Valid() && ok && writer.Emitted() == old(writer.Emitted()) + Encode(value)
      decreases value, 1
    {
      ghost var base := writer.Emitted();
      Assoc(base, EncodeTag(Wire(value), Payload(value)), Body(value));
      match value
      case Null => ok := EncodeTagTo(DISCRETE, 2);
      case Bool(b) => ok := EncodeTagTo(DISCRETE, if b then 1 else 0);
      case Uint(u) => ok := EncodeTagTo(UNSIGNED, u);
      case Int(i) =>
        if i < 0 {
          ok := EncodeTagTo(SIGNED, Abs(i));
        } else {
          ok := EncodeTagTo(UNSIGNED, i);
        }
      case Real(d) => ok := EncodeFloat(d);
      case Str(s) => ok := EncodeStringTo(s);
      case Arr(items) => ok := EncodeArray(items);
      case Obj(members) => ok := EncodeObject(members);
      case Bin(b) =>
        ok := EncodeTagTo(BYTES, |b|);
        if ok { ok := writer.Write(b); }
    }
  }

  /** The `do … while(byte >= 0x80)` loop of the decoders, for a 32- or a 64-bit register. */
  method ReadVarintFrom(reader: MemoryReader, bits: nat) returns (ok: bool, value: nat)
    requires reader.Valid() && (bits == 32 || bits == 64)
    modifies reader
    ensures reader.Valid() && old(reader.count) <= reader.count
    ensures var r := if bits == 32 then ReadVarint32(reader.buffer, old(reader.count))
                     else ReadVarint64(reader.buffer, old(reader.count));
            && (ok <==> r.Varint?)
            && (ok ==> r == Varint(value, reader.count))
  {
    hide Groups, Pow128, ReadVarint, Low, WithGroup;
    ghost var start, buf := reader.count, reader.buffer;
    EmptyRegister();
    assert buf[start..start] == [];
    var modulus := if bits == 32 then TWO32 else TWO64;
    ghost var maxBytes: nat := if bits == 32 then 5 else 10;
    value := 0;
    var bitPos: nat, weight: nat := 0, 1;
    while true
      invariant reader.Valid() && start <= reader.count
      invariant forall i :: start <= i < reader.count ==> buf[i] >= 128
      invariant bitPos == 7 * (reader.count - start) && weight == Pow128(reader.count - start)
      invariant value == Groups(buf[start..reader.count]) % modulus
      decreases |buf| - reader.count
    {
      ghost var at := reader.count;
      var got, bytes := reader.Read(1);
      if !got || bitPos >= bits {
        RegisterFails(buf, start, at, maxBytes, modulus);
        return false, 0;
      }
      var b := bytes[0];
      var low := Low(b);
      RegisterGrows(buf, start, at, modulus);
      value := WithGroup(value, low, weight, modulus);
      bitPos, weight := bitPos + 7, 128 * weight;
      if b < 128 {
        RegisterStops(buf, start, at, maxBytes, modulus);
        return true, value;
      }
    }
  }

  class PsonDecoder {
    const reader: MemoryReader

    /** How often `decode` or `decode_pair` has been entered. */
    ghost var rounds: nat

    constructor (reader: MemoryReader)
      ensures this.reader == reader && rounds == 0
    {
      this.reader := reader;
      this.rounds := 0;
    }

    /** What one call may cost: a round for every byte read, and one more if it fails. */
    twostate predicate Paid(ok: bool)
      reads this, reader
    {
      && reader.Valid()
      && old(reader.count) <= reader.count
      && old(rounds) <= rounds
      && rounds - old(rounds) <= reader.count - old(reader.count) + if ok then 0 else 1
    }

    method ReadTag() returns (ok: bool, wire: nat, payload: u64)
      requires reader.Valid()
      modifies reader
      ensures reader.Valid() && old(reader.count) <= reader.count
      ensures var r := DecodeTag(reader.buffer, old(reader.count));
              && (ok <==> r.Tag?)
              && (ok ==> r == Tag(wire, payload, reader.count))
    {
      wire, payload := 0, 0;
      var bytes;
      ok, bytes := reader.Read(1);
      if !ok { return; }
      wire := bytes[0] / 32;
      payload := bytes[0] % 32;
      if payload == 0x1f {
        var value;
        ok, value := ReadVarintFrom(reader, 64);
        if ok { payload := value; }
      }
    }

    method ReadSized(n: u64) returns (ok: bool, data: seq<byte>)
      requires reader.Valid()
      modifies reader
      ensures reader.Valid() && old(reader.count) <= reader.count
      ensures var r := TakeSized(reader.buffer, old(reader.count), n);
              && (ok <==> r.Done?)
              && (ok ==> r == Done(data, reader.count))
    {
      if n > UINT32_MAX { return false, []; }
      ok, data := reader.Read(n);
    }

    /** Fills the value it is given, `before`, with what `Decode` makes of the bytes from the
        cursor on, leaving the cursor where it says, or with what a failure leaves; the rounds
        spent never exceed the bytes read, whatever counts the input declares. */
    method DecodeValue(before: Json) returns (ok: bool, value: Json)
      requires reader.Valid()
      modifies this, reader
      ensures Paid(ok) && old(rounds) < rounds
      ensures var r := Decode(reader.buffer, old(reader.count));
              && (ok <==> r.Done?)
              && (ok ==> r == Done(value, reader.count))
      ensures !ok ==> value == Left(reader.buffer, old(reader.count), before)
      decreases |reader.buffer| - reader.count, 0
    {
      hide DecodeItems, DecodeMembers, LeftItems, LeftMembers, Negated, Widen, SingleOf, DoubleOf;
      value := before;
      rounds := rounds + 1;
      var wire, p;
      ok, wire, p := ReadTag();
      if !ok { return; }
      if wire == UNSIGNED {
        return true, Uint(p);
      } else if wire == SIGNED {
        return true, Int(Negated(p));
      } else if wire == FLOATING {
        var data;
        if p == 0 {
          ok, data := reader.Read(4);
          if ok { value := Real(Widen(SingleOf(data))); }
        } else if p == 1 {
          ok, data := reader.Read(8);
          if ok { value := Real(DoubleOf(data)); }
        } else {
          return false, before;
        }
      } else if wire == DISCRETE {
        if p == 0 {
          return true, Bool(false);
        } else if p == 1 {
          return true, Bool(true);
        } else if p == 2 {
          return true, Null;
        } else {
          return false, before;
        }
      } else if wire == STRING {
        var data;
        ok, data := ReadSized(p);
        if ok { value := Str(data); }
      } else if wire == BYTES {
        var data;
        ok, data := ReadSized(p);
        if ok { value := Bin(data); }
      } else if wire == MAP {
        var members;
        ok, members := DecodeObject(p);
        value := Obj(members);
      } else {
        var items;
        ok, items := DecodeArray(p);
        value := Arr(items);
      }
    }

    method DecodeArray(size: u64) returns (ok: bool, array_: seq<Json>)
      requires reader.Valid()
      modifies this, reader
      ensures Paid(ok) && (ok ==> old(rounds) + size <= rounds)
      ensures var r := DecodeItems(reader.buffer, old(reader.count), size, []);
              && (ok <==> r.Done?)
              && (ok ==> r == Done(array_, reader.count))
      ensures !ok ==> array_ == LeftItems(reader.buffer, old(reader.count), size, [])
      decreases |reader.buffer| - reader.count, 1
    {
      ghost var start, buf := reader.count, reader.buffer;
      array_ := [];
      for i := 0 to size
        invariant Paid(true) && old(rounds) + i <= rounds
        invariant DecodeItems(buf, start, size, []) == DecodeItems(buf, reader.count, size - i, array_)
        invariant LeftItems(buf, start, size, []) == LeftItems(buf, reader.count, size - i, array_)
      {
        var value;
        ok, value := DecodeValue(Null);
        if !ok { return; }
        array_ := array_ + [value];
      }
      ok := true;
    }

    method DecodePair(object_: seq<Member>) returns (ok: bool, updated: seq<Member>)
      requires reader.Valid()
      modifies this, reader
      ensures Paid(ok) && old(rounds) < rounds && (ok ==> old(rounds) + 2 <= rounds)
      ensures var r := DecodeMember(reader.buffer, old(reader.count));
              && (ok <==> r.Done?)
              && (ok ==> r.next == reader.count && updated == Insert(object_, r.value.key, r.value.value))
      ensures !ok ==> updated == LeftMember(reader.buffer, old(reader.count), object_)
      ensures ok ==> old(reader.count) < reader.count
      decreases |reader.buffer| - reader.count, 1
    {
      rounds := rounds + 1;
      updated := object_;
      var wire, keySize;
      ok, wire, keySize := ReadTag();
      if !ok || wire != STRING { return false, object_; }
      var key, value;
      ok, key := ReadSized(keySize);
      if !ok { return; }
      ok, value := DecodeValue(Lookup(object_, key));
      updated := Insert(object_, key, value);
    }

    method DecodeObject(size: u64) returns (ok: bool, object_: seq<Member>)
      requires reader.Valid()
      modifies this, reader
      ensures Paid(ok) && (ok ==> old(rounds) + 2 * size <= rounds)
      ensures var r := DecodeMembers(reader.buffer, old(reader.count), size, []);
              && (ok <==> r.Done?)
              && (ok ==> r == Done(object_, reader.count))
      ensures !ok ==> object_ == LeftMembers(reader.buffer, old(reader.count), size, [])
      decreases |reader.buffer| - reader.count, 2
    {
      hide DecodeMember, Insert;
      ghost var start, buf := reader.count, reader.buffer;
      object_ := [];
      for i := 0 to size
        invariant Paid(true) && old(rounds) + 2 * i <= rounds
        invariant DecodeMembers(buf, start, size, []) == DecodeMembers(buf, reader.count, size - i, object_)
        invariant LeftMembers(buf, start, size, []) == LeftMembers(buf, reader.count, size - i, object_)
      {
        ok, object_ := DecodePair(object_);
        if !ok { return; }
      }
      ok := true;
    }
  }
}
