/** Sending and receiving whole messages: the field encoder run over both writers, the
    field decoder, and the reader that takes messages off a socket. */
module IotmpCodec {
  import opened Bytes
  import opened Varint
  import opened Adapters
  import opened Pson
  import opened PsonLaws
  import opened PsonCodec
  import opened Framing
  import opened Iotmp

  class IotmpEncoder {
    const writer: Writer

    constructor (writer: Writer)
      ensures this.writer == writer
    {
      this.writer := writer;
    }

    method EncodeTagByte(field: byte, wire: nat)
      requires writer.Valid() && wire < 8
      modifies writer.Repr()
      ensures writer.Valid() && writer.Emitted() == old(writer.Emitted()) + [FieldTag(field, wire)]
    {
      var _ := writer.Write([FieldTag(field, wire)]);
    }

    method EncodeOneField(field: byte, value: Json)
      requires writer.Valid() && Representable(value)
      modifies writer.Repr()
      ensures writer.Valid() && writer.Emitted() == old(writer.Emitted()) + EncodeField(field, value)
    {
      ghost var before := writer.Emitted();
      match value {
        case Uint(u) =>
          Assoc(before, [FieldTag(field, VARINT)], EncodeVarint(u));
          EncodeTagByte(field, VARINT);
          var _ := WriteVarint(writer, u);
        case Int(signed) =>
          var n := if signed >= 0 then signed else 0;
          Assoc(before, [FieldTag(field, VARINT)], EncodeVarint(n));
          EncodeTagByte(field, VARINT);
          var _ := WriteVarint(writer, n);
        case _ =>
          Assoc(before, [FieldTag(field, PSON_V2)], Encode(value));
          EncodeTagByte(field, PSON_V2);
          var pson := new PsonEncoder(writer);
          var _ := pson.EncodeValue(value);
      }
    }

    /** Appends the fields of `m` in the order its map is walked in. */
    method EncodeBody(m: Message)
      requires writer.Valid()
      modifies writer.Repr()
      ensures writer.Valid()
      ensures writer.Emitted() == old(writer.Emitted()) + FrameOf(m).body
    {
      ghost var base, body := writer.Emitted(), FrameOf(m).body;
      OrderIsKeys(m);
      assert m.order[0..] == m.order;
      for i := 0 to |m.order|
        invariant writer.Valid()
        invariant writer.Emitted() + EncodeFields(m.order[i..], m.fields) == base + body
      {
        var field := m.order[i];
        assert field in m.order;
        assert m.order[i..][1..] == m.order[i + 1..];
        Assoc(writer.Emitted(), EncodeField(field, m.fields[field]), EncodeFields(m.order[i + 1..], m.fields));
        EncodeOneField(field, m.fields[field]);
      }
    }
  }

  /** Two passes over the same message.  What the counting pass announces in the header is
      what the writing pass appends behind it, so the output is one well-formed frame. */
  method EncodeToString(m: Message) returns (output: Text)
    requires |FrameOf(m).body| < TWO64
    ensures output == EncodeFrame(FrameOf(m))
  {
    ghost var kind, body := EncodeVarint(m.kind), FrameOf(m).body;
    var counter := new NullWriter();
    var sizer := new IotmpEncoder(ToNowhere(counter));
    sizer.EncodeBody(m);
    var bodySize := sizer.writer.BytesWritten();
    assert bodySize == |body|;

    var sink := new StringWriter([]);
    var encoder := new IotmpEncoder(ToString(sink));
    var _ := WriteVarint(encoder.writer, m.kind);
    assert sink.emitted == kind;
    var _ := WriteVarint(encoder.writer, bodySize);
    assert sink.emitted == kind + EncodeVarint(bodySize);
    encoder.EncodeBody(m);
    assert sink.emitted == kind + EncodeVarint(bodySize) + body;
    Assoc(kind, EncodeVarint(bodySize), body);
    output := sink.text;
  }

  class IotmpDecoder {
    const reader: MemoryReader

    constructor (reader: MemoryReader)
      ensures this.reader == reader
    {
      this.reader := reader;
    }

    /** Decodes `size` bytes, the whole rest of the buffer, into a fresh field map.  The
        difference in the loop's guard never goes below zero. */
    method DecodeInto(size: nat) returns (ok: bool, fields: Fields)
      requires reader.Valid() && reader.count + size == |reader.buffer|
      modifies reader
      ensures reader.Valid()
      ensures var r := DecodeFields(reader.buffer, old(reader.count), map[]);
              && (ok <==> r.Done?)
              && (ok ==> r == Done(fields, reader.count))
      ensures fields == FieldsLeft(reader.buffer, old(reader.count), map[])
    {
      ghost var start, buf := reader.count, reader.buffer;
      var startRead := reader.count;
      var pson := new PsonDecoder(reader);
      fields := map[];
      while (size - (reader.count - startRead)) as nat > 0
        invariant reader.Valid() && startRead <= reader.count
        invariant DecodeFields(buf, start, map[]) == DecodeFields(buf, reader.count, fields)
        invariant FieldsLeft(buf, start, map[]) == FieldsLeft(buf, reader.count, fields)
        decreases |buf| - reader.count
      {
        var tag, u, value;
        ok, tag := ReadVarintFrom(reader, 32);
        if !ok { return; }
        if tag % 8 == VARINT {
          ok, u := ReadVarintFrom(reader, 32);
          if !ok { return; }
          fields := fields[tag / 8 % 256 := Uint(u)];
        } else if tag % 8 == PSON_V2 {
          var f: byte := tag / 8 % 256;
          ok, value := pson.DecodeValue(FieldOf(fields, f));
          fields := fields[f := value];
          if !ok { return; }
        } else {
          return false, fields;
        }
      }
      ok := true;
    }
  }

  /** The bytes the peer has sent and the connection has yet to hand out. */
  class Socket {
    const incoming: seq<byte>
    var count: nat

    ghost predicate Valid()
      reads this
    {
      count <= |incoming|
    }

    constructor (incoming: seq<byte>)
      ensures Valid() && this.incoming == incoming && count == 0
    {
      this.incoming := incoming;
      this.count := 0;
    }

    /** Exactly `n` bytes, or an error once the connection ends before. */
    method Read(n: nat) returns (ok: bool, data: seq<byte>)
      requires Valid()
      modifies this
      ensures Valid() && old(count) <= count
      ensures ok <==> old(count) + n <= |incoming|
      ensures ok ==> count == old(count) + n && data == incoming[old(count)..count]
      ensures !ok ==> count == |incoming|
    {
      ok, data := false, [];
      if count + n <= |incoming| {
        ok, data := true, incoming[count..count + n];
        count := count + n;
      } else {
        count := |incoming|;
      }
    }

    /** Here the bit count is checked after the group is taken, so a fifth byte is one too
        many whatever it says. */
    method ReadSize() returns (ok: bool, value: nat)
      requires Valid()
      modifies this
      ensures Valid() && old(count) <= count
      ensures var r := ReadSocketVarint(incoming, old(count));
              && (ok <==> r.Varint?)
              && (ok ==> r == Varint(value, count))
    {
      hide Groups, Pow128, ReadVarint, Low, WithGroup;
      ghost var start := count;
      EmptyRegister();
      assert incoming[start..start] == [];
      value := 0;
      var bitPos: nat, weight: nat := 0, 1;
      while true
        invariant Valid() && start <= count <= start + 4
        invariant forall i :: start <= i < count ==> incoming[i] >= 128
        invariant bitPos == 7 * (count - start) && weight == Pow128(count - start)
        invariant value == Groups(incoming[start..count]) % TWO32
        decreases |incoming| - count
      {
        ghost var at := count;
        var got, bytes := Read(1);
        if !got {
          RegisterFails(incoming, start, at, 4, TWO32);
          return false, 0;
        }
        var b := bytes[0];
        var low := Low(b);
        RegisterGrows(incoming, start, at, TWO32);
        value := WithGroup(value, low, weight, TWO32);
        bitPos, weight := bitPos + 7, 128 * weight;
        if bitPos >= 32 {
          RegisterFails(incoming, start, at, 4, TWO32);
          return false, 0;
        }
        if b < 128 {
          RegisterStops(incoming, start, at, 4, TWO32);
          return true, value;
        }
      }
    }

    /** One message, or nothing once the connection has ended or has to be given up. */
    method ReadMessage() returns (message: Option<Delivery>)
      requires Valid()
      modifies this
      ensures Valid()
      ensures match ReadFrame(incoming, old(count))
              case Closed => message == None
              case Arrived(f, next) => message == Some(Delivered(f)) && count == next
    {
      hide ReadVarint, DecodeFields, FieldsLeft;
      ghost var start := count;
      var ok, kind, size, body;
      ok, kind := Read(1);
      if !ok { return None; }
      ok, size := ReadSize();
      if !ok { return None; }
      if size > MAX_MESSAGE_SIZE { return None; }
      var fields: Fields := map[];
      if size > 0 {
        ok, body := Read(size);
        if !ok { return None; }
        var reader := new MemoryReader(body);
        var decoder := new IotmpDecoder(reader);
        var decoded;
        decoded, fields := decoder.DecodeInto(size);
      } else {
        assert incoming[count..count + size] == [];
        EmptyBody(kind[0]);
      }
      message := Some(Delivery(kind[0], fields));
    }

    /** The read loop of the client: it hands out what `ReadFrames` takes off the stream. */
    method ReadLoop() returns (messages: seq<Delivery>)
      requires Valid()
      modifies this
      ensures messages == DeliveredAll(ReadFrames(incoming, old(count), []))
    {
      ghost var start, frames: seq<Frame> := count, [];
      messages := [];
      while true
        invariant Valid()
        invariant ReadFrames(incoming, start, []) == ReadFrames(incoming, count, frames)
        invariant messages == DeliveredAll(frames)
        decreases |incoming| - count
      {
        ghost var arrived := ReadFrame(incoming, count);
        var message := ReadMessage();
        if message == None { break; }
        frames := frames + [arrived.frame];
        messages := messages + [message.value];
      }
    }
  }

  function DeliveredAll(frames: seq<Frame>): seq<Delivery> {
    seq(|frames|, i requires 0 <= i < |frames| => Delivered(frames[i]))
  }
}
