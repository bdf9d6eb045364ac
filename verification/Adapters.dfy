/** The reader and the two writers the codecs are instantiated with. */
module Adapters {
  import opened Bytes

  /** A cursor over a buffer somebody else owns. */
  class MemoryReader {
    const buffer: seq<byte>
    var count: nat

    ghost predicate Valid()
      reads this
    {
      count <= |buffer| < TWO63
    }

    constructor (buffer: seq<byte>)
      requires |buffer| < TWO63
      ensures Valid() && this.buffer == buffer && count == 0
    {
      this.buffer := buffer;
      this.count := 0;
    }

    /** Copies `n` bytes out, or leaves the cursor where it was.  The sum is a 64-bit one;
        no caller asks for more than a 32-bit number of bytes, so it cannot wrap. */
    method Read(n: nat) returns (ok: bool, data: seq<byte>)
      requires Valid() && n < TWO32
      modifies this
      ensures Valid()
      ensures ok <==> old(count) + n <= |buffer|
      ensures ok ==> count == old(count) + n && data == buffer[old(count)..count]
      ensures !ok ==> count == old(count)
    {
      ok, data := false, [];
      if (count + n) % TWO64 <= |buffer| {
        ok, data := true, buffer[count..count + n];
        count := count + n;
      }
    }
  }

  /** Appends to a string that may already hold something. */
  class StringWriter {
    var text: Text
    var written: nat
    ghost const before: Text
    ghost var emitted: seq<byte>

    ghost predicate Valid()
      reads this
    {
      text == before + emitted && written == |emitted|
    }

    constructor (text: Text)
      ensures Valid() && emitted == [] && before == text
    {
      this.text := text;
      this.before := text;
      this.written := 0;
      this.emitted := [];
    }

    method Write(data: seq<byte>) returns (ok: bool)
      requires Valid()
      modifies this
      ensures Valid() && ok && emitted == old(emitted) + data
    {
      text := text + data;
      written := written + |data|;
      emitted := emitted + data;
      ok := true;
    }
  }

  /** Counts and discards; only the proof remembers what it was given. */
  class NullWriter {
    var written: nat
    ghost var emitted: seq<byte>

    ghost predicate Valid()
      reads this
    {
      written == |emitted|
    }

    constructor ()
      ensures Valid() && emitted == []
    {
      this.written := 0;
      this.emitted := [];
    }

    method Write(data: seq<byte>) returns (ok: bool)
      requires Valid()
      modifies this
      ensures Valid() && ok && emitted == old(emitted) + data
    {
      written := written + |data|;
      emitted := emitted + data;
      ok := true;
    }
  }

  /** The encoders' template parameter: one of the two writers they are used with. */
  datatype Writer = ToString(sink: StringWriter) | ToNowhere(counter: NullWriter) {

    ghost function Repr(): set<object> {
      match this
      case ToString(s) => {s}
      case ToNowhere(c) => {c}
    }

    ghost predicate Valid()
      reads Repr()
    {
      match this
      case ToString(s) => s.Valid()
      case ToNowhere(c) => c.Valid()
    }

    /** What has been given to this writer since it was made. */
    ghost function Emitted(): seq<byte>
      reads Repr()
    {
      match this
      case ToString(s) => s.emitted
      case ToNowhere(c) => c.emitted
    }

    function BytesWritten(): (n: nat)
      requires Valid()
      reads Repr()
      ensures n == |Emitted()|
    {
      match this
      case ToString(s) => s.written
      case ToNowhere(c) => c.written
    }

    method Write(data: seq<byte>) returns (ok: bool)
      requires Valid()
      modifies Repr()
      ensures Valid() && ok && Emitted() == old(Emitted()) + data
    {
      match this
      case ToString(s) => ok := s.Write(data);
      case ToNowhere(c) => ok := c.Write(data);
    }
  }
}
