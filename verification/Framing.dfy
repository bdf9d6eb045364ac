/** The outer layer of IOTMP: a type, a size and that many bytes, frame after frame. */
module Framing {
  import opened Bytes
  import opened Varint

  const MAX_MESSAGE_SIZE: nat := 256 * 1024

  /** A message as the stream carries it; its type is one of the enumeration's. */
  datatype Frame = Frame(kind: byte, body: seq<byte>)

  function EncodeFrame(f: Frame): (s: seq<byte>)
    ensures s != []
  {
    EncodeVarint(f.kind) + (EncodeVarint(|f.body|) + f.body)
  }

  function EncodeFrames(fs: seq<Frame>): seq<byte> {
    if fs == [] then [] else EncodeFrame(fs[0]) + EncodeFrames(fs[1..])
  }

  /** What `read_message` takes off the stream: a frame, or nothing if the stream ends
      first, the size is malformed or it exceeds the limit. */
  datatype Incoming = Closed | Arrived(frame: Frame, next: nat)

  function ReadFrame(stream: seq<byte>, pos: nat): (r: Incoming)
    requires pos <= |stream|
    ensures r.Arrived? ==> pos < r.next <= |stream|
  {
    if pos == |stream| then Closed
    else
      match ReadSocketVarint(stream, pos + 1)
      case Malformed => Closed
      case Varint(size, next) =>
        if size > MAX_MESSAGE_SIZE || next + size > |stream| then Closed
        else Arrived(Frame(stream[pos], stream[next..next + size]), next + size)
  }

  /** The read loop: frames, after those in `before`, until the stream ends or breaks. */
  function ReadFrames(stream: seq<byte>, pos: nat, before: seq<Frame>): seq<Frame>
    requires pos <= |stream|
    decreases |stream| - pos
  {
    match ReadFrame(stream, pos)
    case Closed => before
    case Arrived(f, next) => ReadFrames(stream, next, before + [f])
  }

  lemma HeaderRoundTrip(stream: seq<byte>, pos: nat, kind: byte, n: nat)
    requires kind < 128 && At(stream, pos, [kind] + EncodeVarint(n))
    ensures pos < |stream| && stream[pos] == kind
    ensures ReadSocketVarint(stream, pos + 1) ==
            if n < 0x1000_0000 then Varint(n, pos + 1 + |EncodeVarint(n)|) else Malformed
  {
    AtConcat(stream, pos, [kind], EncodeVarint(n));
    assert [kind][0] == stream[pos + 0];
    ReadEncodedSocket(stream, pos + 1, n);
  }

  /** Wherever a frame stands in a stream the reader takes it and stops right behind it; a
      body over the limit closes the connection. */
  lemma FrameRoundTrip(stream: seq<byte>, pos: nat, f: Frame)
    requires f.kind < 128 && At(stream, pos, EncodeFrame(f))
    ensures ReadFrame(stream, pos) ==
            if |f.body| <= MAX_MESSAGE_SIZE then Arrived(f, pos + |EncodeFrame(f)|) else Closed
  {
    var size := EncodeVarint(|f.body|);
    assert EncodeFrame(f) == ([f.kind] + size) + f.body;
    AtConcat(stream, pos, [f.kind] + size, f.body);
    HeaderRoundTrip(stream, pos, f.kind, |f.body|);
    AtSlice(stream, pos + 1 + |size|, f.body);
  }

  /** In numbers: 256 KB are taken, a byte more is not. */
  lemma LargestFrame(stream: seq<byte>, pos: nat, f: Frame)
    requires f.kind < 128 && At(stream, pos, EncodeFrame(f))
    ensures |f.body| == 262144 ==> ReadFrame(stream, pos) == Arrived(f, pos + |EncodeFrame(f)|)
    ensures |f.body| == 262145 ==> ReadFrame(stream, pos) == Closed
  {
    FrameRoundTrip(stream, pos, f);
    hide EncodeFrame, ReadFrame;
  }

  predicate Deliverable(f: Frame) {
    f.kind < 128 && |f.body| <= MAX_MESSAGE_SIZE
  }

  /** The reader takes exactly `fs` between `pos` and `end`. */
  predicate Takes(stream: seq<byte>, pos: nat, fs: seq<Frame>, end: nat)
    decreases fs
  {
    if fs == [] then pos == end
    else
      pos <= |stream| &&
      match ReadFrame(stream, pos)
      case Closed => false
      case Arrived(f, next) => f == fs[0] && Takes(stream, next, fs[1..], end)
  }

  /** Frames written back to back are taken one by one and in order, whatever follows. */
  lemma {:induction false} FramesRoundTrip(stream: seq<byte>, pos: nat, fs: seq<Frame>)
    requires forall f <- fs :: Deliverable(f)
    requires At(stream, pos, EncodeFrames(fs))
    ensures Takes(stream, pos, fs, pos + |EncodeFrames(fs)|)
    decreases fs
  {
    hide At, EncodeFrame, ReadFrame, Deliverable;
    if fs != [] {
      var next := pos + |EncodeFrame(fs[0])|;
      FirstFrame(stream, pos, fs);
      FramesRoundTrip(stream, next, fs[1..]);
      FirstTaken(stream, pos, fs, next, next + |EncodeFrames(fs[1..])|);
    }
  }

  lemma FirstFrame(stream: seq<byte>, pos: nat, fs: seq<Frame>)
    requires fs != [] && Deliverable(fs[0]) && At(stream, pos, EncodeFrames(fs))
    ensures var next := pos + |EncodeFrame(fs[0])|;
            && pos <= next <= |stream|
            && ReadFrame(stream, pos) == Arrived(fs[0], next)
            && At(stream, next, EncodeFrames(fs[1..]))
  {
    var whole, rest := EncodeFrame(fs[0]), EncodeFrames(fs[1..]);
    assert At(stream, pos, whole) && At(stream, pos + |whole|, rest) by {
      assert EncodeFrames(fs) == whole + rest;
      AtConcat(stream, pos, whole, rest);
    }
    FrameRoundTrip(stream, pos, fs[0]);
  }

  lemma FirstTaken(stream: seq<byte>, pos: nat, fs: seq<Frame>, next: nat, end: nat)
    requires fs != [] && pos <= |stream| && ReadFrame(stream, pos) == Arrived(fs[0], next)
    requires Takes(stream, next, fs[1..], end)
    ensures Takes(stream, pos, fs, end)
  {
  }

  lemma {:induction false} TakenIsRead(stream: seq<byte>, pos: nat, fs: seq<Frame>, end: nat, before: seq<Frame>)
    requires pos <= |stream| && end <= |stream| && Takes(stream, pos, fs, end)
    ensures ReadFrames(stream, pos, before) == ReadFrames(stream, end, before + fs)
    decreases fs
  {
    if fs == [] {
      assert before + fs == before;
    } else {
      TakenIsRead(stream, ReadFrame(stream, pos).next, fs[1..], end, before + [fs[0]]);
      assert before + [fs[0]] + fs[1..] == before + fs;
    }
  }

  lemma CutInHeader(stream: seq<byte>, pos: nat, size: nat)
    requires pos <= |stream| && |stream| - pos <= |EncodeVarint(size)|
    requires forall i :: pos < i < |stream| ==> stream[i] == EncodeVarint(size)[i - pos - 1]
    ensures ReadFrame(stream, pos) == Closed
  {
    EncodedIsTerminated(size);
    hide EncodeVarint, ReadVarint, Groups;
    if pos < |stream| { RegisterFails(stream, pos + 1, |stream|, 4, TWO32); }
  }

  lemma CutInBody(stream: seq<byte>, pos: nat, kind: byte, size: nat)
    requires kind < 128 && At(stream, pos, [kind] + EncodeVarint(size))
    requires |stream| - pos < 1 + |EncodeVarint(size)| + size
    ensures ReadFrame(stream, pos) == Closed
  {
    HeaderRoundTrip(stream, pos, kind, size);
    hide EncodeVarint, ReadVarint, At;
  }

  /** A frame cut short is not taken at all. */
  lemma TruncatedIsClosed(stream: seq<byte>, pos: nat, f: Frame)
    requires f.kind < 128 && pos <= |stream|
    requires stream[pos..] < EncodeFrame(f)
    ensures ReadFrame(stream, pos) == Closed
  {
    assert EncodeVarint(f.kind) == [f.kind];
    hide EncodeVarint, ReadFrame;
    var header, whole := [f.kind] + EncodeVarint(|f.body|), EncodeFrame(f);
    assert whole == header + f.body;
    forall i | pos <= i < |stream| ensures stream[i] == whole[i - pos] {
      assert stream[i] == stream[pos..][i - pos];
    }
    if |stream| - pos >= |header| {
      assert forall i :: 0 <= i < |header| ==> header[i] == whole[i] == stream[pos + i];
      CutInBody(stream, pos, f.kind, |f.body|);
    } else {
      assert forall i :: pos < i < |stream| ==> stream[i] == header[i - pos] == EncodeVarint(|f.body|)[i - pos - 1];
      CutInHeader(stream, pos, |f.body|);
    }
  }

  /** Whole frames followed by a part of one more: exactly the whole ones arrive. */
  lemma BrokenStream(fs: seq<Frame>, part: seq<byte>, next: Frame)
    requires forall f <- fs :: Deliverable(f)
    requires next.kind < 128 && part < EncodeFrame(next)
    ensures ReadFrames(EncodeFrames(fs) + part, 0, []) == fs
  {
    var sent := EncodeFrames(fs);
    var stream := sent + part;
    assert At(stream, 0, sent);
    FramesRoundTrip(stream, 0, fs);
    TakenIsRead(stream, 0, fs, |sent|, []);
    assert stream[|sent|..] == part && [] + fs == fs;
    TruncatedIsClosed(stream, |sent|, next);
  }
}
