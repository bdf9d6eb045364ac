/** The client's writer, its socket, the framing and the peer's read loop, put together. */
module EndToEnd {
  import opened Bytes
  import opened Varint
  import opened Framing
  import opened Iotmp
  import IotmpCodec
  import W = WriteQueue
  import S = SharedSocket

  predicate Deliverables(ms: seq<Message>) {
    forall m <- ms :: Sendable(m) && |FrameOf(m).body| <= MAX_MESSAGE_SIZE
  }

  /** `arrived` is what should come of the messages from `base` on. */
  predicate Arrives(arrived: seq<Delivery>, accepted: seq<Message>, base: nat) {
    && base + |arrived| <= |accepted|
    && forall i :: 0 <= i < |arrived| ==> arrived[i] == Expected(accepted[base + i])
  }

  function PeerReads(stream: seq<byte>): seq<Delivery> {
    IotmpCodec.DeliveredAll(ReadFrames(stream, 0, []))
  }

  lemma StretchArrives(accepted: seq<Message>, base: nat, wire: seq<Message>, next: Message, part: seq<byte>)
    requires base + |wire| <= |accepted| && wire == accepted[base..base + |wire|]
    requires Deliverables(accepted)
    requires Sendable(next) && part < EncodeFrame(FrameOf(next))
    ensures |PeerReads(EncodeFrames(FramesOf(wire)) + part)| == |wire|
    ensures Arrives(PeerReads(EncodeFrames(FramesOf(wire)) + part), accepted, base)
  {
    assert Deliverables(wire);
    StreamRoundTrip(wire, part, next);
    forall i | 0 <= i < |wire| ensures Expected(wire[i]) == Expected(accepted[base + i]) {
      assert wire[i] == accepted[base + i];
    }
  }

  /** A connection that carries the queue alone, however sends, completed and failed writes, lost
      and new connections interleave, and however much it has carried (`part`) of the message that
      is under way or whose write failed: what the peer reads is a contiguous stretch of the
      messages sent, in order, each with the fields it was sent with; namely those whose writes
      came back, and that other one exactly if all of it was carried. */
  lemma SentIsReceived(live: bool, es: seq<W.Event<Message>>, part: seq<byte>)
    requires Deliverables(W.Run(W.Client, W.Initial(live), es).past.accepted)
    requires part <= EncodeFrames(FramesOf(W.Unsettled(W.Run(W.Client, W.Initial(live), es).past)))
    ensures var p := W.Run(W.Client, W.Initial(live), es).past;
            var arrived := PeerReads(EncodeFrames(FramesOf(p.wire)) + part);
            && Arrives(arrived, p.accepted, p.base)
            && |arrived| == |p.wire| +
               if part != [] && part == EncodeFrames(FramesOf(W.Unsettled(p))) then 1 else 0
  {
    hide EncodeFrame, EncodeFrames, FramesOf, FrameOf, PeerReads, Arrives, Sendable, W.Run;
    var p := W.Run(W.Client, W.Initial(live), es).past;
    W.OneWriterInOrder(W.Client, live, es);
    var unsettled := W.Unsettled(p);
    NoFrames();
    if unsettled == [] {
      WholeStretch(p.accepted, p.base, p.wire);
    } else {
      var m := unsettled[0];
      assert unsettled == [m] && m == p.accepted[p.base + |p.wire|];
      OneFrame(m);
      FrameIsNotEmpty(m);
      StretchAndPart(p.accepted, p.base, p.wire, m, part);
    }
  }

  lemma NoFrames()
    ensures EncodeFrames(FramesOf([])) == []
  {
  }

  lemma WholeStretch(accepted: seq<Message>, base: nat, wire: seq<Message>)
    requires base + |wire| <= |accepted| && wire == accepted[base..base + |wire|]
    requires Deliverables(accepted)
    ensures var arrived := PeerReads(EncodeFrames(FramesOf(wire)) + []);
            |arrived| == |wire| && Arrives(arrived, accepted, base)
  {
    hide EncodeFrame, FrameOf, PeerReads, Arrives, Sendable;
    NoFields();
    FrameIsNotEmpty(Message(0, map[], []));
    StretchArrives(accepted, base, wire, Message(0, map[], []), []);
  }

  lemma StretchAndPart(accepted: seq<Message>, base: nat, wire: seq<Message>, m: Message, part: seq<byte>)
    requires base + |wire| < |accepted| && wire == accepted[base..base + |wire|] && m == accepted[base + |wire|]
    requires Deliverables(accepted) && part <= EncodeFrame(FrameOf(m))
    ensures var arrived := PeerReads(EncodeFrames(FramesOf(wire)) + part);
            && Arrives(arrived, accepted, base)
            && |arrived| == |wire| + if part == EncodeFrame(FrameOf(m)) then 1 else 0
  {
    hide EncodeFrame, FrameOf, PeerReads, Arrives, Sendable;
    if part == EncodeFrame(FrameOf(m)) {
      assert wire + [m] == accepted[base..base + |wire| + 1];
      WholeStretch(accepted, base, wire + [m]);
      FramesSnoc(wire, m);
      assert EncodeFrames(FramesOf(wire + [m])) + [] == EncodeFrames(FramesOf(wire)) + part;
    } else {
      StretchArrives(accepted, base, wire, m, part);
    }
  }

  lemma OneFrame(m: Message)
    ensures EncodeFrames(FramesOf([m])) == EncodeFrame(FrameOf(m))
  {
    hide EncodeFrame, FrameOf;
    assert FramesOf([m]) == [FrameOf(m)];
  }

  lemma {:induction false} FramesSnoc(ms: seq<Message>, m: Message)
    ensures EncodeFrames(FramesOf(ms + [m])) == EncodeFrames(FramesOf(ms)) + EncodeFrame(FrameOf(m))
  {
    hide EncodeFrame, FrameOf;
    if ms == [] {
      assert [] + [m] == [m];
      OneFrame(m);
    } else {
      FramesSnoc(ms[1..], m);
      assert FramesOf(ms + [m])[1..] == FramesOf(ms[1..] + [m]) && FramesOf(ms)[1..] == FramesOf(ms[1..]);
      assert FramesOf(ms + [m])[0] == FramesOf(ms)[0];
    }
  }

  /** Each write of the socket is the frame of a message the peer can take. */
  predicate Frames(writes: seq<S.Write<byte>>, ms: seq<Message>) {
    |writes| == |ms| && Deliverables(ms) &&
    forall k :: 0 <= k < |ms| ==> writes[k].data == EncodeFrame(FrameOf(ms[k]))
  }

  lemma {:induction false} JoinedFrames(writes: seq<S.Write<byte>>, ms: seq<Message>)
    requires Frames(writes, ms)
    ensures S.Joined(writes) == EncodeFrames(FramesOf(ms))
  {
    hide EncodeFrame, FrameOf, Sendable;
    if ms == [] {
      assert FramesOf(ms) == [];
    } else {
      assert Frames(writes[1..], ms[1..]);
      JoinedFrames(writes[1..], ms[1..]);
      assert FramesOf(ms)[1..] == FramesOf(ms[1..]) && FramesOf(ms)[0] == FrameOf(ms[0]);
    }
  }

  /** What the peer makes of a socket that nothing has torn: the messages of exactly the writes that
      are through, the direct ones and those of the queue alike, in the order the writes were begun.
      On an open socket these are all the writes that have come back. */
  lemma UntornIsReceived(s: S.State<byte>, ms: seq<Message>) returns (n: nat)
    requires S.Inv(s) && !s.torn && Frames(s.writes, ms)
    ensures S.ThroughUpTo(s.writes, n) && |PeerReads(s.stream)| == n && Arrives(PeerReads(s.stream), ms, 0)
    ensures s.open ==> forall k :: n <= k < |s.writes| ==> s.writes[k].underWay
  {
    hide S.Inv, S.Joined, PeerReads, Arrives, EncodeFrame, FrameOf, Sendable;
    var part;
    n, part := S.UntornSplit(s);
    var next := if n < |ms| then ms[n] else Message(0, map[], []);
    NoFields();
    FrameIsNotEmpty(next);
    forall k | 0 <= k < |ms| ensures s.writes[k].data != [] { FrameIsNotEmpty(ms[k]); }
    assert Frames(s.writes[..n], ms[..n]);
    JoinedFrames(s.writes[..n], ms[..n]);
    FirstMessages(ms, n, next, part);
  }

  lemma FrameIsNotEmpty(m: Message)
    ensures [] < EncodeFrame(FrameOf(m))
  {
    hide FrameOf;
  }

  lemma NoFields()
    ensures Sendable(Message(0, map[], []))
  {
  }

  lemma FirstMessages(ms: seq<Message>, n: nat, next: Message, part: seq<byte>)
    requires n <= |ms| && Deliverables(ms) && Sendable(next) && part < EncodeFrame(FrameOf(next))
    ensures var arrived := PeerReads(EncodeFrames(FramesOf(ms[..n])) + part);
            |arrived| == n && Arrives(arrived, ms, 0)
  {
    hide EncodeFrame, FrameOf, PeerReads, Sendable;
    StretchArrives(ms, 0, ms[..n], next, part);
  }

  /** The client's state when it has a new socket, whatever happened on earlier ones. */
  function Connected(before: seq<S.Event<byte>>): S.State<byte> {
    S.Step(S.Run(S.Initial<byte>(), before), S.Queue(W.NewSocket))
  }

  /** Over every run of a connection in which no two writes are ever under way at once: the peer
      reads exactly the writes that are through, in the order they were begun, and those from the
      queue among the writes are a contiguous stretch of what was sent through it. */
  lemma SocketIsReceived(before: seq<S.Event<byte>>, es: seq<S.Event<byte>>, ms: seq<Message>) returns (n: nat)
    requires S.Enabled(S.Run(S.Initial<byte>(), before), S.Queue(W.NewSocket))
    requires S.NeverContended(Connected(before), es)
    requires Frames(S.Run(Connected(before), es).writes, ms)
    ensures var s := S.Run(Connected(before), es); var p := s.queue.past;
            && S.ThroughUpTo(s.writes, n)
            && |PeerReads(s.stream)| == n && Arrives(PeerReads(s.stream), ms, 0)
            && (s.open ==> forall k :: n <= k < |s.writes| ==> s.writes[k].underWay)
            && p.accepted == p.handed + s.queue.queue && p.base <= |p.handed|
            && S.Queued(s.writes) == p.handed[p.base..]
  {
    S.InitialInv<byte>();
    S.RunKeeps(S.Initial<byte>(), before);
    S.StepKeeps(S.Run(S.Initial<byte>(), before), S.Queue(W.NewSocket));
    S.NeverTorn(Connected(before), es);
    var s := S.Run(Connected(before), es);
    assert S.Queued(s.writes) == s.queue.past.handed[s.queue.past.base..] && W.Inv(s.queue);
    n := UntornIsReceived(s, ms);
  }

  /** Two frames whose bytes go in turns: both are carried whole, neither arrives. */
  lemma TurnsAreLost(first: byte, second: byte) returns (es: seq<S.Event<byte>>)
    requires first < 128 && 3 <= second < 128
    ensures var s := S.Run(S.Initial<byte>(), es);
            && |s.writes| == 2 && s.torn
            && s.writes[0].data == EncodeFrame(Frame(first, [])) && s.writes[0].sent == |s.writes[0].data|
            && s.writes[1].data == EncodeFrame(Frame(second, [])) && s.writes[1].sent == |s.writes[1].data|
            && PeerReads(s.stream) == []
  {
    es := S.BytesInTurns(first, 0, second, 0);
    EmptyFrame(first);
    EmptyFrame(second);
    SecondAsSize(first, second);
  }

  lemma EmptyFrame(kind: byte)
    requires kind < 128
    ensures EncodeFrame(Frame(kind, [])) == [kind, 0]
  {
    assert EncodeVarint(kind) == [kind] && EncodeVarint(0) == [0];
  }

  lemma SecondAsSize(first: byte, second: byte)
    requires 3 <= second < 128
    ensures PeerReads([first, second, 0, 0]) == []
  {
    var stream: seq<byte> := [first, second, 0, 0];
    assert EncodeVarint(second) == [second];
    assert At(stream, 1, [second]);
    ReadEncodedSocket(stream, 1, second);
    hide EncodeVarint, ReadVarint;
    assert ReadFrame(stream, 0) == Closed;
  }
}
