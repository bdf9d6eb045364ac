/** The channels of `TransferLink` as the client makes them: every payload of a stream is one
    message, which shares the writer's queue and the connection with all other traffic; the peer
    tells the streams apart by the id in the message. */
module TransferWire {
  import opened Bytes
  import opened EndToEnd
  import opened FileTransfer
  import opened Framing
  import opened Iotmp
  import opened Pson
  import opened PsonLaws
  import opened Varint
  import D = Download
  import K = KnownBytes
  import L = TransferLink
  import U = Upload
  import W = WriteQueue

  const STREAM_DATA: byte := 0x0a

  const STREAM_ID: byte := 1
  const PAYLOAD: byte := 3

  type StreamId = n: nat | n < 0x1_0000

  /** What `stream_resource` sends; the two fields go out in either order. */
  function StreamData(id: StreamId, payload: Json, idFirst: bool): Message
    requires Representable(payload)
  {
    var order := if idFirst then [STREAM_ID, PAYLOAD] else [PAYLOAD, STREAM_ID];
    assert order[0] in order && order[1] in order;
    Message(STREAM_DATA, map[STREAM_ID := Uint(id), PAYLOAD := payload], order)
  }

  /** `get_stream_id`. */
  function StreamOf(fields: Fields): nat {
    if STREAM_ID in fields && fields[STREAM_ID].Uint? then fields[STREAM_ID].u % 0x1_0000 else 0
  }

  predicate Carries(kind: byte, fields: Fields, id: StreamId) {
    kind == STREAM_DATA && StreamOf(fields) == id
  }

  /** A message as the client builds it: its stream id, if it has one, has sixteen bits, and all
      its fields can be read. */
  predicate Proper(m: Message) {
    FieldsFit(m.fields) && (STREAM_ID in m.fields ==> m.fields[STREAM_ID].Uint? && m.fields[STREAM_ID].u < 0x1_0000)
  }

  /** The payload of a message of the stream. */
  function PayloadFor(id: StreamId, kind: byte, fields: Fields): seq<Json> {
    if Carries(kind, fields, id) then [FieldOf(fields, PAYLOAD)] else []
  }

  /** The payloads sent on a stream. */
  function Sent(id: StreamId, ms: seq<Message>): seq<Json> {
    if ms == [] then [] else PayloadFor(id, ms[0].kind, ms[0].fields) + Sent(id, ms[1..])
  }

  /** The payloads the peer has for a stream. */
  function Arrived(id: StreamId, ds: seq<Delivery>): seq<Json> {
    if ds == [] then [] else PayloadFor(id, ds[0].kind, ds[0].fields) + Arrived(id, ds[1..])
  }

  function Each(payloads: seq<Json>): (r: seq<Json>)
    ensures |r| == |payloads|
  {
    seq(|payloads|, i requires 0 <= i < |payloads| => ReceivedField(payloads[i]))
  }

  // ---- streams share a connection ---------------------------------------------------

  lemma FieldsSurvive(fields: Fields)
    requires STREAM_ID in fields ==> fields[STREAM_ID].Uint? && fields[STREAM_ID].u < 0x1_0000
    ensures StreamOf(EachReceived(fields)) == StreamOf(fields)
    ensures FieldOf(EachReceived(fields), PAYLOAD) == ReceivedField(FieldOf(fields, PAYLOAD))
  {
    hide Received;
    assert ReceivedField(Null) == Null by { assert Received(Null) == Null by { NullStays(); } }
  }

  lemma NullStays()
    ensures Received(Null) == Null
  {
  }

  lemma SameStream(m: Message, id: StreamId)
    requires Sendable(m) && Proper(m)
    ensures var d := Expected(m);
            PayloadFor(id, d.kind, d.fields) == Each(PayloadFor(id, m.kind, m.fields))
  {
    hide Expected, Sendable, StreamOf, FieldOf, ReceivedField, EachReceived, FieldsFit;
    MessageRoundTrip(m);
    FieldsSurvive(m.fields);
  }

  lemma {:induction false} PayloadsArrive(id: StreamId, ms: seq<Message>, ds: seq<Delivery>)
    requires |ds| == |ms| && forall i :: 0 <= i < |ms| ==> Sendable(ms[i]) && Proper(ms[i]) && ds[i] == Expected(ms[i])
    ensures Arrived(id, ds) == Each(Sent(id, ms))
  {
    hide Sendable, Proper, Expected, ReceivedField, PayloadFor;
    if ms != [] {
      var m, rest := ms[0], Sent(id, ms[1..]);
      SameStream(m, id);
      PayloadsArrive(id, ms[1..], ds[1..]);
      var here := PayloadFor(id, m.kind, m.fields);
      assert Each(here + rest) == Each(here) + Each(rest);
    }
  }

  lemma {:induction false} SentConcat(id: StreamId, a: seq<Message>, b: seq<Message>)
    ensures Sent(id, a + b) == Sent(id, a) + Sent(id, b)
  {
    hide PayloadFor;
    if a == [] {
      assert a + b == b;
    } else {
      SentConcat(id, a[1..], b);
      assert (a + b)[1..] == a[1..] + b;
    }
  }

  /** A connection that carries many streams and other messages, over every interleaving: what the
      peer has of each stream is a contiguous stretch of what was sent on it, in order, from the
      first payload on that had not been taken to an earlier connection. */
  lemma StreamsArrive(id: StreamId, live: bool, es: seq<W.Event<Message>>, part: seq<byte>)
    requires var p := W.Run(W.Client, W.Initial(live), es).past;
             && Deliverables(p.accepted) && (forall m <- p.accepted :: Proper(m))
             && part <= EncodeFrames(FramesOf(W.Unsettled(p)))
    ensures var p := W.Run(W.Client, W.Initial(live), es).past;
            var arrived := PeerReads(EncodeFrames(FramesOf(p.wire)) + part);
            p.base <= |p.accepted| &&
            var from, n := |Sent(id, p.accepted[..p.base])|, |Arrived(id, arrived)|;
            && from + n <= |Sent(id, p.accepted)|
            && Arrived(id, arrived) == Each(Sent(id, p.accepted)[from..from + n])
  {
    hide EncodeFrame, FrameOf, PeerReads, Sendable, Proper, Expected;
    var p := W.Run(W.Client, W.Initial(live), es).past;
    SentIsReceived(live, es, part);
    StretchOf(id, p.accepted, p.base, PeerReads(EncodeFrames(FramesOf(p.wire)) + part));
  }

  lemma StretchOf(id: StreamId, accepted: seq<Message>, base: nat, arrived: seq<Delivery>)
    requires Deliverables(accepted) && (forall m <- accepted :: Proper(m)) && Arrives(arrived, accepted, base)
    ensures var from, n := |Sent(id, accepted[..base])|, |Arrived(id, arrived)|;
            && from + n <= |Sent(id, accepted)|
            && Arrived(id, arrived) == Each(Sent(id, accepted)[from..from + n])
  {
    hide Sendable, Proper, Expected, FrameOf, Sent, Arrived;
    var before, here, after := accepted[..base], accepted[base..base + |arrived|], accepted[base + |arrived|..];
    PayloadsArrive(id, here, arrived);
    SentConcat(id, before, here);
    SentConcat(id, before + here, after);
    assert accepted == before + here + after;
    var from, n := |Sent(id, before)|, |Sent(id, here)|;
    assert Sent(id, accepted)[from..from + n] == Sent(id, here);
  }

  /** A message of a stream is for that stream alone; without an id it is for stream 0, and of any
      other kind for none. */
  lemma TellsApart(id: StreamId, other: StreamId, payload: Json, idFirst: bool)
    requires Representable(payload)
    ensures Sent(other, [StreamData(id, payload, idFirst)]) == if other == id then [payload] else []
  {
    var m := StreamData(id, payload, idFirst);
    assert [m][1..] == [] && Sent(other, [m]) == PayloadFor(other, m.kind, m.fields) + Sent(other, []);
  }

  lemma OtherKinds(id: StreamId, kind: byte, fields: Fields)
    ensures kind != 10 ==> PayloadFor(id, kind, fields) == []
    ensures kind == 10 && 1 !in fields ==> PayloadFor(id, kind, fields) == if id == 0 then [FieldOf(fields, 3)] else []
    ensures kind == 10 && 1 in fields && fields[1].Uint? ==>
              PayloadFor(id, kind, fields) == if fields[1].u % 65536 == id then [FieldOf(fields, 3)] else []
  {
  }

  // ---- payloads of a transfer -------------------------------------------------------

  lemma TwoFields(id: StreamId, payload: Json, idFirst: bool)
    requires Representable(payload)
    ensures var stream, data := EncodeField(1, Uint(id)), EncodeField(3, payload);
            FrameOf(StreamData(id, payload, idFirst)) == Frame(10, if idFirst then stream + data else data + stream)
    ensures Sendable(StreamData(id, payload, idFirst))
  {
    hide EncodeField;
    var m := StreamData(id, payload, idFirst);
    assert EncodeFields(m.order[1..], m.fields) ==
           EncodeField(m.order[1], m.fields[m.order[1]]) + EncodeFields([], m.fields);
  }

  lemma SmallId(id: StreamId)
    ensures |EncodeField(STREAM_ID, Uint(id))| <= 4
  {
    assert Pow128(2) == 16384;
    assert Pow128(3) == 128 * Pow128(2);
    EncodedLength(id, 3);
  }

  /** A chunk that leaves ten bytes of room travels in one message, and arrives as it was. */
  lemma ChunkArrives(id: StreamId, c: Content, idFirst: bool)
    requires |c| <= MAX_MESSAGE_SIZE - 10
    ensures Representable(Bin(c))
    ensures var m := StreamData(id, Bin(c), idFirst); Deliverables([m]) && Proper(m)
    ensures ReceivedField(Bin(c)) == Bin(c)
  {
    TwoFields(id, Bin(c), idFirst);
    SmallId(id);
    TagLength(BYTES, |c|);
    hide EncodeTag, FrameOf, EncodeVarint, Pow128;
    assert Encode(Bin(c)) == EncodeTag(BYTES, |c|) + c;
    assert EncodeField(PAYLOAD, Bin(c)) == [FieldTag(PAYLOAD, PSON_V2)] + Encode(Bin(c));
  }

  /** `{"ack": number, "bytes": bytes}`. */
  const ACK: Text := [97, 99, 107]
  const BYTES_FIELD: Text := [98, 121, 116, 101, 115]

  function AckPayload(a: Ack): Json
    requires a.number < TWO32 && a.bytes < TWO64
  {
    Obj([Member(ACK, Uint(a.number)), Member(BYTES_FIELD, Uint(a.bytes))])
  }

  /** `STREAM_DATA` on stream 7, in bytes; the names of the acknowledgement's members. */
  lemma StreamBytes()
    ensures EncodeFrame(FrameOf(StreamData(7, Bin([97]), true))) == [0x0a, 0x05, 0x08, 0x07, 0x1a, 0xa1, 97]
    ensures ACK == K.Ascii("ack") && BYTES_FIELD == K.Ascii("bytes")
  {
    K.WholeMessage();
    assert StreamData(7, Bin([97]), true) == K.OneByteOfStream();
    hide EncodeFrame, FrameOf;
  }

  lemma TwoMembersLength(a: Member, b: Member)
    ensures |Encode(Obj([a, b]))| == 1 + |EncodeMember(a)| + |EncodeMember(b)|
  {
    hide EncodeMember;
    assert [a, b][1..] == [b] && [b][1..] == [];
    assert EncodeMembers([a, b]) == EncodeMember(a) + EncodeMembers([b]);
    assert EncodeMembers([b]) == EncodeMember(b) + EncodeMembers([]);
    assert Encode(Obj([a, b])) == EncodeTag(MAP, 2) + EncodeMembers([a, b]);
  }

  lemma AckLengths(a: Ack)
    requires a.number < TWO32 && a.bytes < TWO64
    ensures |EncodeField(PAYLOAD, AckPayload(a))| <= 44
  {
    hide Encode, EncodeString, CStr;
    TwoMembersLength(AckPayload(a).members[0], AckPayload(a).members[1]);
    NumberLength(a.number);
    NumberLength(a.bytes);
    KeyLength(ACK);
    KeyLength(BYTES_FIELD);
  }

  lemma KeyLength(key: Text)
    requires |key| < 0x1f
    ensures |EncodeString(key)| <= 1 + |key|
  {
  }

  lemma NumberLength(n: u64)
    ensures |Encode(Uint(n))| <= 11
  {
    TagLength(UNSIGNED, n);
    hide EncodeTag;
    assert Encode(Uint(n)) == EncodeTag(UNSIGNED, n) + [];
  }

  /** An acknowledgement travels in one message and arrives as it was. */
  lemma AckArrives(id: StreamId, a: Ack, idFirst: bool)
    requires a.number < TWO32 && a.bytes < TWO64
    ensures Representable(AckPayload(a))
    ensures var m := StreamData(id, AckPayload(a), idFirst); Deliverables([m]) && Proper(m)
    ensures ReceivedField(AckPayload(a)) == AckPayload(a)
  {
    AckIsFine(a);
    TwoFields(id, AckPayload(a), idFirst);
    SmallId(id);
    AckLengths(a);
    hide Encode, FrameOf, EncodeVarint;
  }

  lemma TwoMembers(a: Member, b: Member)
    requires Less(a.key, b.key) && a.value.Uint? && b.value.Uint?
    requires |a.key| <= UINT32_MAX && |b.key| <= UINT32_MAX
    ensures Representable(Obj([a, b])) && Fits(Obj([a, b]))
  {
    hide MemberFits, Less, CStr;
    NumberMember(a);
    NumberMember(b);
    FineCons(b, []);
    FineCons(a, [b]);
    assert [b] + [] == [b] && [a] + [b] == [a, b];
  }

  lemma NumberMember(m: Member)
    requires |m.key| <= UINT32_MAX && m.value.Uint?
    ensures MemberFits(m) && Representable(m.value)
  {
  }

  lemma KeysInOrder()
    ensures Less(ACK, BYTES_FIELD)
  {
  }

  lemma AckCanBeSent(a: Ack)
    requires a.number < TWO32 && a.bytes < TWO64
    ensures Representable(AckPayload(a)) && Fits(AckPayload(a))
  {
    hide Representable, Fits, Less;
    KeysInOrder();
    TwoMembers(AckPayload(a).members[0], AckPayload(a).members[1]);
  }

  lemma AckIsFine(a: Ack)
    requires a.number < TWO32 && a.bytes < TWO64
    ensures Representable(AckPayload(a)) && Fits(AckPayload(a))
    ensures Received(AckPayload(a)) == AckPayload(a)
  {
    hide Representable, Fits, Received, Canonical, NulFree;
    AckCanBeSent(a);
    AckIsCanonical(a);
    ArrivesUnchanged(AckPayload(a));
  }

  lemma AckIsCanonical(a: Ack)
    requires a.number < TWO32 && a.bytes < TWO64
    ensures Canonical(AckPayload(a)) == AckPayload(a) && NulFree(AckPayload(a))
  {
    assert Canonical(Uint(a.number)) == Uint(a.number) && Canonical(Uint(a.bytes)) == Uint(a.bytes);
    assert Canonical(AckPayload(a)).members == AckPayload(a).members;
    assert forall m <- AckPayload(a).members :: 0 !in m.key && NulFree(m.value);
  }

  // ---- a transfer over two connections ----------------------------------------------

  /** What the upload session is called with for a payload that arrives; writes succeed. */
  function UploadInput(payload: Json): U.Event {
    match payload
    case Bin(data) => U.Chunk(data, true)
    case _ => U.OtherInput
  }

  function UploadInputs(payloads: seq<Json>): seq<U.Event> {
    seq(|payloads|, i requires 0 <= i < |payloads| => UploadInput(payloads[i]))
  }

  /** What the download session makes of one: the number under `bytes`, or 0 if there is none. */
  function DownloadInput(payload: Json): D.Event {
    match payload
    case Obj(members) => D.Receive(true, match Lookup(members, BYTES_FIELD) case Uint(n) => n case _ => 0)
    case _ => D.Receive(false, 0)
  }

  function DownloadInputs(payloads: seq<Json>): seq<D.Event> {
    seq(|payloads|, i requires 0 <= i < |payloads| => DownloadInput(payloads[i]))
  }

  function ChunkPayloads(chunks: seq<Content>): seq<Json> {
    seq(|chunks|, i requires 0 <= i < |chunks| => Bin(chunks[i]))
  }

  predicate Numbers(acks: seq<Ack>) {
    forall i :: 0 <= i < |acks| ==> acks[i].number < TWO32 && acks[i].bytes < TWO64
  }

  function AckPayloads(acks: seq<Ack>): seq<Json>
    requires Numbers(acks)
  {
    seq(|acks|, i requires 0 <= i < |acks| => AckPayload(acks[i]))
  }

  /** What the two sessions are called with: for a block, a chunk; for an object, an acknowledgement
      of its number of bytes, or of none if it has no such member. */
  lemma InputsRead(payload: Json)
    ensures payload.Bin? ==> UploadInput(payload) == U.Chunk(payload.bytes, true)
    ensures !payload.Bin? ==> UploadInput(payload) == U.OtherInput
    ensures payload.Obj? && (forall m <- payload.members :: m.key != BYTES_FIELD) ==>
              DownloadInput(payload) == D.Receive(true, 0)
    ensures !payload.Obj? ==> DownloadInput(payload) == D.Receive(false, 0)
  {
    if payload.Obj? { LookupFinds(payload.members, BYTES_FIELD); }
  }

  /** The chunks of a transfer sent one after the other are what is sent on its stream. */
  lemma {:induction false} ChunksSent(id: StreamId, chunks: seq<Content>, idFirst: bool, ms: seq<Message>)
    requires |ms| == |chunks|
    requires forall i :: 0 <= i < |ms| ==>
               Representable(Bin(chunks[i])) && ms[i] == StreamData(id, Bin(chunks[i]), idFirst)
    ensures Sent(id, ms) == ChunkPayloads(chunks)
  {
    if ms != [] {
      ChunksSent(id, chunks[1..], idFirst, ms[1..]);
      TellsApart(id, id, Bin(chunks[0]), idFirst);
      assert ChunkPayloads(chunks) == [Bin(chunks[0])] + ChunkPayloads(chunks[1..]);
    }
  }

  /** What the link's receiver is: the session fed with the chunks it has taken. */
  predicate Fed(l: L.Link, first: U.State, chunk: nat) {
    && l.taken <= |l.d.out| && l.u == U.Run(first, U.Chunks(l.d.out[..l.taken]))
    && l.d.chunk == chunk && forall i :: 0 <= i < |l.d.out| ==> |l.d.out[i]| <= chunk
  }

  lemma {:induction false} RunSnoc(s: U.State, chunks: seq<Content>, c: Content)
    ensures U.Run(s, U.Chunks(chunks + [c])) == U.Step(U.Run(s, U.Chunks(chunks)), U.Chunk(c, true))
    decreases |chunks|
  {
    hide U.Step, U.Run, U.Chunks;
    U.RunHead(s, chunks + [c]);
    if chunks == [] {
      assert [c][1..] == [] && [] + [c] == [c];
      NoChunks(s);
      NoChunks(U.Step(s, U.Chunk(c, true)));
    } else {
      U.RunHead(s, chunks);
      assert (chunks + [c])[1..] == chunks[1..] + [c];
      RunSnoc(U.Step(s, U.Chunk(chunks[0], true)), chunks[1..], c);
    }
  }

  lemma NoChunks(s: U.State)
    ensures U.Run(s, U.Chunks([])) == s
  {
  }

  lemma FedStep(l: L.Link, e: L.Event, first: U.State, chunk: nat)
    requires L.Inv(l) && Fed(l, first, chunk)
    ensures Fed(L.Step(l, e), first, chunk)
  {
    if L.Enabled(l, e) {
      match e
      case Send(limited) => FedSend(l, limited, first, chunk);
      case DeliverData => FedData(l, first, chunk);
      case DeliverAck => FedAck(l, first, chunk);
    }
  }

  lemma FedSend(l: L.Link, limited: bool, first: U.State, chunk: nat)
    requires L.Inv(l) && Fed(l, first, chunk) && L.Enabled(l, L.Send(limited))
    ensures Fed(L.Step(l, L.Send(limited)), first, chunk)
  {
    hide U.Run, U.Chunks, U.Inv, L.Agree, L.Pieces;
    var send := L.SendEvent(l, limited);
    D.StepSends(l.d, send);
    D.StepSendsWhole(l.d, send);
    D.StepFixed(l.d, send);
    hide D.Step;
    var r := D.Step(l.d, send);
    assert r.out[..l.taken] == l.d.out[..l.taken];
  }

  lemma FedData(l: L.Link, first: U.State, chunk: nat)
    requires Fed(l, first, chunk) && L.Enabled(l, L.DeliverData)
    ensures Fed(L.Step(l, L.DeliverData), first, chunk)
  {
    hide U.Run, U.Chunks, U.Step;
    RunSnoc(first, l.d.out[..l.taken], l.d.out[l.taken]);
    assert l.d.out[..l.taken] + [l.d.out[l.taken]] == l.d.out[..l.taken + 1];
  }

  lemma FedAck(l: L.Link, first: U.State, chunk: nat)
    requires L.Inv(l) && Fed(l, first, chunk) && L.Enabled(l, L.DeliverAck)
    ensures Fed(L.Step(l, L.DeliverAck), first, chunk)
  {
    hide U.Run, U.Chunks, U.Inv, L.Agree, L.Pieces, D.Step;
    var e := D.Receive(true, l.u.acks[l.heard].bytes);
    L.AckIsCovered(l);
    D.StepFixed(l.d, e);
    D.StepConfirms(l.d, l.u.acks[l.heard].bytes);
  }

  lemma OpenedFed(file: Content, chunk: nat, window: nat, receiverChunk: nat)
    requires chunk > 0
    ensures var first := L.Opened(file, chunk, window, receiverChunk); L.Inv(first) && Fed(first, first.u, chunk)
  {
    L.OpenedInv(file, chunk, window, receiverChunk);
  }

  lemma {:induction false} FedRun(l: L.Link, es: seq<L.Event>, first: U.State, chunk: nat)
    requires L.Inv(l) && Fed(l, first, chunk)
    ensures Fed(L.Run(l, es), first, chunk)
    decreases |es|
  {
    hide L.Inv, L.Step, Fed;
    if es != [] {
      FedStep(l, es[0], first, chunk);
      L.StepKeeps(l, es[0]);
      FedRun(L.Step(l, es[0]), es[1..], first, chunk);
    }
  }

  /** Everything a transfer sends can be sent: its chunks leave room in a message, the numbers in
      its acknowledgements have the width they are given. */
  lemma TransferFits(file: Content, chunk: nat, window: nat, receiverChunk: nat, es: seq<L.Event>)
    requires 0 < chunk <= MAX_MESSAGE_SIZE - 10 && |file| < TWO64
    ensures var l := L.Run(L.Opened(file, chunk, window, receiverChunk), es);
            && (forall i :: 0 <= i < |l.d.out| ==> |l.d.out[i]| <= MAX_MESSAGE_SIZE - 10)
            && Numbers(l.u.acks)
  {
    var first := L.Opened(file, chunk, window, receiverChunk);
    OpenedFed(file, chunk, window, receiverChunk);
    FedRun(first, es, first.u, chunk);
    L.RunKeeps(first, es);
    var l := L.Run(first, es);
    L.Conserved(l);
    assert U.Accounted(l.u) && Numbered(l.u.acks) && |l.u.file.content| <= |file|;
    forall i | 0 <= i < |l.u.acks| ensures l.u.acks[i].bytes <= AckedBytes(l.u.acks) { OneOfAcks(l.u.acks, i); }
  }

  lemma {:induction false} OneOfAcks(acks: seq<Ack>, i: nat)
    requires i < |acks|
    ensures acks[i].bytes <= AckedBytes(acks)
  {
    if i > 0 { OneOfAcks(acks[1..], i - 1); }
  }

  /** The data channel made of messages: over every run of a transfer and of the sender's writer,
      with whatever else it sends on the same connection, the receiver that is fed from the peer's
      read loop is called with the first of the chunks sent, in order; it is the receiver of the
      link that has taken as many. */
  lemma ChunksOverWire(
    file: Content, chunk: nat, window: nat, receiverChunk: nat, es: seq<L.Event>,
    id: StreamId, live: bool, ws: seq<W.Event<Message>>, part: seq<byte>)
    requires 0 < chunk <= MAX_MESSAGE_SIZE - 10
    requires var p := W.Run(W.Client, W.Initial(live), ws).past;
             && Deliverables(p.accepted) && (forall m <- p.accepted :: Proper(m))
             && part <= EncodeFrames(FramesOf(W.Unsettled(p)))
             && p.base <= |p.accepted| && Sent(id, p.accepted[..p.base]) == []
             && Sent(id, p.accepted) == ChunkPayloads(L.Run(L.Opened(file, chunk, window, receiverChunk), es).d.out)
    ensures var l := L.Run(L.Opened(file, chunk, window, receiverChunk), es);
            var p := W.Run(W.Client, W.Initial(live), ws).past;
            var inputs := UploadInputs(Arrived(id, PeerReads(EncodeFrames(FramesOf(p.wire)) + part)));
            && |inputs| <= |l.d.out| && inputs == U.Chunks(l.d.out[..|inputs|])
            && (l.taken == |inputs| ==> U.Run(U.Started(|file|, receiverChunk), inputs) == l.u)
  {
    hide EncodeFrame, EncodeFrames, FramesOf, PeerReads, Sent, Arrived, Deliverables, Proper, UploadInputs;
    hide ChunkPayloads, Each, L.Run, L.Step, L.Inv, W.Run, W.Unsettled, U.Run, U.Chunks;
    var first := L.Opened(file, chunk, window, receiverChunk);
    var l := L.Run(first, es);
    OpenedFed(file, chunk, window, receiverChunk);
    FedRun(first, es, first.u, chunk);
    StreamsArrive(id, live, ws, part);
    var p := W.Run(W.Client, W.Initial(live), ws).past;
    ChunksCalled(Arrived(id, PeerReads(EncodeFrames(FramesOf(p.wire)) + part)), l.d.out);
  }

  lemma ChunksCalled(arrived: seq<Json>, out: seq<Content>)
    requires |arrived| <= |ChunkPayloads(out)| && arrived == Each(ChunkPayloads(out)[0..|arrived|])
    ensures |arrived| == |UploadInputs(arrived)| <= |out| && UploadInputs(arrived) == U.Chunks(out[..|arrived|])
  {
    assert forall i :: 0 <= i < |arrived| ==> arrived[i] == ReceivedField(Bin(out[i])) == Bin(out[i]);
  }

  /** And the channel of the acknowledgements: the sender is called with the first of them, in
      order, each for the bytes it says. */
  lemma AcksOverWire(
    file: Content, chunk: nat, window: nat, receiverChunk: nat, es: seq<L.Event>,
    id: StreamId, live: bool, ws: seq<W.Event<Message>>, part: seq<byte>)
    requires 0 < chunk <= MAX_MESSAGE_SIZE - 10 && |file| < TWO64
    requires var p := W.Run(W.Client, W.Initial(live), ws).past;
             && Deliverables(p.accepted) && (forall m <- p.accepted :: Proper(m))
             && part <= EncodeFrames(FramesOf(W.Unsettled(p)))
             && p.base <= |p.accepted| && Sent(id, p.accepted[..p.base]) == []
    requires var acks := L.Run(L.Opened(file, chunk, window, receiverChunk), es).u.acks;
             Numbers(acks) && Sent(id, W.Run(W.Client, W.Initial(live), ws).past.accepted) == AckPayloads(acks)
    ensures var acks := L.Run(L.Opened(file, chunk, window, receiverChunk), es).u.acks;
            var p := W.Run(W.Client, W.Initial(live), ws).past;
            var inputs := DownloadInputs(Arrived(id, PeerReads(EncodeFrames(FramesOf(p.wire)) + part)));
            && |inputs| <= |acks|
            && forall i :: 0 <= i < |inputs| ==> inputs[i] == D.Receive(true, acks[i].bytes)
  {
    hide EncodeFrame, EncodeFrames, FramesOf, PeerReads, Sent, Arrived, Deliverables, Proper, DownloadInputs;
    hide AckPayloads, Each, Numbers, L.Opened, L.Run, W.Run, W.Unsettled;
    StreamsArrive(id, live, ws, part);
    var p := W.Run(W.Client, W.Initial(live), ws).past;
    AcksCalled(Arrived(id, PeerReads(EncodeFrames(FramesOf(p.wire)) + part)),
               L.Run(L.Opened(file, chunk, window, receiverChunk), es).u.acks);
  }

  lemma AcksCalled(arrived: seq<Json>, acks: seq<Ack>)
    requires Numbers(acks)
    requires |arrived| <= |AckPayloads(acks)| && arrived == Each(AckPayloads(acks)[0..|arrived|])
    ensures |arrived| == |DownloadInputs(arrived)| <= |acks|
    ensures forall i :: 0 <= i < |arrived| ==> DownloadInputs(arrived)[i] == D.Receive(true, acks[i].bytes)
  {
    forall i | 0 <= i < |arrived| ensures DownloadInput(arrived[i]) == D.Receive(true, acks[i].bytes) {
      assert arrived[i] == ReceivedField(AckPayload(acks[i]));
      AckReads(acks[i]);
    }
  }

  lemma AckReads(a: Ack)
    requires a.number < TWO32 && a.bytes < TWO64
    ensures DownloadInput(ReceivedField(AckPayload(a))) == D.Receive(true, a.bytes)
  {
    AckIsFine(a);
    var ms := AckPayload(a).members;
    assert ms[1..] == [ms[1]] && ms[0].key[0] != ms[1].key[0];
    assert Lookup(ms, BYTES_FIELD) == Lookup([ms[1]], BYTES_FIELD);
  }
}
