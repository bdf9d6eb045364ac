/** The upload session: a receiver that writes what arrives and confirms it whenever a
    threshold of bytes has gone unconfirmed, and at the end.

    `State` is what the handlers read or write, plus the acknowledgements they have sent and,
    with the receive timer, what had been received when it was set.
    Bandwidth is unlimited, so that an acknowledgement is never delayed. */
module Upload {
  import opened Bytes
  import opened FileTransfer

  /** The file being written: what it holds, whether the stream is open, whether it is still there. */
  datatype Output = Output(content: Content, open: bool, present: bool)

  datatype State = State(
    expected: nat,
    threshold: nat,
    file: Output,
    state: SessionState,
    received: nat,
    sinceAck: nat,
    ackNumber: nat,
    receiveTimer: Option<nat>,
    stopping: bool,
    acks: seq<Ack>)

  /** `writes` says whether the file system takes the bytes. */
  datatype Event =
    | Chunk(data: Content, writes: bool)
    | OtherInput
    | ReceiveTimer
    | StopBy(reason: StopReason)

  /** The session as a successful start leaves it, with an empty file. */
  function Started(expected: nat, chunk: nat): State {
    State(expected, AckThreshold(expected, chunk), Output([], true, true), IN_PROGRESS,
          0, 0, 0, Some(0), false, [])
  }

  function StateAfterStop(s: State, reason: StopReason): SessionState {
    match reason
    case SERVER_STOP => if s.state == COMPLETED then COMPLETED else CANCELLED
    case CLIENT_STOP => if s.state == FAILED || s.state == TIMED_OUT then s.state else CANCELLED
    case DISCONNECTED => CANCELLED
  }

  /** Every stop but the server's of a completed upload removes the file. */
  function Stop(s: State, reason: StopReason): State {
    if s.stopping then s
    else
      var kept := reason == SERVER_STOP && s.state == COMPLETED;
      s.(stopping := true, receiveTimer := None, state := StateAfterStop(s, reason),
         file := s.file.(open := false, present := s.file.present && kept))
  }

  function HandleUploadChunk(s: State, data: Content, writes: bool): State {
    if s.state != IN_PROGRESS || !s.file.open then s
    else if !writes then Stop(s.(state := FAILED), CLIENT_STOP)
    else Settle(Take(s, data))
  }

  function Take(s: State, data: Content): State {
    s.(file := s.file.(content := s.file.content + data), received := s.received + |data|,
       sinceAck := s.sinceAck + |data|,
       receiveTimer := Some(s.received + |data|))
  }

  predicate IsLast(s: State) {
    s.expected > 0 && s.received >= s.expected
  }

  /** Confirms what is due, and completes after the last chunk. */
  function Settle(s: State): State {
    var r := if s.sinceAck >= s.threshold || IsLast(s) then SendAck(s) else s;
    if IsLast(s) then r.(state := COMPLETED) else r
  }

  function SendAck(s: State): State {
    var number := (s.ackNumber + 1) % TWO32;
    s.(ackNumber := number, acks := s.acks + [Ack(number, s.sinceAck)], sinceAck := 0)
  }

  function Step(s: State, e: Event): State {
    if s.stopping then s
    else
      match e
      case Chunk(data, writes) => if data == [] then s else HandleUploadChunk(s, data, writes)
      case OtherInput => s
      case ReceiveTimer =>
        if s.receiveTimer.Some? then Stop(s.(state := TIMED_OUT, receiveTimer := None), CLIENT_STOP) else s
      case StopBy(reason) => Stop(s, reason)
  }

  function Run(s: State, es: seq<Event>): State
    decreases |es|
  {
    if es == [] then s else Run(Step(s, es[0]), es[1..])
  }

  // ---- invariant --------------------------------------------------------------------

  predicate Accounted(s: State) {
    && |s.file.content| == s.received == AckedBytes(s.acks) + s.sinceAck
    && s.ackNumber == |s.acks| % TWO32 && Numbered(s.acks)
  }

  predicate Inv(s: State) {
    && Accounted(s)
    && (!s.stopping ==> s.file.open && s.file.present && s.receiveTimer == Some(s.received))
    && (!s.stopping ==> s.state == IN_PROGRESS || s.state == COMPLETED)
    && (s.stopping ==> !s.file.open && s.state != IN_PROGRESS && (s.file.present <==> s.state == COMPLETED))
    && (s.state == IN_PROGRESS ==> !IsLast(s) && (s.sinceAck == 0 || s.sinceAck < s.threshold))
    && (s.state == COMPLETED ==> IsLast(s) && s.sinceAck == 0)
  }

  lemma SendAckKeeps(s: State)
    requires Accounted(s) && s.sinceAck > 0
    ensures Accounted(SendAck(s))
  {
    AckedBytesSnoc(s.acks, Ack((s.ackNumber + 1) % TWO32, s.sinceAck));
    NumberedSnoc(s.acks, s.sinceAck);
    hide AckedBytes, Numbered;
  }

  lemma ChunkKeeps(s: State, data: Content, writes: bool)
    requires Inv(s) && !s.stopping && data != []
    ensures Inv(HandleUploadChunk(s, data, writes))
  {
    if s.state == IN_PROGRESS && writes {
      var t := Take(s, data);
      assert Accounted(t);
      SendAckKeeps(t);
    }
  }

  lemma StepKeeps(s: State, e: Event)
    requires Inv(s)
    ensures Inv(Step(s, e))
  {
    if !s.stopping && e.Chunk? && e.data != [] { ChunkKeeps(s, e.data, e.writes); }
  }

  lemma {:induction false} RunKeeps(s: State, es: seq<Event>)
    requires Inv(s)
    ensures Inv(Run(s, es))
    decreases |es|
  {
    if es != [] {
      StepKeeps(s, es[0]);
      RunKeeps(Step(s, es[0]), es[1..]);
    }
  }

  lemma StepFixed(s: State, e: Event)
    ensures Step(s, e).expected == s.expected && Step(s, e).threshold == s.threshold
  {
  }

  lemma {:induction false} RunFixed(s: State, es: seq<Event>)
    ensures Run(s, es).expected == s.expected && Run(s, es).threshold == s.threshold
    decreases |es|
  {
    if es != [] {
      StepFixed(s, es[0]);
      RunFixed(Step(s, es[0]), es[1..]);
    }
  }

  // ---- what holds over every run ----------------------------------------------------

  /** Every byte written is either confirmed or still below the threshold, the acknowledgements are
      numbered one after the other, and the receive timer runs since the last data. */
  lemma Accounting(expected: nat, chunk: nat, es: seq<Event>)
    ensures var s := Run(Started(expected, chunk), es);
            && AckedBytes(s.acks) + s.sinceAck == s.received == |s.file.content|
            && (forall k :: 0 <= k < |s.acks| ==> s.acks[k].number == (k + 1) % TWO32)
            && (s.state == IN_PROGRESS && chunk > 0 ==> s.sinceAck < s.threshold)
            && (s.state == COMPLETED ==> AckedBytes(s.acks) == s.received >= expected > 0)
            && (!s.stopping ==> s.receiveTimer == Some(s.received))
            && (!s.stopping && s.state != COMPLETED ==> expected == 0 || s.received < expected)
  {
    RunKeeps(Started(expected, chunk), es);
    RunFixed(Started(expected, chunk), es);
  }

  /** The step that ends a session leaves the file behind if and only if it is the server's
      stop of an upload that has everything it expected. */
  lemma FileKept(expected: nat, chunk: nat, es: seq<Event>, e: Event)
    requires !Run(Started(expected, chunk), es).stopping
    requires Step(Run(Started(expected, chunk), es), e).stopping
    ensures var s := Run(Started(expected, chunk), es);
            Step(s, e).file.present <==> e == StopBy(SERVER_STOP) && s.received >= expected > 0
  {
    RunKeeps(Started(expected, chunk), es);
    RunFixed(Started(expected, chunk), es);
  }

  /** What ends a session, and as what: the timer as timed out, a write the file system refuses
      as failed, the server's stop as completed if everything had arrived, any other as cancelled. */
  lemma HowItEnds(expected: nat, chunk: nat, es: seq<Event>, e: Event)
    requires !Run(Started(expected, chunk), es).stopping
    ensures var s := Run(Started(expected, chunk), es);
            var refused := e.Chunk? && e.data != [] && !e.writes && (expected == 0 || s.received < expected);
            var r := Step(s, e);
            && (r.stopping <==> e.StopBy? || e.ReceiveTimer? || refused)
            && (e.ReceiveTimer? ==> r.state == TIMED_OUT)
            && (refused ==> r.state == FAILED)
            && (e.StopBy? ==> r.state == if e.reason == SERVER_STOP && s.received >= expected > 0
                                         then COMPLETED else CANCELLED)
            && (r.stopping ==> !r.file.open && r.receiveTimer == None)
  {
    RunKeeps(Started(expected, chunk), es);
    RunFixed(Started(expected, chunk), es);
  }

  /** The receive timer stays armed after the last byte: when it fires before the server stops
      the session, a complete and fully confirmed file is removed. */
  lemma TimeoutAfterCompletion(expected: nat, chunk: nat, es: seq<Event>)
    requires var s := Run(Started(expected, chunk), es); !s.stopping && s.state == COMPLETED
    ensures var s := Run(Started(expected, chunk), es);
            var r := Step(s, ReceiveTimer);
            s.file.present && !r.file.present && r.state == TIMED_OUT
  {
    RunKeeps(Started(expected, chunk), es);
  }

  /** The chunks that are written: all of them, up to the one that reaches the expected size. */
  function Wanted(have: nat, expected: nat, chunks: seq<Content>): (w: nat)
    ensures w <= |chunks|
    decreases |chunks|
  {
    if chunks == [] || (expected > 0 && have >= expected) then 0
    else 1 + Wanted(have + |chunks[0]|, expected, chunks[1..])
  }

  function Chunks(chunks: seq<Content>): seq<Event> {
    seq(|chunks|, i requires 0 <= i < |chunks| => Chunk(chunks[i], true))
  }

  lemma RunHead(s: State, chunks: seq<Content>)
    requires chunks != []
    ensures Run(s, Chunks(chunks)) == Run(Step(s, Chunk(chunks[0], true)), Chunks(chunks[1..]))
  {
    assert Chunks(chunks)[1..] == Chunks(chunks[1..]);
  }

  lemma ChunkWrites(s: State, data: Content)
    requires Inv(s) && !s.stopping
    ensures var r := Step(s, Chunk(data, true));
            && Inv(r) && !r.stopping && r.expected == s.expected
            && (IsLast(s) ==> r == s)
            && (!IsLast(s) ==> r.file.content == s.file.content + data && r.received == s.received + |data|)
  {
    StepKeeps(s, Chunk(data, true));
    if data == [] { assert s.file.content + data == s.file.content; }
  }

  /** What was unconfirmed, with the new chunk, is confirmed at once if it reaches the threshold or
      the file is complete, and stays unconfirmed otherwise. */
  lemma ChunkConfirms(s: State, data: Content)
    requires Inv(s) && !s.stopping && s.state == IN_PROGRESS && data != []
    ensures var r := Step(s, Chunk(data, true)); var due := s.sinceAck + |data|;
            if due >= s.threshold || s.received + |data| >= s.expected > 0
            then r.acks == s.acks + [Ack(r.ackNumber, due)] && r.sinceAck == 0
            else r.acks == s.acks && r.sinceAck == due
  {
  }

  /** Only the first stop does anything, and nothing happens to a stopped session; a file that is
      there stays there if the server stops a complete session, and only then. */
  lemma StoppedForGood(s: State, first: StopReason, second: StopReason, e: Event)
    ensures var r := Stop(s, first); r.stopping && Stop(r, second) == r && Step(r, e) == r
    ensures !s.stopping ==>
              var r := Stop(s, first);
              r.file.present <==> s.file.present && first == SERVER_STOP && s.state == COMPLETED
  {
  }

  lemma JoinedCons(chunks: seq<Content>, w: nat)
    requires chunks != [] && w < |chunks|
    ensures Joined(chunks[..1 + w]) == chunks[0] + Joined(chunks[1..][..w])
    ensures Joined(chunks) == chunks[0] + Joined(chunks[1..])
  {
    assert chunks[..1 + w][1..] == chunks[1..][..w];
  }

  lemma WantedCons(have: nat, expected: nat, chunks: seq<Content>)
    requires chunks != [] && !(expected > 0 && have >= expected)
    ensures var w, rest := Wanted(have + |chunks[0]|, expected, chunks[1..]), chunks[1..];
            && Wanted(have, expected, chunks) == 1 + w
            && Joined(chunks[..1 + w]) == chunks[0] + Joined(rest[..w])
            && Joined(chunks) == chunks[0] + Joined(rest)
  {
    JoinedCons(chunks, Wanted(have + |chunks[0]|, expected, chunks[1..]));
  }

  lemma {:induction false} LastIgnores(s: State, chunks: seq<Content>)
    requires Inv(s) && !s.stopping && IsLast(s)
    ensures Run(s, Chunks(chunks)) == s
    decreases |chunks|
  {
    if chunks != [] {
      RunHead(s, chunks);
      ChunkWrites(s, chunks[0]);
      LastIgnores(s, chunks[1..]);
    }
  }

  /** What a session makes of a list of chunks it can write: the file holds the wanted ones,
      in order, and the upload is complete exactly when they reach the expected size. */
  lemma {:induction false} WritesWhatArrives(s: State, chunks: seq<Content>)
    requires Inv(s) && !s.stopping
    ensures var r := Run(s, Chunks(chunks));
            && !r.stopping
            && r.file.content == s.file.content + Joined(chunks[..Wanted(s.received, s.expected, chunks)])
            && (r.state == COMPLETED <==> s.expected > 0 && s.received + |Joined(chunks)| >= s.expected)
    decreases |chunks|
  {
    if IsLast(s) {
      LastIgnores(s, chunks);
      assert chunks[..0] == [] && s.file.content + [] == s.file.content;
    } else if chunks == [] {
      assert Chunks(chunks) == [] && s.file.content + [] == s.file.content;
    } else {
      var r, rest := Step(s, Chunk(chunks[0], true)), chunks[1..];
      RunHead(s, chunks);
      ChunkWrites(s, chunks[0]);
      hide Step, Inv, Run, Chunks, Joined, Wanted, IsLast;
      WritesWhatArrives(r, rest);
      WantedCons(s.received, s.expected, chunks);
      Assoc(s.file.content, chunks[0], Joined(rest[..Wanted(r.received, r.expected, rest)]));
    }
  }
}
