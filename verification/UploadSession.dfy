/** The upload session as an object, with its bandwidth limit: its handlers, each proved to do
    exactly what the step of `UploadLimit` does to the session's state. */
module UploadSession {
  import opened Bytes
  import opened FileTransfer

  import L = UploadLimit
  import U = Upload

  /** Seconds. */
  const DEFAULT_RECEIVE_TIMEOUT: nat := 30

  class Session {
    const expectedSize: nat
    const chunkSize: nat

    /** Megabits per second; zero for no limit. */
    const maxBandwidth: real

    /** The output file, and whether the file system still has it. */
    var content: Content
    var isOpen: bool
    var present: bool

    var state: SessionState
    var ackThreshold: nat
    var bytesReceived: nat
    var bytesSinceLastAck: nat
    var ackNumber: nat
    var receiveTimeout: nat
    /** The receive timer, with what had been received when it was set. */
    var receiveTimer: Option<nat>
    var selfReference: bool
    var stopping: bool

    /** The timer of a delayed acknowledgement, with the bytes it stands for. */
    var rateLimitTimer: Option<nat>

    /** Acknowledgements handed to the client. */
    var acks: seq<Ack>

    ghost function Abs(): L.State
      reads this
    {
      L.State(U.State(expectedSize, ackThreshold, U.Output(content, isOpen, present), state,
                      bytesReceived, bytesSinceLastAck, ackNumber, receiveTimer, stopping, acks),
              rateLimitTimer)
    }

    /** A session from a successful start on: never less is confirmed than was received, but for what
        is below the threshold or delayed; the acknowledgements are numbered in a row; state and
        file are in step; the session holds on to itself until it is stopped. */
    ghost predicate Valid()
      reads this
    {
      L.Good(Abs()) && selfReference == !stopping
    }

    constructor (expectedSize: nat, chunkSize: nat, maxBandwidth: real)
      ensures state == IDLE && Idle()
      ensures this.expectedSize == expectedSize && this.chunkSize == chunkSize && this.maxBandwidth == maxBandwidth
    {
      this.expectedSize, this.chunkSize, this.maxBandwidth := expectedSize, chunkSize, maxBandwidth;
      content, isOpen, present, state, ackThreshold := [], false, false, IDLE, 0;
      bytesReceived, bytesSinceLastAck, ackNumber, acks := 0, 0, 0, [];
      receiveTimer, selfReference, stopping, rateLimitTimer := None, false, false, None;
    }

    ghost predicate Idle()
      reads this
    {
      bytesReceived == bytesSinceLastAck == ackNumber == 0 && acks == []
      && !(isOpen || selfReference || stopping) && receiveTimer == rateLimitTimer == None
    }

    /** The seconds one chunk takes at the limit. */
    function ChunkTime(): real
      requires maxBandwidth > 0.0
    {
      chunkSize as real * 8.0 / (maxBandwidth * 1000000.0)
    }

    /** What a session that could open its file begins with. */
    method Begin()
      modifies `content, `present, `ackThreshold, `state, `selfReference, `receiveTimer
      ensures content == [] && present && receiveTimer == Some(bytesReceived) && state == IN_PROGRESS && selfReference
      ensures ackThreshold == AckThreshold(expectedSize, chunkSize)
    {
      content, present := [], true;
      ackThreshold := AckThreshold(expectedSize, chunkSize);
      state := IN_PROGRESS;
      selfReference := true;
      StartReceiveTimeout();
    }

    /** The receive timeout is the default, or what the limit asks for if that is more: half as long
        again as a chunk takes, and nine or ten seconds. */
    ghost predicate Patient()
      reads `receiveTimeout
    {
      && receiveTimeout >= DEFAULT_RECEIVE_TIMEOUT
      && (maxBandwidth <= 0.0 ==> receiveTimeout == DEFAULT_RECEIVE_TIMEOUT)
      && (maxBandwidth > 0.0 ==>
            var asked := 1.5 * ChunkTime();
            && receiveTimeout as real > asked + 9.0
            && (receiveTimeout > DEFAULT_RECEIVE_TIMEOUT ==> receiveTimeout as real <= asked + 10.0))
    }

    /** `opens` is what the file system answers; opening truncates the file. The response of a
        session that starts announces the chunk size. */
    method Start(opens: bool) returns (ok: bool, announced: nat)
      requires state == IDLE && Idle()
      modifies this
      ensures ok == opens
      ensures ok ==> Valid() && Abs() == L.Started(expectedSize, chunkSize) && announced == chunkSize
      ensures ok ==> Patient() && (maxBandwidth <= 0.0 ==> receiveTimeout == 30)
      ensures !ok ==> state == FAILED && Idle()
    {
      hide L.Good, AckThreshold, Patient;
      state := STARTING;
      isOpen := opens;
      if !isOpen {
        state := FAILED;
        return false, 0;
      }
      SetReceiveTimeout();
      Begin();
      L.StartedTimely(expectedSize, chunkSize);
      return true, chunkSize;
    }

    method SetReceiveTimeout()
      modifies `receiveTimeout
      ensures Patient()
    {
      receiveTimeout := DEFAULT_RECEIVE_TIMEOUT;
      if maxBandwidth > 0.0 {
        var required := (ChunkTime() * 1.5).Floor + 10;
        if required > receiveTimeout { receiveTimeout := required; }
      }
    }

    method Stop(reason: StopReason) returns (first: bool)
      modifies this
      ensures Abs() == if old(stopping) then old(Abs()) else L.State(U.Stop(old(Abs()).u, reason), None)
      ensures first == !old(stopping)
      ensures old(selfReference == !stopping) ==> selfReference == !stopping
      ensures old(Valid()) ==> Valid()
    {
      ghost var before := Abs();
      if stopping { return false; }
      stopping := true;
      receiveTimer := None;
      rateLimitTimer := None;
      selfReference := false;
      isOpen := false;
      Settle(reason);
      assert Abs() == L.State(U.Stop(before.u, reason), None);
      hide U.Stop, L.Good, Abs;
      if L.Good(before) { StopKeeps(before, reason); }
      return true;
    }

    static lemma StopKeeps(s: L.State, reason: StopReason)
      requires L.Good(s) && !s.u.stopping
      ensures L.Good(L.State(U.Stop(s.u, reason), None))
    {
      L.StepGood(s, L.StopBy(reason));
    }

    method Settle(reason: StopReason)
      modifies `state, `present
      ensures state == U.StateAfterStop(old(Abs()).u, reason)
      ensures present == (old(present) && reason == SERVER_STOP && old(state) == COMPLETED)
    {
      match reason {
        case SERVER_STOP =>
          if state != COMPLETED {
            state := CANCELLED;
            if present { present := false; }
          }
        case CLIENT_STOP =>
          if !(state == FAILED || state == TIMED_OUT) { state := CANCELLED; }
          if present { present := false; }
        case DISCONNECTED =>
          state := CANCELLED;
          if present { present := false; }
      }
    }

    /** `writes` is what the file system answers to the write, `early` what the clock says to an
        acknowledgement, if there is one: it comes too early for the limit. */
    method HandleInput(isBinary: bool, data: Content, writes: bool, early: bool)
      requires Valid() && !stopping
      modifies this
      ensures Valid()
      ensures Abs() == L.Step(old(Abs()), if isBinary then L.Chunk(data, writes, early && maxBandwidth > 0.0)
                                          else L.OtherInput)
    {
      ghost var before := Abs();
      ghost var e := if isBinary then L.Chunk(data, writes, early && maxBandwidth > 0.0) else L.OtherInput;
      L.StepGood(before, e);
      hide L.Good;
      if isBinary {
        if |data| > 0 { HandleUploadChunk(data, writes, early); }
      }
    }

    method HandleUploadChunk(data: Content, writes: bool, early: bool)
      requires !stopping && selfReference && data != []
      modifies this
      ensures selfReference == !stopping
      ensures Abs() == L.Step(old(Abs()), L.Chunk(data, writes, early && maxBandwidth > 0.0))
    {
      if state != IN_PROGRESS || !isOpen { return; }
      if !writes {
        state := FAILED;
        var _ := Stop(CLIENT_STOP);
        return;
      }
      Take(data);
      var isLastChunk := expectedSize > 0 && bytesReceived >= expectedSize;
      if bytesSinceLastAck >= ackThreshold || isLastChunk { SendAck(isLastChunk, early); }
      if isLastChunk { state := COMPLETED; }
    }

    method Take(data: Content)
      modifies `content, `bytesReceived, `bytesSinceLastAck, `receiveTimer
      ensures Abs() == L.State(U.Take(old(Abs()).u, data), rateLimitTimer)
    {
      content := content + data;
      bytesReceived := bytesReceived + |data|;
      bytesSinceLastAck := bytesSinceLastAck + |data|;
      StartReceiveTimeout();
    }

    /** At once, or under a bandwidth limit after a delay; the final one always at once. */
    method SendAck(isFinal: bool, early: bool)
      modifies `ackNumber, `acks, `bytesSinceLastAck, `rateLimitTimer
      ensures Abs() == if early && maxBandwidth > 0.0 && !isFinal
                       then L.State(old(Abs()).u, Some(bytesSinceLastAck))
                       else L.State(U.SendAck(old(Abs()).u), old(rateLimitTimer))
    {
      if maxBandwidth > 0.0 && !isFinal {
        if early {
          rateLimitTimer := Some(bytesSinceLastAck);
          return;
        }
      }
      ackNumber := (ackNumber + 1) % TWO32;
      acks := acks + [Ack(ackNumber, bytesSinceLastAck)];
      bytesSinceLastAck := 0;
    }

    /** The delayed acknowledgement goes out, for the bytes it was made for. */
    method OnRateLimitTimer()
      requires Valid() && !stopping && rateLimitTimer.Some?
      modifies this
      ensures Valid() && Abs() == L.Step(old(Abs()), L.RateTimer)
    {
      L.StepGood(Abs(), L.RateTimer);
      hide L.Good;
      ackNumber := (ackNumber + 1) % TWO32;
      acks := acks + [Ack(ackNumber, rateLimitTimer.value)];
      bytesSinceLastAck := 0;
      rateLimitTimer := None;
    }

    method StartReceiveTimeout()
      modifies `receiveTimer
      ensures receiveTimer == Some(bytesReceived)
    {
      if receiveTimer.Some? { receiveTimer := None; }
      receiveTimer := Some(bytesReceived);
    }

    method OnReceiveTimer()
      requires Valid() && !stopping && receiveTimer.Some?
      modifies this
      ensures Valid() && Abs() == L.Step(old(Abs()), L.ReceiveTimer)
    {
      L.StepGood(Abs(), L.ReceiveTimer);
      hide L.Good;
      state := TIMED_OUT;
      receiveTimer := None;
      var _ := Stop(CLIENT_STOP);
    }
  }
}
