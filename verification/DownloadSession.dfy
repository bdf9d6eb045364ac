/** The download session as an object: its handlers, each proved to do exactly what the
    function of the same name in `Download` does to the session's state. */
module DownloadSession {
  import opened FileTransfer
  import D = Download

  class Session {
    const chunkSize: nat
    const windowSize: nat

    var file: Content
    var offset: nat
    var isOpen: bool
    var eof: bool

    var state: SessionState
    var fileSize: nat
    var bytesTransferred: nat
    var bytesInFlight: nat
    var waitingForAck: bool
    var ackTimer: bool
    var rateLimitTimer: bool
    var completionTimer: bool
    var selfReference: bool
    var stopping: bool

    /** Send handlers posted to the executor, and payloads handed to the client. */
    var posted: nat
    var sent: seq<Content>
    /** The bytes of the accepted acknowledgements, which the session itself does not keep. */
    ghost var acked: nat

    ghost function Abs(): D.State
      reads this
    {
      D.State(chunkSize, windowSize, D.Input(file, offset, isOpen, eof), state,
              bytesTransferred, bytesInFlight, acked,
              D.Wake(posted, rateLimitTimer, waitingForAck, ackTimer),
              completionTimer, stopping, sent)
    }

    /** What the fields that `Abs` leaves out say about the others. */
    ghost predicate Coherent()
      reads this
    {
      fileSize == |file| && selfReference == !stopping
    }

    /** A session from a successful start on, between two handlers: bytes sent are bytes confirmed
        and bytes in flight, these stay below window and chunk, the payloads are the file so far,
        and what can start the next send is pending once. */
    ghost predicate Valid()
      reads this
    {
      Coherent() && D.Good(Abs())
    }

    constructor (chunkSize: nat, windowSize: nat)
      ensures state == IDLE && Idle()
      ensures this.chunkSize == chunkSize && this.windowSize == windowSize
    {
      this.chunkSize, this.windowSize := chunkSize, windowSize;
      file, offset, isOpen, eof := [], 0, false, false;
      state, fileSize, bytesTransferred, bytesInFlight := IDLE, 0, 0, 0;
      waitingForAck, ackTimer, rateLimitTimer, completionTimer := false, false, false, false;
      selfReference, stopping, posted, sent, acked := false, false, 0, [], 0;
    }

    /** Nothing sent, nothing scheduled, no file open. */
    ghost predicate Idle()
      reads this
    {
      && bytesTransferred == bytesInFlight == acked == posted == 0 && sent == []
      && !(isOpen || waitingForAck || ackTimer || rateLimitTimer || completionTimer || selfReference || stopping)
    }

    /** `found`, `regular` and `opens` are what the file system answers; the response of a session
        that starts announces the chunk size. */
    method Start(found: bool, regular: bool, opens: bool, content: Content) returns (ok: bool, announced: nat)
      requires state == IDLE && Idle()
      modifies this
      ensures ok == (found && regular && opens)
      ensures ok ==> Valid() && Abs() == D.Started(content, chunkSize, windowSize) && announced == chunkSize
      ensures !ok ==> state == FAILED && Idle()
    {
      state := STARTING;
      if !found || !regular {
        state := FAILED;
        return false, 0;
      }
      Open(opens, content);
      if !isOpen {
        state := FAILED;
        return false, 0;
      }
      Begin();
      assert Abs() == D.Started(content, chunkSize, windowSize);
      hide D.Good, D.Started, Abs, Idle;
      D.StartedGood(content, chunkSize, windowSize);
      return true, chunkSize;
    }

    method Begin()
      modifies `fileSize, `state, `selfReference, `posted
      ensures fileSize == |file| && state == IN_PROGRESS && selfReference && posted == old(posted) + 1
    {
      fileSize := |file|;
      state := IN_PROGRESS;
      selfReference := true;
      posted := posted + 1;
    }

    method Open(opens: bool, content: Content)
      modifies `file, `offset, `isOpen, `eof
      ensures isOpen == opens
      ensures opens ==> Abs().input == D.Input(content, 0, true, false)
    {
      isOpen := opens;
      if opens { file, offset, eof := content, 0, false; }
    }

    method Stop(reason: StopReason) returns (first: bool)
      requires fileSize == |file|
      modifies this
      ensures Abs() == D.Stop(old(Abs()), reason)
      ensures first == !old(stopping)
      ensures fileSize == |file| && (first ==> Coherent()) && (old(Valid()) ==> Valid())
    {
      ghost var before := Abs();
      if stopping { return false; }
      Release();
      Settle(reason);
      assert Abs() == D.Stop(before, reason);
      hide D.Stop, D.Good, Abs;
      if D.Good(before) { StopGood(before, reason); }
      return true;
    }

    static lemma StopGood(s: D.State, reason: StopReason)
      requires D.Good(s)
      ensures D.Good(D.Stop(s, reason))
    {
      D.StepGood(s, D.StopBy(reason));
    }

    method Release()
      modifies `stopping, `ackTimer, `completionTimer, `rateLimitTimer, `selfReference, `isOpen
      ensures Abs() == D.Release(old(Abs())) && !selfReference
    {
      stopping := true;
      CancelTimers();
      selfReference := false;
      isOpen := false;
    }

    method CancelTimers()
      modifies `ackTimer, `completionTimer, `rateLimitTimer
      ensures !ackTimer && !completionTimer && !rateLimitTimer
    {
      if ackTimer { ackTimer := false; }
      if completionTimer { completionTimer := false; }
      if rateLimitTimer { rateLimitTimer := false; }
    }

    method Settle(reason: StopReason)
      requires fileSize == |file|
      modifies `state
      ensures state == D.StateAfterStop(old(Abs()), reason)
    {
      match reason {
        case SERVER_STOP =>
          if bytesTransferred >= fileSize && fileSize > 0 {
            state := COMPLETED;
          } else {
            state := CANCELLED;
          }
        case CLIENT_STOP =>
          if !(state == FAILED || state == TIMED_OUT) { state := CANCELLED; }
        case DISCONNECTED =>
          state := CANCELLED;
      }
    }

    method HandleInput(isObject: bool, bytes: nat)
      requires Valid() && !stopping
      modifies this
      ensures Valid() && Abs() == D.Step(old(Abs()), D.Receive(isObject, bytes))
    {
      ghost var before := Abs();
      D.StepGood(before, D.Receive(isObject, bytes));
      hide D.Good;
      if isObject {
        if bytes > 0 {
          OnChunkAcknowledged(bytes);
        } else {
          OnChunkAcknowledged(chunkSize);
        }
      }
    }

    /** What `std::ifstream::read` of a chunk does to an open stream that is not at its end. */
    method ReadChunk() returns (payload: Content)
      modifies `offset, `eof
      ensures payload == D.NextPayload(old(Abs()).input, chunkSize)
      ensures Abs() == D.Advance(old(Abs()), |payload|)
    {
      var end := if offset + chunkSize <= |file| then offset + chunkSize
                 else if offset <= |file| then |file| else offset;
      payload := if end > offset then file[offset..end] else [];
      offset := offset + |payload|;
      eof := |payload| < chunkSize;
    }

    method SendNextChunk(limited: bool)
      requires Coherent() && !stopping
      modifies this
      ensures Coherent() && Abs() == D.SendNextChunk(old(Abs()), limited)
    {
      if state != IN_PROGRESS || !isOpen || eof {
        if bytesInFlight == 0 {
          if state == IN_PROGRESS {
            Complete();
          } else if state == COMPLETED {
            return;
          } else {
            var _ := Stop(CLIENT_STOP);
          }
        } else {
          WaitForAck();
        }
        return;
      }
      if bytesInFlight >= windowSize {
        WaitForAck();
        return;
      }
      var payload := ReadChunk();
      if |payload| > 0 {
        Emit(payload);
        Continue(limited);
      } else {
        if bytesInFlight == 0 {
          if state == IN_PROGRESS { Complete(); }
        } else {
          WaitForAck();
        }
      }
    }

    /** With room in the window the next send is posted, or left to the rate limit's timer. */
    method Continue(limited: bool)
      modifies `rateLimitTimer, `posted, `waitingForAck, `ackTimer
      ensures Abs() == D.Continue(old(Abs()), limited)
    {
      if bytesInFlight < windowSize {
        if limited {
          rateLimitTimer := true;
          return;
        }
        posted := posted + 1;
      } else {
        WaitForAck();
      }
    }

    method Emit(payload: Content)
      modifies `sent, `bytesTransferred, `bytesInFlight
      ensures Abs() == D.Emit(old(Abs()), payload)
    {
      sent := sent + [payload];
      bytesTransferred := bytesTransferred + |payload|;
      bytesInFlight := bytesInFlight + |payload|;
    }

    /** Completes without stopping: the server is to close the stream, within a time limit. */
    method Complete()
      modifies `state, `completionTimer
      ensures Abs() == D.Complete(old(Abs()))
    {
      state := COMPLETED;
      if !completionTimer { completionTimer := true; }
    }

    method WaitForAck()
      modifies `waitingForAck, `ackTimer
      ensures Abs() == D.Wait(old(Abs()))
    {
      waitingForAck := true;
      if ackTimer { ackTimer := false; }
      ackTimer := true;
    }

    method OnChunkAcknowledged(bytes: nat)
      requires Coherent() && !stopping
      modifies this
      ensures Coherent() && Abs() == D.Acknowledge(old(Abs()), bytes)
    {
      if bytesInFlight >= bytes {
        Confirm(bytes);
        if waitingForAck && bytesInFlight < windowSize {
          StopWaiting();
          Resume();
        }
      }
    }

    method Confirm(bytes: nat)
      requires bytes <= bytesInFlight
      modifies `bytesInFlight, `acked
      ensures Abs() == D.Confirm(old(Abs()), bytes)
    {
      bytesInFlight := bytesInFlight - bytes;
      acked := acked + bytes;
    }

    method StopWaiting()
      modifies `waitingForAck, `ackTimer
      ensures Abs() == D.StopWaiting(old(Abs()))
    {
      waitingForAck := false;
      if ackTimer { ackTimer := false; }
    }

    method Resume()
      requires Coherent() && !stopping
      modifies this
      ensures Coherent() && Abs() == D.Resume(old(Abs()))
    {
      if !eof && state == IN_PROGRESS {
        posted := posted + 1;
      } else {
        if bytesInFlight == 0 {
          if state == IN_PROGRESS && bytesTransferred >= fileSize {
            Complete();
          } else if state != COMPLETED {
            var _ := Stop(CLIENT_STOP);
          }
        }
      }
    }

    /** The executor runs a handler that was posted. */
    method OnPosted(limited: bool)
      requires Valid() && D.Enabled(Abs(), D.PostedSend(limited))
      modifies this
      ensures Valid() && Abs() == D.Step(old(Abs()), D.PostedSend(limited))
    {
      ghost var before := Abs();
      D.StepGood(before, D.PostedSend(limited));
      hide D.Good;
      posted := posted - 1;
      SendNextChunk(limited);
    }

    method OnRateLimitTimer(limited: bool)
      requires Valid() && D.Enabled(Abs(), D.RateTimer(limited))
      modifies this
      ensures Valid() && Abs() == D.Step(old(Abs()), D.RateTimer(limited))
    {
      ghost var before := Abs();
      D.StepGood(before, D.RateTimer(limited));
      hide D.Good;
      rateLimitTimer := false;
      SendNextChunk(limited);
    }

    method OnAckTimer()
      requires Valid() && D.Enabled(Abs(), D.AckTimer)
      modifies this
      ensures Valid() && Abs() == D.Step(old(Abs()), D.AckTimer)
    {
      ghost var before := Abs();
      D.StepGood(before, D.AckTimer);
      hide D.Good;
      ackTimer := false;
      if waitingForAck {
        state := TIMED_OUT;
        var _ := Stop(CLIENT_STOP);
      }
    }

    method OnCompletionTimer()
      requires Valid() && D.Enabled(Abs(), D.CompletionTimer)
      modifies this
      ensures Valid() && Abs() == D.Step(old(Abs()), D.CompletionTimer)
    {
      ghost var before := Abs();
      D.StepGood(before, D.CompletionTimer);
      hide D.Good;
      completionTimer := false;
      if selfReference {
        state := TIMED_OUT;
        var _ := Stop(CLIENT_STOP);
      }
    }
  }
}
