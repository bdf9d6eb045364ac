/** The download session: a sender that keeps at most about a window of unacknowledged
    bytes under way.

    `State` is everything the handlers read or write, plus what they have caused: the
    payloads handed to the client (`out`) and the bytes of every acknowledgement that was
    accepted (`acked`). Handlers run one after another on one executor; `Step` is one of
    them, `Run` a whole history. Whether a bandwidth limit delays the next chunk is the
    free choice `limited`. */
module Download {
  import opened FileTransfer

  /** The input stream on the file, which does not change during the transfer. */
  datatype Input = Input(file: Content, offset: nat, open: bool, eof: bool)

  /** What can start the next send: a posted handler, the rate timer, or an acknowledgement
      that is being waited for, under a timer of its own. */
  datatype Wake = Wake(posted: nat, rateTimer: bool, waiting: bool, ackTimer: bool)

  datatype State = State(
    chunk: nat,
    window: nat,
    input: Input,
    state: SessionState,
    transferred: nat,
    inFlight: nat,
    acked: nat,
    wake: Wake,
    completionTimer: bool,
    stopping: bool,
    out: seq<Content>)

  datatype Event =
    | PostedSend(limited: bool)
    | RateTimer(limited: bool)
    | Receive(isObject: bool, bytes: nat)
    | AckTimer
    | CompletionTimer
    | StopBy(reason: StopReason)

  /** The session as a successful start leaves it. */
  function Started(file: Content, chunk: nat, window: nat): State {
    State(chunk, window, Input(file, 0, true, false), IN_PROGRESS, 0, 0, 0,
          Wake(1, false, false, false), false, false, [])
  }

  /** What a read of one chunk finds: a chunk, or what is left of the file. */
  function NextPayload(i: Input, chunk: nat): (p: Content)
    ensures |p| <= chunk
    ensures i.offset <= |i.file| ==> i.offset + |p| <= |i.file| && p == i.file[i.offset..i.offset + |p|]
    ensures |p| < chunk ==> i.offset + |p| >= |i.file|
  {
    if i.offset + chunk <= |i.file| then i.file[i.offset..i.offset + chunk]
    else if i.offset <= |i.file| then i.file[i.offset..]
    else []
  }

  function StateAfterStop(s: State, reason: StopReason): SessionState {
    match reason
    case SERVER_STOP => if s.transferred >= |s.input.file| && |s.input.file| > 0 then COMPLETED else CANCELLED
    case CLIENT_STOP => if s.state == FAILED || s.state == TIMED_OUT then s.state else CANCELLED
    case DISCONNECTED => CANCELLED
  }

  /** Cancels every timer and closes the file. Handlers already posted stay posted. */
  function Release(s: State): State {
    s.(stopping := true, completionTimer := false, input := s.input.(open := false),
       wake := s.wake.(ackTimer := false, rateTimer := false))
  }

  function Stop(s: State, reason: StopReason): State {
    if s.stopping then s else Release(s).(state := StateAfterStop(s, reason))
  }

  function Wait(s: State): State {
    s.(wake := s.wake.(waiting := true, ackTimer := true))
  }

  function Complete(s: State): State {
    s.(state := COMPLETED, completionTimer := true)
  }

  function PostSend(s: State): State {
    s.(wake := s.wake.(posted := s.wake.posted + 1))
  }

  function SendNextChunk(s: State, limited: bool): State {
    if s.state != IN_PROGRESS || !s.input.open || s.input.eof then
      if s.inFlight > 0 then Wait(s)
      else if s.state == IN_PROGRESS then Complete(s)
      else if s.state == COMPLETED then s
      else Stop(s, CLIENT_STOP)
    else if s.inFlight >= s.window then Wait(s)
    else SendRead(s, NextPayload(s.input, s.chunk), limited)
  }

  /** After a read that found `payload`; a short read sets the end-of-file flag. */
  function SendRead(s: State, payload: Content, limited: bool): State {
    var r := Advance(s, |payload|);
    if |payload| > 0 then Continue(Emit(r, payload), limited)
    else if s.inFlight == 0 then Complete(r)
    else Wait(r)
  }

  function Advance(s: State, n: nat): State {
    s.(input := s.input.(offset := s.input.offset + n, eof := n < s.chunk))
  }

  function Emit(s: State, payload: Content): State {
    s.(out := s.out + [payload], transferred := s.transferred + |payload|,
       inFlight := s.inFlight + |payload|)
  }

  function Continue(s: State, limited: bool): State {
    if s.inFlight >= s.window then Wait(s)
    else if limited then s.(wake := s.wake.(rateTimer := true))
    else PostSend(s)
  }

  /** The bytes an acknowledgement stands for. */
  function Confirmed(s: State, bytes: nat): nat {
    if bytes > 0 then bytes else s.chunk
  }

  function Acknowledge(s: State, bytes: nat): State {
    if s.inFlight < bytes then s
    else
      var r := Confirm(s, bytes);
      if s.wake.waiting && r.inFlight < s.window then Resume(StopWaiting(r)) else r
  }

  function Confirm(s: State, bytes: nat): State
    requires bytes <= s.inFlight
  {
    s.(inFlight := s.inFlight - bytes, acked := s.acked + bytes)
  }

  function StopWaiting(s: State): State {
    s.(wake := s.wake.(waiting := false, ackTimer := false))
  }

  function Resume(s: State): State {
    if !s.input.eof && s.state == IN_PROGRESS then PostSend(s)
    else if s.inFlight > 0 then s
    else if s.state == IN_PROGRESS && s.transferred >= |s.input.file| then Complete(s)
    else if s.state != COMPLETED then Stop(s, CLIENT_STOP)
    else s
  }

  function Handle(s: State, isObject: bool, bytes: nat): State {
    if isObject then Acknowledge(s, Confirmed(s, bytes)) else s
  }

  function AckTimerFires(s: State): State {
    var r := s.(wake := s.wake.(ackTimer := false));
    if s.wake.waiting then Stop(r.(state := TIMED_OUT), CLIENT_STOP) else r
  }

  function CompletionTimerFires(s: State): State {
    Stop(s.(state := TIMED_OUT, completionTimer := false), CLIENT_STOP)
  }

  /** A stopped session is gone: nothing happens to it any more. */
  predicate Enabled(s: State, e: Event) {
    !s.stopping &&
    match e
    case PostedSend(_) => s.wake.posted > 0
    case RateTimer(_) => s.wake.rateTimer
    case Receive(_, _) => true
    case AckTimer => s.wake.ackTimer
    case CompletionTimer => s.completionTimer
    case StopBy(_) => true
  }

  /** The handler of a send takes its own wake-up with it. */
  function Woken(s: State, e: Event): State {
    match e
    case PostedSend(_) => if s.wake.posted > 0 then s.(wake := s.wake.(posted := s.wake.posted - 1)) else s
    case RateTimer(_) => s.(wake := s.wake.(rateTimer := false))
    case _ => s
  }

  function Step(s: State, e: Event): State {
    if !Enabled(s, e) then s
    else
      match e
      case PostedSend(limited) => SendNextChunk(Woken(s, e), limited)
      case RateTimer(limited) => SendNextChunk(Woken(s, e), limited)
      case Receive(isObject, bytes) => Handle(s, isObject, bytes)
      case AckTimer => AckTimerFires(s)
      case CompletionTimer => CompletionTimerFires(s)
      case StopBy(reason) => Stop(s, reason)
  }

  function Run(s: State, es: seq<Event>): State
    decreases |es|
  {
    if es == [] then s else Run(Step(s, es[0]), es[1..])
  }

  // ---- invariant --------------------------------------------------------------------

  /** Every byte is accounted for. */
  predicate Accounted(s: State) {
    && s.transferred == s.acked + s.inFlight
    && s.input.offset == s.transferred <= |s.input.file|
    && (s.window > 0 ==> s.inFlight < s.window + s.chunk)
    && (s.window == 0 || s.chunk == 0 ==> s.transferred == 0)
    && (s.input.eof ==> s.chunk > 0 && s.transferred == |s.input.file|)
  }

  function Flag(b: bool): nat { if b then 1 else 0 }

  function WakeUps(w: Wake): nat {
    w.posted + Flag(w.rateTimer) + Flag(w.waiting)
  }

  /** What holds while the session is in progress. */
  predicate Sending(s: State) {
    && s.input.open
    && s.wake.ackTimer == s.wake.waiting
    && !s.completionTimer
    && WakeUps(s.wake) <= 1
    && (!s.input.eof ==> WakeUps(s.wake) == 1)
    && (s.wake.waiting && !s.input.eof ==> s.inFlight >= s.window)
    && (s.wake.posted > 0 || s.wake.rateTimer ==> s.window == 0 || s.inFlight < s.window)
  }

  /** What holds once the session has declared itself complete. */
  predicate Finished(s: State) {
    && s.input.open
    && s.wake == Wake(0, false, false, false)
    && s.completionTimer
    && s.inFlight == 0
    && (s.chunk > 0 ==> s.acked == |s.input.file|)
  }

  predicate Inv(s: State) {
    && Accounted(s)
    && (!s.stopping ==> s.state == IN_PROGRESS || s.state == COMPLETED)
    && (!s.stopping && s.state == IN_PROGRESS ==> Sending(s))
    && (!s.stopping && s.state == COMPLETED ==> Finished(s))
  }

  lemma ReadKeeps(s: State, payload: Content, limited: bool)
    requires Accounted(s) && !s.stopping && s.state == IN_PROGRESS && s.input.open
    requires s.wake == Wake(0, false, false, false) && !s.completionTimer
    requires !s.input.eof && s.inFlight < s.window && payload == NextPayload(s.input, s.chunk)
    ensures Inv(SendRead(s, payload, limited))
  {
  }

  /** A send handler, with its own wake-up already taken. */
  lemma SendKeeps(s: State, limited: bool)
    requires Accounted(s) && !s.stopping && s.state == IN_PROGRESS && s.input.open
    requires s.wake == Wake(0, false, false, false) && !s.completionTimer
    requires s.window == 0 || s.inFlight < s.window
    ensures Inv(SendNextChunk(s, limited))
  {
    if !s.input.eof && s.inFlight < s.window { ReadKeeps(s, NextPayload(s.input, s.chunk), limited); }
  }

  lemma AcknowledgeKeeps(s: State, bytes: nat)
    requires Inv(s) && !s.stopping
    ensures Inv(Acknowledge(s, bytes))
  {
  }

  lemma StepKeeps(s: State, e: Event)
    requires Inv(s)
    ensures Inv(Step(s, e))
  {
    if Enabled(s, e) {
      match e
      case PostedSend(limited) => SendKeeps(Woken(s, e), limited);
      case RateTimer(limited) => SendKeeps(Woken(s, e), limited);
      case Receive(_, bytes) => AcknowledgeKeeps(s, Confirmed(s, bytes));
      case _ =>
    }
  }

  /** Only a timer or a stop ends a session. */
  lemma StepGoesOn(s: State, e: Event)
    requires Inv(s) && !s.stopping && (e.PostedSend? || e.RateTimer? || e.Receive?)
    ensures !Step(s, e).stopping
  {
  }

  lemma {:induction false} RunKeeps(s: State, es: seq<Event>)
    requires Inv(s)
    ensures Inv(Run(s, es))
    decreases |es|
  {
    if es != [] {
      StepKeeps(s, es[0]);
      RunKeeps(Step(s, es[0]), es[1..]);
    }
  }

  lemma PayloadExtends(out: seq<Content>, file: Content, from: nat, to: nat)
    requires from <= to <= |file| && Joined(out) == file[..from]
    ensures Joined(out + [file[from..to]]) == file[..to]
  {
    JoinedSnoc(out, file[from..to]);
    assert file[..to] == file[..from] + file[from..to];
  }

  /** `r` comes from `s` by sending nothing, or by sending the next bytes of the file. */
  predicate Sends(s: State, r: State) {
    && r.input.file == s.input.file
    && s.transferred <= r.transferred <= |s.input.file|
    && (r.transferred == s.transferred ==> r.out == s.out)
    && (r.transferred > s.transferred ==> r.out == s.out + [s.input.file[s.transferred..r.transferred]])
  }

  lemma ReadSends(s: State, payload: Content, limited: bool)
    requires s.input.offset == s.transferred <= |s.input.file| && payload == NextPayload(s.input, s.chunk)
    ensures Sends(s, SendRead(s, payload, limited))
  {
    var r := SendRead(s, payload, limited);
    assert r.transferred == s.transferred + |payload|;
    if payload != [] { assert r.out == s.out + [payload]; }
  }

  lemma SendSends(s: State, limited: bool)
    requires s.input.offset == s.transferred <= |s.input.file|
    ensures Sends(s, SendNextChunk(s, limited))
  {
    ReadSends(s, NextPayload(s.input, s.chunk), limited);
  }

  lemma StepSends(s: State, e: Event)
    requires Inv(s)
    ensures Sends(s, Step(s, e))
  {
    if Enabled(s, e) {
      match e
      case PostedSend(limited) => SendSends(Woken(s, e), limited);
      case RateTimer(limited) => SendSends(Woken(s, e), limited);
      case _ =>
    }
  }

  /** A send confirms nothing, and unless it meets the end of the file it sends a whole chunk. */
  lemma StepSendsWhole(s: State, e: Event)
    requires Inv(s) && (e.PostedSend? || e.RateTimer?)
    ensures var r := Step(s, e);
            && r.acked == s.acked
            && (!r.input.eof ==> !s.input.eof)
            && (!r.input.eof ==> r.transferred == s.transferred || r.transferred == s.transferred + s.chunk)
            && r.transferred <= s.transferred + s.chunk
            && (r.transferred > s.transferred ==> s.inFlight < s.window && !s.input.eof)
  {
  }

  /** With room in the window and a chunk left in the file, a send puts it under way. */
  lemma SendFills(s: State)
    requires Inv(s) && !s.stopping && s.wake == Wake(1, false, false, false)
    requires s.state == IN_PROGRESS && !s.input.eof && s.chunk > 0
    requires s.inFlight < s.window && s.transferred + s.chunk <= |s.input.file|
    ensures var r := Step(s, PostedSend(false));
            && r.transferred == s.transferred + s.chunk && r.inFlight == s.inFlight + s.chunk
            && !r.input.eof && r.state == IN_PROGRESS && |r.out| == |s.out| + 1
            && r.wake == if r.inFlight < s.window then s.wake else Wake(0, false, true, true)
  {
  }

  predicate IsSend(e: Event) {
    e.PostedSend? || e.RateTimer?
  }

  /** A send that finds something to read, whatever woke it and whether or not it is asked for a
      delay: the next bytes go under way, and exactly one thing wakes the session again, the rate
      timer if there is room and a delay is asked for. */
  lemma SendOutcome(s: State, e: Event)
    requires Inv(s) && Enabled(s, e) && IsSend(e) && s.state == IN_PROGRESS && !s.input.eof
    requires s.inFlight < s.window && NextPayload(s.input, s.chunk) != []
    ensures var p, r := NextPayload(s.input, s.chunk), Step(s, e);
            && r.out == s.out + [p] && r.transferred == s.transferred + |p| && r.inFlight == s.inFlight + |p|
            && r.state == IN_PROGRESS && r.input.open && (r.input.eof <==> |p| < s.chunk)
            && r.wake == if r.inFlight >= s.window then Wake(0, false, true, true)
                         else if e.limited then Wake(0, true, false, false)
                         else Wake(1, false, false, false)
  {
  }

  /** A send that is asked for a delay and leaves room. */
  predicate Delays(s: State, e: Event) {
    && Enabled(s, e) && IsSend(e) && e.limited && s.state == IN_PROGRESS && !s.input.eof
    && NextPayload(s.input, s.chunk) != []
    && s.inFlight + |NextPayload(s.input, s.chunk)| < s.window
  }

  /** What ends the delay: the send it was for, or the end of the session. */
  predicate EndsDelay(s: State, e: Event) {
    Enabled(s, e) && (IsSend(e) || Step(s, e).stopping)
  }

  lemma DelayStep(s: State, e: Event)
    requires Inv(s) && (s.wake.rateTimer ==> !s.stopping)
    ensures var r := Step(s, e);
            && (r.wake.rateTimer ==> !r.stopping)
            && (r.wake.rateTimer <==> Delays(s, e) || (s.wake.rateTimer && !EndsDelay(s, e)))
  {
  }

  predicate DelayedAt(s: State, es: seq<Event>, i: nat) {
    && i < |es| && Delays(Run(s, es[..i]), es[i])
    && forall k :: i < k < |es| ==> !EndsDelay(Run(s, es[..k]), es[k])
  }

  /** An acknowledgement of bytes that are under way is taken for what it says. */
  lemma StepConfirms(s: State, bytes: nat)
    requires Inv(s) && !s.stopping && 0 < bytes <= s.inFlight
    ensures var r := Step(s, Receive(true, bytes));
            && r.inFlight == s.inFlight - bytes && r.acked == s.acked + bytes
            && r.out == s.out && r.transferred == s.transferred && r.input == s.input
  {
    StepGoesOn(s, Receive(true, bytes));
  }

  /** The invariant, and the payloads so far are the file so far. */
  predicate Good(s: State) {
    Inv(s) && Joined(s.out) == s.input.file[..s.transferred]
  }

  lemma StartedGood(file: Content, chunk: nat, window: nat)
    ensures Good(Started(file, chunk, window))
  {
  }

  lemma StepGood(s: State, e: Event)
    requires Good(s)
    ensures Good(Step(s, e))
  {
    StepKeeps(s, e);
    StepSends(s, e);
    var r := Step(s, e);
    assert Inv(s) && Inv(r);
    hide Step, Sending, Finished;
    if r.out != s.out { PayloadExtends(s.out, s.input.file, s.transferred, r.transferred); }
  }

  lemma {:induction false} RunGood(s: State, es: seq<Event>)
    requires Good(s)
    ensures Good(Run(s, es))
    decreases |es|
  {
    hide Good, Step;
    if es != [] {
      StepGood(s, es[0]);
      RunGood(Step(s, es[0]), es[1..]);
    }
  }

  // ---- what holds over every run ----------------------------------------------------

  /** Whatever acknowledgements arrive, honest or not: the bytes sent are the bytes confirmed
      and the bytes under way, and the payloads are the file so far. */
  lemma Conservation(file: Content, chunk: nat, window: nat, es: seq<Event>)
    ensures var s := Run(Started(file, chunk, window), es);
            && s.transferred == s.acked + s.inFlight <= |file|
            && (window > 0 ==> s.inFlight < window + chunk)
            && (window == 0 ==> s.inFlight == 0)
            && Joined(s.out) == file[..s.transferred]
  {
    StartedGood(file, chunk, window);
    RunGood(Started(file, chunk, window), es);
    RunFixed(Started(file, chunk, window), es);
  }

  predicate SameTransfer(s: State, r: State) {
    r.chunk == s.chunk && r.window == s.window && r.input.file == s.input.file
  }

  lemma ReadFixed(s: State, payload: Content, limited: bool)
    ensures SameTransfer(s, SendRead(s, payload, limited))
  {
    var r := Advance(s, |payload|);
    assert SameTransfer(s, r) && SameTransfer(s, Emit(r, payload));
  }

  lemma SendFixed(s: State, limited: bool)
    ensures SameTransfer(s, SendNextChunk(s, limited))
  {
    ReadFixed(s, NextPayload(s.input, s.chunk), limited);
  }

  lemma StepFixed(s: State, e: Event)
    ensures SameTransfer(s, Step(s, e))
  {
    if e.PostedSend? || e.RateTimer? { SendFixed(Woken(s, e), e.limited); }
  }

  lemma {:induction false} RunFixed(s: State, es: seq<Event>)
    ensures Run(s, es).chunk == s.chunk && Run(s, es).window == s.window
    ensures Run(s, es).input.file == s.input.file
    decreases |es|
  {
    if es != [] {
      StepFixed(s, es[0]);
      RunFixed(Step(s, es[0]), es[1..]);
    }
  }

  /** Before the end of the file exactly one wake-up is pending, so that no two sends are ever
      under way and none is lost; and a send that starts finds room in the window. */
  lemma SingleSender(file: Content, chunk: nat, window: nat, es: seq<Event>)
    ensures var s := Run(Started(file, chunk, window), es);
            !s.stopping && s.state == IN_PROGRESS ==>
              && WakeUps(s.wake) <= 1
              && (!s.input.eof ==> WakeUps(s.wake) == 1)
              && (s.wake.waiting <==> s.wake.ackTimer)
              && (window > 0 && (s.wake.posted > 0 || s.wake.rateTimer) ==> s.inFlight < window)
              && (s.wake.waiting && !s.input.eof ==> s.inFlight >= window)
  {
    RunKeeps(Started(file, chunk, window), es);
    RunFixed(Started(file, chunk, window), es);
  }

  /** A download that completes by itself has nothing under way. It has sent and seen confirmed
      the whole file exactly when chunks are not empty (or the file is). */
  lemma SelfCompletion(file: Content, chunk: nat, window: nat, es: seq<Event>)
    requires var s := Run(Started(file, chunk, window), es); !s.stopping && s.state == COMPLETED
    ensures var s := Run(Started(file, chunk, window), es);
            && s.inFlight == 0
            && (s.acked == s.transferred == |file| && Joined(s.out) == file <==> chunk > 0 || file == [])
  {
    var s := Run(Started(file, chunk, window), es);
    RunKeeps(Started(file, chunk, window), es);
    RunFixed(Started(file, chunk, window), es);
    Conservation(file, chunk, window, es);
    assert file[..|file|] == file;
  }

  /** The server's stop decides by what was sent, not by what was confirmed: in particular it
      keeps a completed download of a non-empty file completed, and cancels that of an empty one. */
  lemma ServerStop(file: Content, chunk: nat, window: nat, es: seq<Event>)
    requires !Run(Started(file, chunk, window), es).stopping
    ensures var s := Run(Started(file, chunk, window), es);
            var r := Step(s, StopBy(SERVER_STOP));
            && (r.state == COMPLETED <==> file != [] && Joined(s.out) == file)
            && (r.state != COMPLETED ==> r.state == CANCELLED)
            && (s.state == COMPLETED && chunk > 0 ==> (r.state == COMPLETED <==> file != []))
  {
    var s := Run(Started(file, chunk, window), es);
    RunKeeps(Started(file, chunk, window), es);
    RunFixed(Started(file, chunk, window), es);
    Conservation(file, chunk, window, es);
    assert file[..|file|] == file;
  }

  /** What ends a session, and as what: a timer as timed out, the server's stop as
      `ServerStop` says, any other stop as cancelled. Nothing else does, and nothing is left
      armed or open. */
  lemma HowItEnds(file: Content, chunk: nat, window: nat, es: seq<Event>, e: Event)
    requires !Run(Started(file, chunk, window), es).stopping
    ensures var s := Run(Started(file, chunk, window), es);
            var r := Step(s, e);
            && (r.stopping <==> e.StopBy? || ((e.AckTimer? || e.CompletionTimer?) && Enabled(s, e)))
            && (r.stopping && !e.StopBy? ==> r.state == TIMED_OUT)
            && (e.StopBy? && e.reason != SERVER_STOP ==> r.state == CANCELLED)
            && (r.stopping ==> !r.input.open && !r.completionTimer && !r.wake.rateTimer && !r.wake.ackTimer)
  {
    var s := Run(Started(file, chunk, window), es);
    RunKeeps(Started(file, chunk, window), es);
    if e.PostedSend? || e.RateTimer? || e.Receive? { StepGoesOn(s, e); }
  }

  /** A send handler with nothing to read from, in any state at all: it waits while something is
      under way; with nothing under way it completes a session in progress, leaves a complete one
      alone and stops any other. */
  lemma SendWithoutFile(s: State, limited: bool)
    requires s.state != IN_PROGRESS || !s.input.open || s.input.eof
    ensures var r := SendNextChunk(s, limited);
            && (s.inFlight > 0 ==> r == s.(wake := s.wake.(waiting := true, ackTimer := true)))
            && (s.inFlight == 0 && s.state == IN_PROGRESS ==> r == s.(state := COMPLETED, completionTimer := true))
            && (s.inFlight == 0 && s.state == COMPLETED ==> r == s)
            && (s.inFlight == 0 && s.state != IN_PROGRESS && s.state != COMPLETED && !s.stopping ==>
                  && r.stopping && !r.input.open && !r.completionTimer && !r.wake.rateTimer && !r.wake.ackTimer
                  && r.state == if s.state == FAILED || s.state == TIMED_OUT then s.state else CANCELLED)
  {
  }

  /** The end of a wait, in any state at all: the next send is posted before the end of the file;
      there a session with nothing under way is completed if it has sent the file and is in
      progress, and stopped if it is not complete otherwise. */
  lemma ResumeOutcome(s: State)
    requires !s.stopping
    ensures var r := Resume(s); var goesOn := !s.input.eof && s.state == IN_PROGRESS;
            && (goesOn ==> r == s.(wake := s.wake.(posted := s.wake.posted + 1)))
            && (!goesOn && s.inFlight > 0 ==> r == s)
            && (!goesOn && s.inFlight == 0 && s.state == COMPLETED ==> r == s)
            && (!goesOn && s.inFlight == 0 && s.state == IN_PROGRESS && s.transferred >= |s.input.file| ==>
                  r == s.(state := COMPLETED, completionTimer := true))
            && (!goesOn && s.inFlight == 0 && s.state == IN_PROGRESS && s.transferred < |s.input.file| ==>
                  r.stopping && r.state == CANCELLED)
            && (!goesOn && s.inFlight == 0 && s.state != IN_PROGRESS && s.state != COMPLETED ==>
                  r.stopping && r.state == if s.state == FAILED || s.state == TIMED_OUT then s.state else CANCELLED)
  {
  }

  /** Only the first stop does anything, and nothing happens to a stopped session. */
  lemma StoppedForGood(s: State, first: StopReason, second: StopReason, e: Event)
    ensures var r := Stop(s, first); r.stopping && Stop(r, second) == r && Step(r, e) == r
  {
  }

  /** The acknowledgement timer of a session that waits stops it; of one that does not it only
      fires, which no session in progress has armed. */
  lemma AckTimerOutcome(s: State)
    requires Inv(s) && s.wake.ackTimer && !s.stopping
    ensures s.wake.waiting
    ensures var r := Step(s, AckTimer); r.stopping && r.state == TIMED_OUT && r.out == s.out && !r.wake.ackTimer
  {
  }

  lemma StrayAckTimer(s: State)
    requires !s.wake.waiting
    ensures AckTimerFires(s) == s.(wake := s.wake.(ackTimer := false))
  {
  }

  // ---- termination ------------------------------------------------------------------

  /** Steps that do something: every enabled one, but for input that is no acknowledgement, or
      one that is ignored. */
  predicate Productive(s: State, e: Event) {
    && Enabled(s, e)
    && (e.Receive? ==> e.isObject && 0 < Confirmed(s, e.bytes) <= s.inFlight)
  }

  function ProductiveSteps(s: State, es: seq<Event>): nat
    decreases |es|
  {
    if es == [] then 0
    else Flag(Productive(s, es[0])) + ProductiveSteps(Step(s, es[0]), es[1..])
  }

  function Measure(s: State): int {
    4 * (|s.input.file| - s.transferred) + 2 * s.inFlight + 2 * Flag(!s.input.eof)
    + s.wake.posted + Flag(s.wake.rateTimer) + Flag(!s.stopping)
  }

  lemma ContinueCosts(s: State, limited: bool)
    requires !s.wake.rateTimer
    ensures Measure(Continue(s, limited)) <= Measure(s) + 1
  {
  }

  lemma EmitDecreases(s: State, payload: Content)
    ensures Measure(Emit(s, payload)) == Measure(s) - 2 * |payload|
  {
  }

  lemma AdvanceDecreases(s: State, n: nat)
    requires !s.input.eof
    ensures Measure(Advance(s, n)) <= Measure(s)
  {
  }

  lemma ReadDecreases(s: State, payload: Content, limited: bool)
    requires !s.input.eof && !s.wake.rateTimer
    ensures Measure(SendRead(s, payload, limited)) + 2 * |payload| <= Measure(s) + Flag(payload != [])
  {
    var r := Advance(s, |payload|);
    AdvanceDecreases(s, |payload|);
    if |payload| > 0 {
      EmitDecreases(r, payload);
      ContinueCosts(Emit(r, payload), limited);
      hide Measure, Advance, Emit, Continue;
    } else {
      assert Measure(Complete(r)) == Measure(Wait(r)) == Measure(r);
      hide Measure, Advance, Complete, Wait;
    }
  }

  lemma SendDecreases(s: State, limited: bool)
    requires Accounted(s) && !s.wake.rateTimer && !s.stopping
    ensures var r := SendNextChunk(s, limited);
            && Measure(r) <= Measure(s)
            && Measure(r) + 2 * (r.transferred - s.transferred) <= Measure(s) + 1
  {
    if s.state == IN_PROGRESS && s.input.open && !s.input.eof && s.inFlight < s.window {
      var payload := NextPayload(s.input, s.chunk);
      ReadDecreases(s, payload, limited);
      ReadSends(s, payload, limited);
      assert SendRead(s, payload, limited).transferred == s.transferred + |payload|;
      hide SendRead, NextPayload, Measure;
    }
  }

  lemma StepDecreases(s: State, e: Event)
    requires Inv(s)
    ensures Measure(Step(s, e)) + Flag(Productive(s, e)) <= Measure(s)
    ensures Enabled(s, e) && (e.PostedSend? || e.RateTimer?) ==>
              Measure(Step(s, e)) + 2 * (Step(s, e).transferred - s.transferred) <= Measure(s)
  {
    if Enabled(s, e) && (e.PostedSend? || e.RateTimer?) {
      var w := Woken(s, e);
      assert Measure(w) + 1 == Measure(s) && w.transferred == s.transferred;
      SendDecreases(w, e.limited);
      hide SendNextChunk, Measure, Woken, Inv;
    }
  }

  /** No run does more than a bounded number of things, however the acknowledgements are cut. */
  lemma {:induction false} ProductiveBound(s: State, es: seq<Event>)
    requires Inv(s)
    ensures ProductiveSteps(s, es) + Measure(Run(s, es)) <= Measure(s)
    decreases |es|
  {
    if es != [] {
      StepKeeps(s, es[0]);
      StepDecreases(s, es[0]);
      ProductiveBound(Step(s, es[0]), es[1..]);
    }
  }

  lemma EveryRunIsFinite(file: Content, chunk: nat, window: nat, es: seq<Event>)
    ensures ProductiveSteps(Started(file, chunk, window), es) <= 4 * |file| + 4
  {
    var first := Started(file, chunk, window);
    RunKeeps(first, es);
    ProductiveBound(first, es);
  }

  // ---- the end of the file ----------------------------------------------------------

  /** At the end of the file, waiting for what is under way. */
  predicate Draining(s: State) {
    Inv(s) && !s.stopping && s.state == IN_PROGRESS && s.input.eof && s.wake.waiting
  }

  /** At the end of the file with nothing left that could complete the session. */
  predicate Orphaned(s: State) {
    Inv(s) && !s.stopping && s.state == IN_PROGRESS && s.input.eof && WakeUps(s.wake) == 0
  }

  /** An acknowledgement that ends the wait and leaves something under way. */
  predicate Orphans(s: State, e: Event) {
    && Draining(s) && e.Receive? && e.isObject
    && 0 < s.inFlight - Confirmed(s, e.bytes) < s.window
  }

  /** A send handler that finds the end of the file with nothing under way, or the
      acknowledgement that ends the wait there and leaves nothing. */
  predicate Completes(s: State, e: Event) {
    || (Enabled(s, e) && (e.PostedSend? || e.RateTimer?) && s.inFlight == 0
        && (s.input.eof || (s.window > 0 && NextPayload(s.input, s.chunk) == [])))
    || (Draining(s) && e.Receive? && e.isObject && s.window > 0 && s.inFlight == Confirmed(s, e.bytes))
  }

  /** What leaves a session without a wake-up is exactly such an acknowledgement. */
  lemma OrphanStep(s: State, e: Event)
    requires Inv(s) && !Orphaned(s)
    ensures Orphaned(Step(s, e)) <==> Orphans(s, e)
  {
    StepKeeps(s, e);
  }

  lemma CompletionStep(s: State, e: Event)
    requires Inv(s) && !s.stopping && s.state == IN_PROGRESS
    ensures Step(s, e).state == COMPLETED && !Step(s, e).stopping <==> Completes(s, e)
  {
    StepKeeps(s, e);
  }

  predicate NoStop(es: seq<Event>) {
    forall i :: 0 <= i < |es| ==> !es[i].StopBy?
  }

  predicate Undisturbed(es: seq<Event>) {
    forall i :: 0 <= i < |es| ==> !es[i].StopBy? && !es[i].CompletionTimer?
  }

  predicate OrphanedAt(s: State, es: seq<Event>, i: nat) {
    i < |es| && Orphans(Run(s, es[..i]), es[i]) && NoStop(es[i + 1..])
  }

  predicate CompletedAt(s: State, es: seq<Event>, i: nat) {
    && i < |es|
    && Run(s, es[..i]).state == IN_PROGRESS && !Run(s, es[..i]).stopping
    && Completes(Run(s, es[..i]), es[i]) && Undisturbed(es[i + 1..])
  }

  lemma {:induction false} RunConcat(s: State, es: seq<Event>, fs: seq<Event>)
    ensures Run(s, es + fs) == Run(Run(s, es), fs)
    decreases |es|
  {
    hide Step;
    if es == [] {
      assert es + fs == fs;
    } else {
      assert (es + fs)[1..] == es[1..] + fs;
      RunConcat(Step(s, es[0]), es[1..], fs);
    }
  }

  lemma RunLast(s: State, es: seq<Event>)
    requires es != []
    ensures Run(s, es) == Step(Run(s, es[..|es| - 1]), es[|es| - 1])
  {
    hide Step;
    var last := [es[|es| - 1]];
    assert es == es[..|es| - 1] + last;
    RunConcat(s, es[..|es| - 1], last);
    assert last[1..] == [];
  }

  /** Over every run: the rate timer is pending if and only if the last send that took place was
      asked for a delay and left room in the window, and the session has not ended since. (Then no
      posted handler is: see `SingleSender`.) */
  lemma {:induction false} DelayedRun(s: State, es: seq<Event>)
    requires Inv(s) && !s.wake.rateTimer
    ensures Run(s, es).wake.rateTimer ==> !Run(s, es).stopping
    ensures Run(s, es).wake.rateTimer <==> exists i: nat :: DelayedAt(s, es, i)
    decreases |es|
  {
    if es == [] { return; }
    var n := |es| - 1;
    var init, e := es[..n], es[n];
    RunLast(s, es);
    RunKeeps(s, init);
    DelayedRun(s, init);
    DelayStep(Run(s, init), e);
    hide Run, Step, Inv, Delays, EndsDelay;
    assert forall k :: 0 <= k <= n ==> es[..k] == init[..k];
    assert DelayedAt(s, es, n) <==> Delays(Run(s, init), e);
    forall i: nat | i < n
      ensures DelayedAt(s, es, i) <==> DelayedAt(s, init, i) && !EndsDelay(Run(s, init), e)
    {
      assert es[..n] == init && es[i] == init[i];
    }
    if i: nat :| DelayedAt(s, init, i) { assert i < n; }
  }

  lemma OrphanLast(s: State, e: Event)
    requires Inv(s)
    ensures Orphaned(Step(s, e)) <==> (Orphaned(s) && !e.StopBy?) || Orphans(s, e)
  {
    if Orphaned(s) { StepKeeps(s, e); } else { OrphanStep(s, e); }
  }

  lemma CompletionLast(s: State, e: Event)
    requires Inv(s)
    ensures var r := Step(s, e);
            r.state == COMPLETED && !r.stopping <==>
            || (s.state == COMPLETED && !s.stopping && !e.StopBy? && !e.CompletionTimer?)
            || (s.state == IN_PROGRESS && !s.stopping && Completes(s, e))
  {
    if !s.stopping && s.state == IN_PROGRESS { CompletionStep(s, e); }
  }

  lemma NoStopLast(es: seq<Event>, i: nat)
    requires i < |es| - 1
    ensures var init := es[..|es| - 1];
            && es[..i] == init[..i] && es[i] == init[i]
            && (NoStop(es[i + 1..]) <==> NoStop(init[i + 1..]) && !es[|es| - 1].StopBy?)
            && (Undisturbed(es[i + 1..]) <==>
                Undisturbed(init[i + 1..]) && !es[|es| - 1].StopBy? && !es[|es| - 1].CompletionTimer?)
  {
    assert es[i + 1..] == es[..|es| - 1][i + 1..] + [es[|es| - 1]];
  }

  /** Over every run: a session is without a wake-up at the end of its file if and only if some
      acknowledgement that ended its wait there left something under way, and no stop has come
      since. */
  lemma {:induction false} OrphanedRun(s: State, es: seq<Event>)
    requires Inv(s) && !Orphaned(s)
    ensures Orphaned(Run(s, es)) <==> exists i: nat :: OrphanedAt(s, es, i)
    decreases |es|
  {
    if es == [] { return; }
    var n := |es| - 1;
    var init, e := es[..n], es[n];
    RunLast(s, es);
    RunKeeps(s, init);
    OrphanedRun(s, init);
    OrphanLast(Run(s, init), e);
    assert es[n + 1..] == [];
    hide Run, Step, Inv, Orphaned, Orphans;
    assert OrphanedAt(s, es, n) <==> Orphans(Run(s, init), e);
    forall i: nat | i < n ensures OrphanedAt(s, es, i) <==> OrphanedAt(s, init, i) && !e.StopBy? { NoStopLast(es, i); }
    if i: nat :| OrphanedAt(s, init, i) { assert i < n; }
  }

  /** And it is complete by itself if and only if one of the two steps that complete it was
      taken, and neither a stop nor its last timer has come since. */
  lemma {:induction false} CompletedRun(s: State, es: seq<Event>)
    requires Inv(s) && s.state == IN_PROGRESS
    ensures Run(s, es).state == COMPLETED && !Run(s, es).stopping <==> exists i: nat :: CompletedAt(s, es, i)
    decreases |es|
  {
    if es == [] { return; }
    var n := |es| - 1;
    var init, e := es[..n], es[n];
    RunLast(s, es);
    RunKeeps(s, init);
    CompletedRun(s, init);
    CompletionLast(Run(s, init), e);
    assert es[n + 1..] == [];
    hide Run, Step, Inv, Completes;
    var at := Run(s, init);
    assert CompletedAt(s, es, n) <==> at.state == IN_PROGRESS && !at.stopping && Completes(at, e);
    forall i: nat | i < n
      ensures CompletedAt(s, es, i) <==> CompletedAt(s, init, i) && !e.StopBy? && !e.CompletionTimer?
    {
      NoStopLast(es, i);
    }
    if i: nat :| CompletedAt(s, init, i) { assert i < n; }
  }

  /** What is known of a session at the end of its file without looking into its events. */
  predicate AtEnd(s: State) {
    Inv(s) && !s.stopping && s.state == IN_PROGRESS && s.input.eof && !Orphaned(s)
  }

  /** Sends and input; the timers that end a session are left to `HowItEnds`. */
  predicate Ordinary(es: seq<Event>) {
    forall i :: 0 <= i < |es| ==> es[i].PostedSend? || es[i].RateTimer? || es[i].Receive?
  }

  /** The bytes under way when the outcome is decided, for a session at the end of its file
      with `wake` pending: by a send handler that finds nothing under way, or by the first
      acknowledgement of a waiting session that leaves less than a window; -1 if neither comes. */
  function LeftOver(inFlight: nat, wake: Wake, window: nat, chunk: nat, es: seq<Event>): (left: int)
    requires Ordinary(es)
    ensures -1 <= left <= inFlight
    decreases |es|
  {
    if es == [] then -1
    else if !es[0].Receive? then
      if (es[0].PostedSend? && wake.posted == 0) || (es[0].RateTimer? && !wake.rateTimer) then
        LeftOver(inFlight, wake, window, chunk, es[1..])
      else if inFlight == 0 then 0
      else LeftOver(inFlight, Wake(0, false, true, true), window, chunk, es[1..])
    else
      var bytes := if es[0].bytes > 0 then es[0].bytes else chunk;
      if !es[0].isObject || inFlight < bytes then LeftOver(inFlight, wake, window, chunk, es[1..])
      else if !wake.waiting || inFlight - bytes >= window then LeftOver(inFlight - bytes, wake, window, chunk, es[1..])
      else inFlight - bytes
  }

  predicate Due(w: Wake, e: Event) {
    (e.PostedSend? && w.posted > 0) || (e.RateTimer? && w.rateTimer)
  }

  lemma EndSend(s: State, e: Event)
    requires AtEnd(s) && (e.PostedSend? || e.RateTimer?)
    ensures var r := Step(s, e);
            if !Due(s.wake, e) then r == s
            else if s.inFlight == 0 then Inv(r) && !r.stopping && r.state == COMPLETED && SameTransfer(s, r)
            else AtEnd(r) && SameTransfer(s, r) && r.inFlight == s.inFlight && r.wake == Wake(0, false, true, true)
  {
    StepKeeps(s, e);
    StepFixed(s, e);
  }

  lemma EndAck(s: State, e: Event)
    requires AtEnd(s) && e.Receive?
    ensures var r, bytes := Step(s, e), Confirmed(s, e.bytes);
            if !e.isObject || s.inFlight < bytes then r == s
            else
              && Inv(r) && !r.stopping && SameTransfer(s, r) && r.inFlight == s.inFlight - bytes
              && if !s.wake.waiting || r.inFlight >= s.window then AtEnd(r) && r.wake == s.wake
                 else if r.inFlight == 0 then r.state == COMPLETED
                 else Orphaned(r)
  {
    StepKeeps(s, e);
    StepFixed(s, e);
  }

  lemma LeftOverSend(s: State, es: seq<Event>)
    requires Ordinary(es) && es != [] && !es[0].Receive?
    ensures LeftOver(s.inFlight, s.wake, s.window, s.chunk, es) ==
            if !Due(s.wake, es[0]) then LeftOver(s.inFlight, s.wake, s.window, s.chunk, es[1..])
            else if s.inFlight == 0 then 0
            else LeftOver(s.inFlight, Wake(0, false, true, true), s.window, s.chunk, es[1..])
  {
  }

  lemma LeftOverAck(s: State, es: seq<Event>)
    requires Ordinary(es) && es != [] && es[0].Receive?
    ensures var bytes := Confirmed(s, es[0].bytes);
            LeftOver(s.inFlight, s.wake, s.window, s.chunk, es) ==
            if !es[0].isObject || s.inFlight < bytes then LeftOver(s.inFlight, s.wake, s.window, s.chunk, es[1..])
            else if !s.wake.waiting || s.inFlight - bytes >= s.window then
              LeftOver(s.inFlight - bytes, s.wake, s.window, s.chunk, es[1..])
            else s.inFlight - bytes
  {
  }

  /** One event at the end of the file: the outcome is decided now, or later from what it leaves. */
  lemma EndStep(s: State, es: seq<Event>)
    requires AtEnd(s) && es != [] && Ordinary(es)
    ensures var r, left := Step(s, es[0]), LeftOver(s.inFlight, s.wake, s.window, s.chunk, es);
            && Inv(r) && !r.stopping && SameTransfer(s, r) && s.chunk > 0
            && (AtEnd(r) ==> left == LeftOver(r.inFlight, r.wake, r.window, r.chunk, es[1..]))
            && (!AtEnd(r) && r.state == COMPLETED ==> left == 0)
            && (!AtEnd(r) && r.state != COMPLETED ==> Orphaned(r) && left > 0)
  {
    assert s.chunk > 0;
    hide LeftOver, Step, Inv;
    if es[0].Receive? {
      LeftOverAck(s, es);
      EndAck(s, es[0]);
    } else {
      LeftOverSend(s, es);
      EndSend(s, es[0]);
    }
  }

  /** For every state at the end of the file and every order of sends and acknowledgements: the
      session completes if and only if the outcome is decided with nothing under way, and is
      left without a wake-up if and only if it is decided with something. */
  lemma {:induction false} DrainOutcome(s: State, es: seq<Event>)
    requires AtEnd(s) && Ordinary(es)
    ensures var r, left := Run(s, es), LeftOver(s.inFlight, s.wake, s.window, s.chunk, es);
            && (r.state == COMPLETED <==> left == 0)
            && (Orphaned(r) <==> left > 0)
            && (AtEnd(r) <==> left == -1)
    decreases |es|
  {
    if es != [] {
      var r := Step(s, es[0]);
      EndStep(s, es);
      hide Step, Inv;
      if AtEnd(r) {
        DrainOutcome(r, es[1..]);
      } else if r.state == COMPLETED {
        CompletedStays(r, es[1..]);
      } else {
        OrphanStays(r, es[1..]);
      }
    }
  }

  lemma {:induction false} CompletedStays(s: State, es: seq<Event>)
    requires Inv(s) && !s.stopping && s.state == COMPLETED && s.chunk > 0 && Ordinary(es)
    ensures Run(s, es) == s
    decreases |es|
  {
    if es != [] {
      assert Step(s, es[0]) == s;
      CompletedStays(s, es[1..]);
    }
  }

  /** Nothing but a stop ever moves an orphaned session, not even the last byte's confirmation. */
  lemma {:induction false} OrphanStays(s: State, es: seq<Event>)
    requires Orphaned(s) && NoStop(es)
    ensures Orphaned(Run(s, es))
    decreases |es|
  {
    if es != [] {
      OrphanLast(s, es[0]);
      hide Step, Orphaned;
      OrphanStays(Step(s, es[0]), es[1..]);
    }
  }

  /** The server's stop is what completes an orphaned session of a file that is not empty. */
  lemma OrphanNeedsTheServer(s: State, es: seq<Event>)
    requires Orphaned(s) && NoStop(es)
    ensures var r := Run(s, es);
            && r.state == IN_PROGRESS
            && (Step(r, StopBy(SERVER_STOP)).state == COMPLETED <==> s.input.file != [])
  {
    OrphanStays(s, es);
    RunFixed(s, es);
  }

  // ---- how a session gets there -----------------------------------------------------

  /** A send with room for all of the file. */
  lemma RoomySend(s: State)
    requires Inv(s) && !s.stopping && s.state == IN_PROGRESS && s.wake == Wake(1, false, false, false)
    requires s.chunk > 0 && s.acked == 0 && 0 < |s.input.file| < s.window
    ensures var r := Step(s, PostedSend(false));
            && Inv(r) && !r.stopping && r.state == IN_PROGRESS && r.acked == 0 && SameTransfer(s, r)
            && if r.wake == s.wake then r.transferred > s.transferred || (r.input.eof && !s.input.eof)
               else Draining(r) && r.inFlight == |s.input.file|
  {
    StepKeeps(s, PostedSend(false));
    StepFixed(s, PostedSend(false));
  }

  lemma {:induction false} SendAll(s: State) returns (es: seq<Event>)
    requires Inv(s) && !s.stopping && s.state == IN_PROGRESS && s.wake == Wake(1, false, false, false)
    requires s.chunk > 0 && s.acked == 0 && 0 < |s.input.file| < s.window
    ensures var r := Run(s, es);
            NoStop(es) && Draining(r) && SameTransfer(s, r) && r.acked == 0 && r.inFlight == |s.input.file|
    decreases |s.input.file| - s.transferred, Flag(!s.input.eof)
  {
    var send := PostedSend(false);
    var r := Step(s, send);
    RoomySend(s);
    hide Step;
    if r.wake == s.wake {
      var more := SendAll(r);
      es := [send] + more;
      assert es[1..] == more;
    } else {
      es := [send];
      assert es[1..] == [];
    }
  }

  lemma TwoAcks(s: State)
    requires Draining(s) && s.acked == 0 && 0 < s.chunk < s.inFlight < s.window
    ensures var r := Run(s, [Receive(true, s.chunk), Receive(true, s.inFlight - s.chunk)]);
            Orphaned(r) && r.inFlight == 0 && r.acked == s.inFlight
  {
    var first, second := Receive(true, s.chunk), Receive(true, s.inFlight - s.chunk);
    var r := Step(s, first);
    OrphanStep(s, first);
    StepConfirms(s, s.chunk);
    StepConfirms(r, s.inFlight - s.chunk);
    OrphanLast(r, second);
    hide Step, Orphaned;
    assert Run(s, [first, second]) == Run(r, [second]) == Step(r, second);
  }

  /** Any file of more than a chunk and less than a window gets there: all of it is sent before
      the first confirmation, that one is for a chunk and the next for all the rest. */
  lemma OrphanIsReachable(file: Content, chunk: nat, window: nat) returns (es: seq<Event>)
    requires 0 < chunk < |file| < window
    ensures var s := Run(Started(file, chunk, window), es);
            NoStop(es) && Orphaned(s) && s.inFlight == 0 && s.acked == |file|
  {
    var first := Started(file, chunk, window);
    var sends := SendAll(first);
    var acks := [Receive(true, chunk), Receive(true, |file| - chunk)];
    es := sends + acks;
    RunConcat(first, sends, acks);
    TwoAcks(Run(first, sends));
  }

  /** So it happens to files of more than 64 KB and less than 2 MB at the sizes the program uses. */
  lemma OrphanAtDefaultSizes(file: Content)
    requires DEFAULT_CHUNK_SIZE < |file| < DEFAULT_WINDOW_SIZE
    ensures exists es ::
              NoStop(es) && Orphaned(Run(Started(file, DEFAULT_CHUNK_SIZE, DEFAULT_WINDOW_SIZE), es))
  {
    var es := OrphanIsReachable(file, DEFAULT_CHUNK_SIZE, DEFAULT_WINDOW_SIZE);
  }

  /** The program never makes chunks empty; a session that had such would complete at its first
      send, having sent nothing. */
  lemma EmptyChunks(file: Content, window: nat, limited: bool)
    requires window > 0
    ensures var s := Step(Started(file, 0, window), PostedSend(limited)); s.state == COMPLETED && s.out == []
  {
  }
}
