/** The upload session under a bandwidth limit: an acknowledgement that is not the last may be
    delayed by a timer, which remembers how many bytes it stands for.

    Whether the limit asks for a delay is the free choice `limited`; everything else is the
    session of `Upload`. */
module UploadLimit {
  import opened Bytes
  import opened FileTransfer
  import U = Upload

  datatype State = State(u: U.State, delayed: Option<nat>)

  datatype Event =
    | Chunk(data: Content, writes: bool, limited: bool)
    | RateTimer
    | OtherInput
    | ReceiveTimer
    | StopBy(reason: StopReason)

  function Started(expected: nat, chunk: nat): State {
    State(U.Started(expected, chunk), None)
  }

  predicate Due(u: U.State) {
    u.sinceAck >= u.threshold || U.IsLast(u)
  }

  /** A delay replaces the one before; an acknowledgement sent at once leaves it armed. */
  function Receive(s: State, data: Content, limited: bool): State {
    var t := U.Take(s.u, data);
    if Due(t) && limited && !U.IsLast(t) then State(t, Some(t.sinceAck))
    else State(U.Settle(t), s.delayed)
  }

  /** The delayed acknowledgement goes out for the bytes it was made for, and the count of
      unconfirmed bytes starts anew, whatever it is by now. */
  function TimerFires(s: State): State
    requires s.delayed.Some?
  {
    var number := (s.u.ackNumber + 1) % TWO32;
    State(s.u.(ackNumber := number, acks := s.u.acks + [Ack(number, s.delayed.value)], sinceAck := 0), None)
  }

  predicate Accepts(s: State, e: Event) {
    !s.u.stopping && e.Chunk? && e.data != [] && e.writes && s.u.state == IN_PROGRESS && s.u.file.open
  }

  function Step(s: State, e: Event): State {
    if s.u.stopping then s
    else
      match e
      case Chunk(data, writes, limited) =>
        if Accepts(s, e) then Receive(s, data, limited)
        else
          var r := U.Step(s.u, U.Chunk(data, writes));
          State(r, if r.stopping then None else s.delayed)
      case RateTimer => if s.delayed.Some? then TimerFires(s) else s
      case OtherInput => s
      case ReceiveTimer =>
        var r := U.Step(s.u, U.ReceiveTimer);
        State(r, if r.stopping then None else s.delayed)
      case StopBy(reason) => State(U.Step(s.u, U.StopBy(reason)), None)
  }

  function Run(s: State, es: seq<Event>): State
    decreases |es|
  {
    if es == [] then s else Run(Step(s, es[0]), es[1..])
  }

  // ---- accounting -------------------------------------------------------------------

  /** The bytes confirmed beyond those received. */
  function Excess(s: State): int {
    AckedBytes(s.u.acks) + s.u.sinceAck - s.u.received
  }

  predicate Accounted(s: State) {
    Excess(s) == 0
  }

  /** A delayed acknowledgement stands for the unconfirmed bytes, or for more than there are. */
  predicate Inv(s: State) {
    && (s.delayed == None ==> s.u.sinceAck == 0 || s.u.sinceAck < s.u.threshold || s.u.state != IN_PROGRESS)
    && (s.delayed.Some? ==>
          && s.delayed.value > 0 && s.delayed.value >= s.u.threshold
          && (s.u.sinceAck == s.delayed.value || s.u.sinceAck == 0 || s.u.sinceAck < s.u.threshold))
    && Excess(s) >= 0
    && (s.u.stopping ==> s.delayed == None)
    && (!s.u.stopping ==> s.u.file.open)
    && |s.u.file.content| == s.u.received
  }

  /** The acknowledgements are numbered one after the other, state, file and timer are in step. */
  predicate Shape(u: U.State) {
    && u.ackNumber == |u.acks| % TWO32 && Numbered(u.acks)
    && (!u.stopping ==> u.file.open && u.file.present && u.receiveTimer == Some(u.received))
    && (!u.stopping ==> u.state == IN_PROGRESS || u.state == COMPLETED)
    && (u.stopping ==> !u.file.open && u.state != IN_PROGRESS && (u.file.present <==> u.state == COMPLETED))
    && (u.state == IN_PROGRESS ==> !U.IsLast(u))
    && (u.state == COMPLETED ==> U.IsLast(u) && u.sinceAck == 0)
  }

  predicate Good(s: State) {
    Inv(s) && Shape(s.u)
  }

  lemma StepShape(s: State, e: Event)
    requires Good(s)
    ensures Shape(Step(s, e).u)
  {
    if Accepts(s, e) {
      NumberedSnoc(s.u.acks, U.Take(s.u, e.data).sinceAck);
    } else if e.RateTimer? && s.delayed.Some? {
      NumberedSnoc(s.u.acks, s.delayed.value);
    }
    hide AckedBytes, Numbered;
  }

  /** The timer fires for another number of bytes than are unconfirmed. */
  predicate Stale(s: State, e: Event) {
    !s.u.stopping && e.RateTimer? && s.delayed.Some? && s.delayed.value != s.u.sinceAck
  }

  lemma ReceiveKeeps(s: State, data: Content, limited: bool)
    requires Inv(s) && !s.u.stopping && s.u.state == IN_PROGRESS && data != []
    ensures Inv(Receive(s, data, limited)) && Excess(Receive(s, data, limited)) == Excess(s)
  {
    var t := U.Take(s.u, data);
    AckedBytesSnoc(s.u.acks, Ack((s.u.ackNumber + 1) % TWO32, t.sinceAck));
    hide AckedBytes;
  }

  /** The exact account of a step: nothing is confirmed that was not received, except by a timer
      that fires for too many bytes. */
  lemma StepAccounts(s: State, e: Event)
    requires Inv(s)
    ensures Inv(Step(s, e))
    ensures Excess(Step(s, e)) == Excess(s) + if Stale(s, e) then s.delayed.value - s.u.sinceAck else 0
    ensures Stale(s, e) ==> s.delayed.value > s.u.sinceAck
  {
    if Accepts(s, e) { ReceiveKeeps(s, e.data, e.limited); }
    if e.RateTimer? && s.delayed.Some? {
      AckedBytesSnoc(s.u.acks, Ack((s.u.ackNumber + 1) % TWO32, s.delayed.value));
    }
    hide AckedBytes, Receive;
  }

  lemma StepGood(s: State, e: Event)
    requires Good(s)
    ensures Good(Step(s, e))
  {
    hide Inv, Shape, Step, Excess;
    StepAccounts(s, e);
    StepShape(s, e);
  }

  lemma {:induction false} RunGood(s: State, es: seq<Event>)
    requires Good(s)
    ensures Good(Run(s, es))
    decreases |es|
  {
    hide Good, Step;
    if es != [] {
      StepGood(s, es[0]);
      RunGood(Step(s, es[0]), es[1..]);
    }
  }

  /** Over every run at any bandwidth: the acknowledgements are numbered one after the other; the
      file holds what was received and is there until the session ends otherwise than complete;
      the receive timer runs since the last data; complete means that all that was expected has
      arrived, and in progress that it has not. */
  lemma LimitedSession(expected: nat, chunk: nat, es: seq<Event>)
    ensures var u := Run(Started(expected, chunk), es).u;
            && Numbered(u.acks)
            && |u.file.content| == u.received
            && (u.file.present <==> !u.stopping || u.state == COMPLETED)
            && (!u.stopping ==> u.receiveTimer == Some(u.received))
            && (u.state == COMPLETED ==> u.received >= u.expected > 0 && u.sinceAck == 0)
            && (u.state == IN_PROGRESS ==> u.expected == 0 || u.received < u.expected)
  {
    StartedTimely(expected, chunk);
    RunGood(Started(expected, chunk), es);
    hide Run, Started, Numbered;
  }

  predicate NeverStale(s: State, es: seq<Event>)
    decreases |es|
  {
    es == [] || (!Stale(s, es[0]) && NeverStale(Step(s, es[0]), es[1..]))
  }

  lemma {:induction false} RunAccounts(s: State, es: seq<Event>)
    requires Inv(s)
    ensures Excess(Run(s, es)) >= Excess(s)
    ensures Excess(Run(s, es)) == Excess(s) <==> NeverStale(s, es)
    decreases |es|
  {
    if es != [] {
      StepAccounts(s, es[0]);
      hide Step, Inv, Excess;
      RunAccounts(Step(s, es[0]), es[1..]);
    }
  }

  /** Over every run at any bandwidth: confirmed and unconfirmed bytes make up the bytes received
      if and only if no timer has fired for another number of bytes than were unconfirmed; else
      more has been confirmed than was received. */
  lemma LimitedAccounting(expected: nat, chunk: nat, es: seq<Event>)
    ensures var s := Run(Started(expected, chunk), es).u;
            && AckedBytes(s.acks) + s.sinceAck >= s.received
            && (AckedBytes(s.acks) + s.sinceAck == s.received <==> NeverStale(Started(expected, chunk), es))
  {
    RunAccounts(Started(expected, chunk), es);
  }

  /** What a chunk does to the acknowledgements: below the threshold nothing; at the threshold it is
      confirmed, at once or, if the limit asks for it, by the timer, which is set anew for all that
      is unconfirmed; the last chunk always at once. */
  lemma ChunkOutcome(s: State, e: Event)
    requires Good(s) && Accepts(s, e)
    ensures var r, due := Step(s, e), s.u.sinceAck + |e.data|;
            var last := s.u.received + |e.data| >= s.u.expected > 0;
            && r.u.received == s.u.received + |e.data| && r.u.file.content == s.u.file.content + e.data
            && (if last || (due >= s.u.threshold && !e.limited)
                then r.u.acks == s.u.acks + [Ack(r.u.ackNumber, due)] && r.u.sinceAck == 0 && r.delayed == s.delayed
                else if due >= s.u.threshold
                then r.u.acks == s.u.acks && r.u.sinceAck == due && r.delayed == Some(due)
                else r.u.acks == s.u.acks && r.u.sinceAck == due && r.delayed == s.delayed)
            && r.u.state == if last then COMPLETED else IN_PROGRESS
  {
  }

  /** The delayed acknowledgement goes out under the next number for the bytes it was made for, and
      what is unconfirmed counts as confirmed. */
  lemma TimerOutcome(s: State)
    requires Good(s) && !s.u.stopping && s.delayed.Some?
    ensures var r := Step(s, RateTimer);
            && r.u.acks == s.u.acks + [Ack((|s.u.acks| + 1) % TWO32, s.delayed.value)]
            && r.u.sinceAck == 0 && r.delayed == None
            && r.u.received == s.u.received && r.u.file == s.u.file && r.u.state == s.u.state
  {
  }

  /** Nothing happens to a stopped session. */
  lemma StoppedForGood(s: State, e: Event)
    requires s.u.stopping
    ensures Step(s, e) == s
  {
  }

  // ---- when a timer becomes stale ---------------------------------------------------

  /** What is delayed, if anything, is what is unconfirmed. */
  predicate Timely(s: State) {
    s.delayed.Some? ==> s.delayed.value == s.u.sinceAck
  }

  /** An acknowledgement is sent at once while another one is delayed. */
  predicate Overtakes(s: State, e: Event) {
    Accepts(s, e) && s.delayed.Some? && (!e.limited || U.IsLast(U.Take(s.u, e.data)))
  }

  lemma TimelyStep(s: State, e: Event)
    requires Inv(s) && Timely(s)
    ensures Timely(Step(s, e)) <==> !Overtakes(s, e)
    ensures !Stale(s, e)
  {
  }

  predicate NeverOvertakes(s: State, es: seq<Event>)
    decreases |es|
  {
    es == [] || (!Overtakes(s, es[0]) && NeverOvertakes(Step(s, es[0]), es[1..]))
  }

  /** The timer is set anew, fires, or is stopped with the session. */
  predicate Clears(s: State, e: Event) {
    || (Accepts(s, e) && e.limited && !U.IsLast(U.Take(s.u, e.data)) && Due(U.Take(s.u, e.data)))
    || (e.RateTimer? && s.delayed.Some?)
    || Step(s, e).u.stopping
  }

  /** Nothing else makes a stale delay right again. */
  lemma UntimelyStep(s: State, e: Event)
    requires Inv(s) && !Timely(s)
    ensures Timely(Step(s, e)) <==> Clears(s, e)
  {
  }

  lemma OvertakenIsUntimely(s: State, e: Event)
    requires Inv(s) && Overtakes(s, e)
    ensures !Timely(Step(s, e))
  {
  }

  /** An acknowledgement was sent at once at `i` while another one was delayed, and that one is
      delayed still. */
  predicate OvertakenAt(s: State, es: seq<Event>, i: nat) {
    && i < |es| && Overtakes(Run(s, es[..i]), es[i])
    && forall k :: i < k < |es| ==> !Clears(Run(s, es[..k]), es[k])
  }

  lemma {:induction false} RunLast(s: State, es: seq<Event>)
    requires es != []
    ensures Run(s, es) == Step(Run(s, es[..|es| - 1]), es[|es| - 1])
    decreases |es|
  {
    hide Step;
    if |es| > 1 {
      RunLast(Step(s, es[0]), es[1..]);
      assert es[1..][..|es| - 2] == es[..|es| - 1][1..];
    }
  }

  lemma {:induction false} RunKeeps(s: State, es: seq<Event>)
    requires Inv(s)
    ensures Inv(Run(s, es))
    decreases |es|
  {
    hide Inv, Step;
    if es != [] {
      StepAccounts(s, es[0]);
      RunKeeps(Step(s, es[0]), es[1..]);
    }
  }

  lemma NotOvertakenLast(s: State, es: seq<Event>, before: seq<Event>)
    requires es != [] && before == es[..|es| - 1] && !Overtakes(Run(s, before), es[|es| - 1])
    ensures (exists i :: OvertakenAt(s, es, i)) ==> exists i :: OvertakenAt(s, before, i)
  {
    hide Run, Overtakes, Clears;
    assert forall k :: 0 <= k < |es| ==> before[..k] == es[..k];
    if i :| OvertakenAt(s, es, i) { assert OvertakenAt(s, before, i); }
  }

  /** The delay is stale after exactly these histories. */
  lemma {:induction false} UntimelyHistory(s: State, es: seq<Event>)
    requires Inv(s) && Timely(s)
    ensures !Timely(Run(s, es)) <==> exists i :: OvertakenAt(s, es, i)
    decreases |es|
  {
    hide Inv, Step, Timely, Overtakes, Clears;
    if es != [] {
      var before, e := es[..|es| - 1], es[|es| - 1];
      var r := Run(s, before);
      RunLast(s, es);
      RunKeeps(s, before);
      UntimelyHistory(s, before);
      hide Run;
      assert forall k :: 0 <= k < |es| ==> before[..k] == es[..k];
      if Overtakes(r, e) {
        OvertakenIsUntimely(r, e);
        assert OvertakenAt(s, es, |before|);
      } else if Timely(r) {
        TimelyStep(r, e);
        NotOvertakenLast(s, es, before);
      } else {
        UntimelyStep(r, e);
        var i :| OvertakenAt(s, before, i);
        if !Clears(r, e) {
          assert OvertakenAt(s, es, i);
        }
      }
    }
  }

  predicate LateAt(s: State, es: seq<Event>, i: nat, j: nat) {
    j < |es| && es[j].RateTimer? && OvertakenAt(s, es[..j], i)
  }

  lemma {:induction false} StaleSomewhere(s: State, es: seq<Event>)
    ensures NeverStale(s, es) <==> forall j :: 0 <= j < |es| ==> !Stale(Run(s, es[..j]), es[j])
    decreases |es|
  {
    hide Step, Stale;
    if es != [] {
      var r := Step(s, es[0]);
      StaleSomewhere(r, es[1..]);
      assert Run(s, es[..0]) == s;
      forall j | 0 <= j < |es[1..]| ensures Run(s, es[..j + 1]) == Run(r, es[1..][..j]) {
        assert es[..j + 1][1..] == es[1..][..j];
      }
      if NeverStale(s, es) {
        forall j | 0 <= j < |es| ensures !Stale(Run(s, es[..j]), es[j]) {
          if j > 0 { assert es[j] == es[1..][j - 1] && Run(s, es[..j]) == Run(r, es[1..][..j - 1]); }
        }
      } else if !Stale(s, es[0]) {
        var j :| 0 <= j < |es[1..]| && Stale(Run(r, es[1..][..j]), es[1..][j]);
        assert Stale(Run(s, es[..j + 1]), es[j + 1]);
      }
    }
  }

  lemma StaleHistory(s: State, es: seq<Event>, e: Event)
    requires Inv(s) && Timely(s)
    ensures Stale(Run(s, es), e) <==> e.RateTimer? && exists i :: OvertakenAt(s, es, i)
  {
    RunKeeps(s, es);
    UntimelyHistory(s, es);
    hide Run, OvertakenAt;
  }

  /** More is confirmed than was received after exactly these histories: an acknowledgement was
      sent at once while another one was delayed, and the delayed one went out after all. */
  lemma OverConfirms(expected: nat, chunk: nat, es: seq<Event>)
    ensures var first := Started(expected, chunk); var s := Run(first, es).u;
            AckedBytes(s.acks) + s.sinceAck > s.received <==> exists i, j :: LateAt(first, es, i, j)
  {
    var first := Started(expected, chunk);
    LimitedAccounting(expected, chunk, es);
    StartedTimely(expected, chunk);
    hide Started, Run, OvertakenAt, NeverStale, Stale, Inv, Timely, AckedBytes;
    StaleSomewhere(first, es);
    forall j: nat | j < |es|
      ensures Stale(Run(first, es[..j]), es[j]) <==> exists i :: LateAt(first, es, i, j)
    {
      StaleHistory(first, es[..j], es[j]);
      if i :| OvertakenAt(first, es[..j], i) && es[j].RateTimer? { assert LateAt(first, es, i, j); }
    }
  }

  lemma StartedTimely(expected: nat, chunk: nat)
    ensures Good(Started(expected, chunk)) && Timely(Started(expected, chunk))
  {
  }

  /** So the account is right as long as the session never confirms at once while it delays. */
  lemma {:induction false} TimelyRuns(s: State, es: seq<Event>)
    requires Inv(s) && Timely(s) && NeverOvertakes(s, es)
    ensures NeverStale(s, es)
    decreases |es|
  {
    if es != [] {
      TimelyStep(s, es[0]);
      StepAccounts(s, es[0]);
      hide Step, Inv, Timely, Stale, Overtakes;
      TimelyRuns(Step(s, es[0]), es[1..]);
    }
  }

  /** The last chunk does so: a file of two chunks, the first confirmed late, is confirmed for one
      chunk more than it has. */
  lemma LateForTheLast(chunk: nat, first: Content, last: Content)
    requires chunk > 0 && |first| == |last| == chunk <= MAX_ACK_THRESHOLD
    ensures var es := [Chunk(first, true, true), Chunk(last, true, true), RateTimer];
            var s := Run(Started(2 * chunk, chunk), es).u;
            s.state == COMPLETED && s.received == 2 * chunk && AckedBytes(s.acks) == 3 * chunk
  {
    var s0 := Started(2 * chunk, chunk);
    assert s0.u.threshold == chunk;
    var a, b, c := Chunk(first, true, true), Chunk(last, true, true), RateTimer;
    var s1 := Step(s0, a);
    assert s1.delayed == Some(chunk) && s1.u.received == s1.u.sinceAck == chunk && s1.u.acks == [];
    var s2 := Step(s1, b);
    assert s2.delayed == Some(chunk) && s2.u.state == COMPLETED && s2.u.acks == [Ack(1, 2 * chunk)];
    var s3 := Step(s2, c);
    assert s3.u.acks == [Ack(1, 2 * chunk), Ack(2, chunk)] && s3.u.received == 2 * chunk;
    AckedBytesSnoc([Ack(1, 2 * chunk)], Ack(2, chunk));
    assert [Ack(1, 2 * chunk)] + [Ack(2, chunk)] == s3.u.acks && [Ack(1, 2 * chunk)][1..] == [];
    assert AckedBytes([Ack(1, 2 * chunk)]) == 2 * chunk;
    hide Step;
    RunThree(s0, a, b, c);
  }

  lemma RunThree(s: State, a: Event, b: Event, c: Event)
    ensures Run(s, [a, b, c]) == Step(Step(Step(s, a), b), c)
  {
    hide Step;
    assert [a, b, c][1..] == [b, c] && [b, c][1..] == [c] && [c][1..] == [];
    assert Run(s, [a, b, c]) == Run(Step(s, a), [b, c]) == Run(Step(Step(s, a), b), [c]);
  }

  // ---- without a limit --------------------------------------------------------------

  function Unlimited(e: Event): U.Event {
    match e
    case Chunk(data, writes, _) => U.Chunk(data, writes)
    case ReceiveTimer => U.ReceiveTimer
    case StopBy(reason) => U.StopBy(reason)
    case _ => U.OtherInput
  }

  /** A session that is asked for no delay is the session of `Upload`. */
  lemma NoLimit(s: State, e: Event)
    requires s.delayed == None && (e.Chunk? ==> !e.limited)
    ensures Step(s, e) == State(U.Step(s.u, Unlimited(e)), None)
  {
  }
}
