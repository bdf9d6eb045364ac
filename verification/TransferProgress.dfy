/** When a transfer over two channels comes to its end, and when it stalls.

    The sender stops after the first chunk that fills its window, the receiver confirms only
    after its threshold: if the threshold lies beyond what the sender dares to send, and so
    does the file, both wait for each other. */
module TransferProgress {
  import opened FileTransfer
  import opened TransferLink
  import D = Download
  import U = Upload

  /** The receiver confirms, or has it all, before the window is full of whole chunks. */
  predicate Live(threshold: nat, size: nat, window: nat, chunk: nat)
    requires chunk > 0
  {
    threshold <= RoundUp(window, chunk) || size <= RoundUp(window, chunk)
  }

  /** The receiver has the file and says so, and every byte is confirmed to the sender. */
  predicate Done(l: Link) {
    && l.u.state == COMPLETED && l.u.file.content == l.d.input.file
    && l.d.inFlight == 0 && l.d.acked == |l.d.input.file|
  }

  lemma QuietIsEmpty(l: Link)
    requires Inv(l) && Quiet(l)
    ensures l.d.inFlight == l.u.sinceAck
    ensures l.u.file.content == l.d.input.file[..l.d.transferred]
  {
    Conserved(l);
    assert l.d.out[l.taken..] == [] && l.u.acks[l.heard..] == [];
    assert l.u.file.content + [] == l.u.file.content;
  }

  lemma ReceivedAll(l: Link)
    requires Inv(l) && Quiet(l) && l.u.state == COMPLETED
    ensures Done(l)
  {
    QuietIsEmpty(l);
    assert l.d.transferred == |l.d.input.file|;
    assert l.d.input.file[..|l.d.input.file|] == l.d.input.file;
  }

  /** The only way to come to rest before the end: the sender waits with a full window, the
      receiver below its threshold, and more of the file is to come. */
  lemma RestsOnlyIfStalled(l: Link)
    requires Inv(l) && Quiet(l) && l.u.state == IN_PROGRESS && l.d.window > 0 && l.d.input.file != []
    ensures !Live(l.u.threshold, |l.d.input.file|, l.d.window, l.d.chunk)
  {
    QuietIsEmpty(l);
    assert l.d.transferred < |l.d.input.file|;
    assert l.d.state == IN_PROGRESS && !l.d.input.eof && l.d.wake.waiting;
    assert l.d.inFlight >= l.d.window;
    RoundUpMonotone(l.d.window, l.d.inFlight, l.d.chunk);
  }

  /** Whatever the interleaving: a live transfer that has come to rest has delivered the file. */
  lemma LiveTransfersArrive(file: Content, chunk: nat, window: nat, receiverChunk: nat, es: seq<Event>)
    requires file != [] && chunk > 0 && window > 0
    requires Live(AckThreshold(|file|, receiverChunk), |file|, window, chunk)
    requires Quiet(Run(Opened(file, chunk, window, receiverChunk), es))
    ensures var l := Run(Opened(file, chunk, window, receiverChunk), es);
            && Done(l) && l.u.file.content == file
            && D.Step(l.d, D.StopBy(SERVER_STOP)).state == COMPLETED
            && U.Step(l.u, U.StopBy(SERVER_STOP)).file.present
  {
    var first := Opened(file, chunk, window, receiverChunk);
    OpenedInv(file, chunk, window, receiverChunk);
    RunKeeps(first, es);
    var l := Run(first, es);
    if l.u.state == IN_PROGRESS { RestsOnlyIfStalled(l); }
    ReceivedAll(l);
  }

  // ---- stalling ---------------------------------------------------------------------

  /** Every chunk so far is delivered and none is confirmed. */
  predicate Filling(l: Link) {
    && Inv(l)
    && l.d.state == IN_PROGRESS && !l.d.input.eof && l.d.wake == D.Wake(1, false, false, false)
    && l.d.inFlight < l.d.window
    && l.taken == |l.d.out| && l.u.acks == [] && l.u.state == IN_PROGRESS
    && !Live(l.u.threshold, |l.d.input.file|, l.d.window, l.d.chunk)
  }

  lemma FillingCounts(l: Link)
    requires Filling(l)
    ensures l.d.transferred == l.d.inFlight == l.u.sinceAck == l.u.received
    ensures l.d.transferred + l.d.chunk <= RoundUp(l.d.window, l.d.chunk)
  {
    Conserved(l);
    RoomForAChunk(l.d.inFlight, l.d.window, l.d.chunk);
  }

  lemma RoomForAChunk(sent: nat, window: nat, chunk: nat)
    requires chunk > 0 && sent < window && Whole(sent, chunk)
    ensures sent + chunk <= RoundUp(window, chunk)
  {
    assert RoundUp(1, chunk) == chunk;
    RoundUpPastWhole(1, sent, chunk);
    RoundUpMonotone(sent + 1, window, chunk);
  }

  /** One more chunk sent and delivered: the receiver stays silent. */
  lemma FillOne(l: Link)
    requires Filling(l)
    ensures var r := Step(Step(l, Send(false)), DeliverData);
            && r.d.transferred == l.d.transferred + l.d.chunk && SameTransfer(l, r)
            && r.u.state == IN_PROGRESS
            && if r.d.inFlight < r.d.window then Filling(r) else Quiet(r)
  {
    FillingCounts(l);
    D.SendFills(l.d);
    StepKeeps(l, Send(false));
    StepFixed(l, Send(false));
    var m := Step(l, Send(false));
    assert |m.d.out| == |l.d.out| + 1 && m.u == l.u && m.taken == l.taken;
    assert |m.d.out[m.taken]| == l.d.chunk;
    StepKeeps(m, DeliverData);
    StepFixed(m, DeliverData);
    ReceiverWaits(m);
    U.ChunkWrites(m.u, m.d.out[m.taken]);
    SilentBelowThreshold(m.u, m.d.out[m.taken]);
  }

  lemma SilentBelowThreshold(u: U.State, data: Content)
    requires U.Inv(u) && !u.stopping && u.state == IN_PROGRESS && data != []
    requires u.sinceAck + |data| < u.threshold && u.received + |data| < u.expected
    ensures var r := U.Step(u, U.Chunk(data, true)); r.acks == u.acks && r.state == IN_PROGRESS
  {
  }

  lemma {:induction false} FillUp(l: Link) returns (es: seq<Event>)
    requires Filling(l)
    ensures Quiet(Run(l, es)) && Run(l, es).u.state == IN_PROGRESS
    decreases l.d.window - l.d.transferred
  {
    var pair := [Send(false), DeliverData];
    var r := Step(Step(l, Send(false)), DeliverData);
    FillOne(l);
    FillingCounts(l);
    assert pair[1..] == [DeliverData] && Run(l, pair) == Run(Step(l, Send(false)), pair[1..]) == r;
    hide Step, Inv;
    if r.d.inFlight < r.d.window {
      FillingCounts(r);
      var more := FillUp(r);
      es := pair + more;
      RunConcat(l, pair, more);
    } else {
      es := pair;
    }
  }

  /** Nothing is confirmed and nothing will be: no more than the window's chunks are ever sent. */
  predicate Stuck(l: Link) {
    && Inv(l) && l.u.acks == [] && l.u.state == IN_PROGRESS
    && !Live(l.u.threshold, |l.d.input.file|, l.d.window, l.d.chunk)
    && l.d.transferred <= RoundUp(l.d.window, l.d.chunk)
  }

  lemma SendKeepsStuck(l: Link, limited: bool)
    requires Stuck(l) && Enabled(l, Send(limited))
    ensures Stuck(Step(l, Send(limited)))
  {
    var e := SendEvent(l, limited);
    StepKeeps(l, Send(limited));
    StepFixed(l, Send(limited));
    D.StepSendsWhole(l.d, e);
    assert l.d.acked == 0 && l.d.inFlight == l.d.transferred;
    var r := D.Step(l.d, e);
    hide D.Step, D.Inv;
    if r.transferred > l.d.transferred { RoomForAChunk(l.d.inFlight, l.d.window, l.d.chunk); }
  }

  lemma DeliverKeepsStuck(l: Link)
    requires Stuck(l) && Enabled(l, DeliverData)
    ensures Stuck(Step(l, DeliverData))
  {
    var p := l.d.out[l.taken];
    StepKeeps(l, DeliverData);
    StepFixed(l, DeliverData);
    Conserved(l);
    assert |DataInTransit(l)| >= |p| > 0;
    assert |l.u.file.content + DataInTransit(l)| == l.d.transferred;
    SilentBelowThreshold(l.u, p);
  }

  lemma {:induction false} StuckForEver(l: Link, es: seq<Event>)
    requires Stuck(l)
    ensures Stuck(Run(l, es))
    decreases |es|
  {
    if es != [] {
      if Enabled(l, es[0]) {
        if es[0].Send? { SendKeepsStuck(l, es[0].limited); }
        if es[0].DeliverData? { DeliverKeepsStuck(l); }
      }
      assert Stuck(Step(l, es[0]));
      hide Step, Stuck;
      StuckForEver(Step(l, es[0]), es[1..]);
    }
  }

  /** A transfer that is not live never completes, in any interleaving: nothing is ever confirmed
      and no more than the window's whole chunks ever arrive. */
  lemma OthersNeverArrive(file: Content, chunk: nat, window: nat, receiverChunk: nat, es: seq<Event>)
    requires chunk > 0 && !Live(AckThreshold(|file|, receiverChunk), |file|, window, chunk)
    ensures var l := Run(Opened(file, chunk, window, receiverChunk), es);
            && l.u.state == IN_PROGRESS && l.u.acks == [] && l.d.acked == 0
            && |l.u.file.content| <= RoundUp(window, chunk) < |file|
  {
    var first := Opened(file, chunk, window, receiverChunk);
    OpenedInv(file, chunk, window, receiverChunk);
    StuckForEver(first, es);
    RunKeeps(first, es);
    Conserved(Run(first, es));
  }

  /** For a window and chunks that are not empty: every interleaving of the transfer that comes
      to rest has delivered the file, if and only if the sizes are live; if they are not, none
      has delivered it at any time. */
  lemma ArrivesIffLive(file: Content, chunk: nat, window: nat, receiverChunk: nat)
    requires file != [] && chunk > 0 && window > 0
    ensures Live(AckThreshold(|file|, receiverChunk), |file|, window, chunk)
            <==> forall es :: Quiet(Run(Opened(file, chunk, window, receiverChunk), es)) ==>
                                Done(Run(Opened(file, chunk, window, receiverChunk), es))
    ensures !Live(AckThreshold(|file|, receiverChunk), |file|, window, chunk) ==>
              forall es :: !Done(Run(Opened(file, chunk, window, receiverChunk), es))
  {
    var first := Opened(file, chunk, window, receiverChunk);
    OpenedInv(file, chunk, window, receiverChunk);
    if Live(AckThreshold(|file|, receiverChunk), |file|, window, chunk) {
      forall es | Quiet(Run(first, es)) ensures Done(Run(first, es)) {
        LiveTransfersArrive(file, chunk, window, receiverChunk, es);
      }
    } else {
      var es := FillUp(first);
      assert Quiet(Run(first, es)) && !Done(Run(first, es));
      forall es ensures !Done(Run(first, es)) { OthersNeverArrive(file, chunk, window, receiverChunk, es); }
    }
  }

  /** Here the receiver only stands in for the server: an upload session of the device is not made
      for a size of zero. Of an empty file nothing is sent: the sender completes, the receiver, which takes the size
      for unknown, never does, and the server's stop removes its empty file. */
  lemma EmptyFile(chunk: nat, window: nat, receiverChunk: nat, es: seq<Event>)
    requires chunk > 0 && window > 0 && Quiet(Run(Opened([], chunk, window, receiverChunk), es))
    ensures var l := Run(Opened([], chunk, window, receiverChunk), es);
            && l.d.state == COMPLETED && l.u.state == IN_PROGRESS && l.u.file.content == []
            && !U.Step(l.u, U.StopBy(SERVER_STOP)).file.present
  {
    var first := Opened([], chunk, window, receiverChunk);
    OpenedInv([], chunk, window, receiverChunk);
    RunKeeps(first, es);
    var l := Run(first, es);
    QuietIsEmpty(l);
    EmptySenderWakes(first, es);
  }

  /** The wake-ups of a sender with nothing to send. */
  lemma {:induction false} EmptySenderWakes(l: Link, es: seq<Event>)
    requires Inv(l) && l.d.input.file == [] && l.d.window > 0
    requires l.d.state == COMPLETED || l.d.wake.posted > 0
    ensures Run(l, es).d.state == COMPLETED || Run(l, es).d.wake.posted > 0
    decreases |es|
  {
    if es != [] {
      EmptySenderStep(l, es[0]);
      StepKeeps(l, es[0]);
      StepFixed(l, es[0]);
      hide Inv, Step;
      EmptySenderWakes(Step(l, es[0]), es[1..]);
    }
  }

  lemma EmptySenderStep(l: Link, e: Event)
    requires Inv(l) && l.d.input.file == [] && l.d.window > 0
    requires l.d.state == COMPLETED || l.d.wake.posted > 0
    ensures Step(l, e).d.state == COMPLETED || Step(l, e).d.wake.posted > 0
  {
    Conserved(l);
    hide Agree, Pieces, U.Inv, U.Step;
    if Enabled(l, e) && e.DeliverAck? { AckIsCovered(l); }
  }

  /** Without a window the sender never sends anything. */
  lemma NoWindowNoTransfer(file: Content, chunk: nat, receiverChunk: nat, es: seq<Event>)
    requires chunk > 0
    ensures Run(Opened(file, chunk, 0, receiverChunk), es).u.file.content == []
  {
    var first := Opened(file, chunk, 0, receiverChunk);
    OpenedInv(file, chunk, 0, receiverChunk);
    RunKeeps(first, es);
    Conserved(Run(first, es));
  }

  /** The receiver's threshold never exceeds a megabyte, so a window of that size is enough;
      the default window is twice that. */
  lemma DefaultWindowIsLive(size: nat, receiverChunk: nat, window: nat, chunk: nat)
    requires chunk > 0 && size > 0
    ensures window >= MAX_ACK_THRESHOLD ==> Live(AckThreshold(size, receiverChunk), size, window, chunk)
    ensures Live(AckThreshold(size, receiverChunk), size, DEFAULT_WINDOW_SIZE, chunk)
  {
    assert RoundUp(window, chunk) >= window && RoundUp(DEFAULT_WINDOW_SIZE, chunk) >= DEFAULT_WINDOW_SIZE;
  }

  // ---- termination ------------------------------------------------------------------

  function Measure(l: Link): int
    requires l.taken <= |l.d.out|
  {
    D.Measure(l.d) + (|l.d.input.file| - l.d.transferred) + 2 * |DataInTransit(l)| + l.u.sinceAck
  }

  function EnabledSteps(l: Link, es: seq<Event>): nat
    decreases |es|
  {
    if es == [] then 0
    else D.Flag(Enabled(l, es[0])) + EnabledSteps(Step(l, es[0]), es[1..])
  }

  lemma SendDecreases(l: Link, limited: bool)
    requires Inv(l) && Enabled(l, Send(limited))
    ensures Inv(Step(l, Send(limited))) && Measure(Step(l, Send(limited))) < Measure(l)
  {
    StepKeeps(l, Send(limited));
    var r := Step(l, Send(limited));
    D.StepDecreases(l.d, SendEvent(l, limited));
    D.StepSendsWhole(l.d, SendEvent(l, limited));
    D.StepFixed(l.d, SendEvent(l, limited));
    Conserved(l);
    Conserved(r);
  }

  lemma DeliverDecreases(l: Link, e: Event)
    requires Inv(l) && Enabled(l, e) && !e.Send?
    ensures Inv(Step(l, e)) && Measure(Step(l, e)) < Measure(l)
  {
    StepKeeps(l, e);
    if e.DeliverAck? {
      AckIsCovered(l);
      D.StepConfirms(l.d, l.u.acks[l.heard].bytes);
      D.StepDecreases(l.d, D.Receive(true, l.u.acks[l.heard].bytes));
    } else {
      var p := l.d.out[l.taken];
      ReceiverWaits(l);
      U.ChunkConfirms(l.u, p);
      assert DataInTransit(l) == p + DataInTransit(Step(l, e)) by {
        assert l.d.out[l.taken..][1..] == l.d.out[l.taken + 1..];
      }
    }
  }

  /** However the steps interleave and however bandwidth delays them, there are boundedly many. */
  lemma {:induction false} StepBound(l: Link, es: seq<Event>)
    requires Inv(l)
    ensures Inv(Run(l, es)) && EnabledSteps(l, es) + Measure(Run(l, es)) <= Measure(l)
    decreases |es|
  {
    if es != [] {
      var r := Step(l, es[0]);
      StepKeeps(l, es[0]);
      if Enabled(l, es[0]) {
        if es[0].Send? { SendDecreases(l, es[0].limited); } else { DeliverDecreases(l, es[0]); }
      }
      StepBound(r, es[1..]);
    }
  }

  lemma TransfersEnd(file: Content, chunk: nat, window: nat, receiverChunk: nat, es: seq<Event>)
    requires chunk > 0
    ensures EnabledSteps(Opened(file, chunk, window, receiverChunk), es) <= 5 * |file| + 4
  {
    var first := Opened(file, chunk, window, receiverChunk);
    OpenedInv(file, chunk, window, receiverChunk);
    StepBound(first, es);
  }
}
