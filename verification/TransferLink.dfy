/** A download session and an upload session joined by two first-in first-out channels: the
    payloads travel one way, the acknowledgements the other. Bandwidth at the receiver is
    unlimited and no timeout fires.

    A channel is the output of one side from the place the other side has read it to. */
module TransferLink {
  import opened FileTransfer
  import D = Download
  import U = Upload

  datatype Link = Link(d: D.State, u: U.State, taken: nat, heard: nat)

  datatype Event = Send(limited: bool) | DeliverData | DeliverAck

  /** Both sessions just started; the receiver expects the size the file has. */
  function Opened(file: Content, chunk: nat, window: nat, receiverChunk: nat): Link {
    Link(D.Started(file, chunk, window), U.Started(|file|, receiverChunk), 0, 0)
  }

  predicate Enabled(l: Link, e: Event) {
    match e
    case Send(_) => l.d.wake.posted > 0 || l.d.wake.rateTimer
    case DeliverData => l.taken < |l.d.out|
    case DeliverAck => l.heard < |l.u.acks|
  }

  function SendEvent(l: Link, limited: bool): D.Event {
    if l.d.wake.posted > 0 then D.PostedSend(limited) else D.RateTimer(limited)
  }

  function Step(l: Link, e: Event): Link {
    if !Enabled(l, e) then l
    else
      match e
      case Send(limited) => l.(d := D.Step(l.d, SendEvent(l, limited)))
      case DeliverData => l.(u := U.Step(l.u, U.Chunk(l.d.out[l.taken], true)), taken := l.taken + 1)
      case DeliverAck => l.(d := D.Step(l.d, D.Receive(true, l.u.acks[l.heard].bytes)), heard := l.heard + 1)
  }

  function Run(l: Link, es: seq<Event>): Link
    decreases |es|
  {
    if es == [] then l else Run(Step(l, es[0]), es[1..])
  }

  lemma {:induction false} RunConcat(l: Link, es: seq<Event>, fs: seq<Event>)
    ensures Run(l, es + fs) == Run(Run(l, es), fs)
    decreases |es|
  {
    hide Step;
    if es == [] {
      assert es + fs == fs;
    } else {
      assert (es + fs)[1..] == es[1..] + fs;
      RunConcat(Step(l, es[0]), es[1..], fs);
    }
  }

  /** No step is left but timeouts and stops. */
  predicate Quiet(l: Link) {
    !Enabled(l, Send(false)) && !Enabled(l, DeliverData) && !Enabled(l, DeliverAck)
  }

  // ---- invariant --------------------------------------------------------------------

  /** The two ends of a channel agree on what went through it. */
  predicate Agree(l: Link) {
    && l.taken <= |l.d.out| && l.heard <= |l.u.acks|
    && l.u.file.content == Joined(l.d.out[..l.taken])
    && l.d.acked == AckedBytes(l.u.acks[..l.heard])
  }

  predicate Ends(l: Link) {
    && D.Inv(l.d) && !l.d.stopping
    && U.Inv(l.u) && !l.u.stopping
    && l.u.expected == |l.d.input.file|
    && l.d.chunk > 0
    && Joined(l.d.out) == l.d.input.file[..l.d.transferred]
  }

  /** Payloads are never empty, and all of one chunk until the end of the file is seen; so
      what the receiver confirms comes in whole chunks. */
  predicate Pieces(l: Link) {
    && l.d.chunk > 0
    && (forall i :: 0 <= i < |l.d.out| ==> l.d.out[i] != [])
    && (!l.d.input.eof ==>
          && (forall i :: 0 <= i < |l.d.out| ==> |l.d.out[i]| == l.d.chunk)
          && (forall k :: 0 <= k < |l.u.acks| ==> Whole(l.u.acks[k].bytes, l.d.chunk))
          && Whole(l.u.sinceAck, l.d.chunk) && Whole(l.d.inFlight, l.d.chunk))
  }

  predicate Inv(l: Link) {
    Ends(l) && Agree(l) && Pieces(l)
  }

  // ---- what is where ----------------------------------------------------------------

  lemma {:induction false} JoinedSplit(parts: seq<Content>, k: nat)
    requires k <= |parts|
    ensures Joined(parts) == Joined(parts[..k]) + Joined(parts[k..])
  {
    if k == 0 {
      assert parts[0..] == parts;
    } else {
      JoinedSplit(parts[1..], k - 1);
      assert parts[..k][1..] == parts[1..][..k - 1] && parts[1..][k - 1..] == parts[k..];
    }
  }

  lemma {:induction false} AckedSplit(acks: seq<Ack>, k: nat)
    requires k <= |acks|
    ensures AckedBytes(acks) == AckedBytes(acks[..k]) + AckedBytes(acks[k..])
  {
    if k == 0 {
      assert acks[0..] == acks;
    } else {
      AckedSplit(acks[1..], k - 1);
      assert acks[..k][1..] == acks[1..][..k - 1] && acks[1..][k - 1..] == acks[k..];
    }
  }

  function DataInTransit(l: Link): Content
    requires l.taken <= |l.d.out|
  {
    Joined(l.d.out[l.taken..])
  }

  function AcksInTransit(l: Link): nat
    requires l.heard <= |l.u.acks|
  {
    AckedBytes(l.u.acks[l.heard..])
  }

  /** The receiver has a prefix of the file, the rest of what was sent is in transit, and every
      byte the sender counts as under way is in exactly one place. */
  lemma Conserved(l: Link)
    requires Ends(l) && Agree(l)
    ensures l.u.file.content + DataInTransit(l) == l.d.input.file[..l.d.transferred]
    ensures l.d.inFlight == |DataInTransit(l)| + l.u.sinceAck + AcksInTransit(l)
  {
    JoinedSplit(l.d.out, l.taken);
    AckedSplit(l.u.acks, l.heard);
  }

  // ---- every step keeps it ----------------------------------------------------------

  lemma OpenedInv(file: Content, chunk: nat, window: nat, receiverChunk: nat)
    requires chunk > 0
    ensures Inv(Opened(file, chunk, window, receiverChunk))
  {
  }

  lemma WholeChunks(n: nat, chunk: nat)
    requires chunk > 0 && Whole(n, chunk)
    ensures Whole(n + chunk, chunk)
  {
  }

  lemma WholeLess(n: nat, m: nat, chunk: nat)
    requires chunk > 0 && m <= n && Whole(n, chunk) && Whole(m, chunk)
    ensures Whole(n - m, chunk)
  {
    RoundUpPastWhole(n - m, m, chunk);
  }

  /** A send of the link is the one handler of the sender that is pending, asked for a delay or not:
      with something to read and room behind it, the rate timer or a posted handler is what is
      pending next. */
  lemma SendOutcome(l: Link, limited: bool)
    requires Inv(l) && Enabled(l, Send(limited)) && l.d.state == IN_PROGRESS && !l.d.input.eof
    requires l.d.inFlight < l.d.window && D.NextPayload(l.d.input, l.d.chunk) != []
    ensures var p, r := D.NextPayload(l.d.input, l.d.chunk), Step(l, Send(limited));
            && r.d.out == l.d.out + [p] && r.u == l.u && r.taken == l.taken && r.heard == l.heard
            && (r.d.inFlight < r.d.window ==> (r.d.wake.rateTimer <==> limited) && (r.d.wake.posted == 1 <==> !limited))
  {
    D.SendOutcome(l.d, SendEvent(l, limited));
    D.StepFixed(l.d, SendEvent(l, limited));
    hide D.Step, D.Inv, U.Inv;
  }

  lemma SendKeepsEnds(l: Link, limited: bool)
    requires Inv(l) && Enabled(l, Send(limited))
    ensures Ends(Step(l, Send(limited)))
  {
    var d, e := l.d, SendEvent(l, limited);
    D.StepKeeps(d, e);
    D.StepGoesOn(d, e);
    D.StepFixed(d, e);
    D.StepSends(d, e);
    var to := D.Step(d, e).transferred;
    if to > d.transferred { D.PayloadExtends(d.out, d.input.file, d.transferred, to); }
  }

  lemma SendKeepsAgree(l: Link, limited: bool)
    requires Inv(l) && Enabled(l, Send(limited))
    ensures Agree(Step(l, Send(limited)))
  {
    var d, e := l.d, SendEvent(l, limited);
    D.StepSends(d, e);
    D.StepSendsWhole(d, e);
    assert D.Step(d, e).out[..l.taken] == d.out[..l.taken];
  }

  lemma SendKeepsPieces(l: Link, limited: bool)
    requires Inv(l) && Enabled(l, Send(limited))
    ensures Pieces(Step(l, Send(limited)))
  {
    var d, e := l.d, SendEvent(l, limited);
    D.StepKeeps(d, e);
    D.StepFixed(d, e);
    D.StepSends(d, e);
    D.StepSendsWhole(d, e);
    PiecesAfterSend(l, D.Step(d, e));
  }

  lemma PiecesAfterSend(l: Link, r: D.State)
    requires Inv(l) && D.Accounted(r) && D.Sends(l.d, r) && D.SameTransfer(l.d, r) && r.acked == l.d.acked
    requires !r.input.eof ==> !l.d.input.eof
    requires !r.input.eof ==> r.transferred == l.d.transferred || r.transferred == l.d.transferred + l.d.chunk
    ensures Pieces(l.(d := r))
  {
    if !r.input.eof && r.transferred > l.d.transferred {
      assert r.inFlight == l.d.inFlight + l.d.chunk;
      WholeChunks(l.d.inFlight, l.d.chunk);
    }
  }

  /** Data in transit finds the receiver still waiting for it. */
  lemma ReceiverWaits(l: Link)
    requires Inv(l) && Enabled(l, DeliverData)
    ensures l.u.state == IN_PROGRESS
  {
    Conserved(l);
    assert l.d.out[l.taken] != [];
    assert |DataInTransit(l)| > 0;
    assert |l.u.file.content + DataInTransit(l)| == l.d.transferred;
  }

  lemma DeliverDataKeeps(l: Link)
    requires Inv(l) && Enabled(l, DeliverData)
    ensures Inv(Step(l, DeliverData))
  {
    var u, p := l.u, l.d.out[l.taken];
    ReceiverWaits(l);
    U.ChunkWrites(u, p);
    U.ChunkConfirms(u, p);
    AgreeAfterData(l, U.Step(u, U.Chunk(p, true)));
    PiecesAfterData(l, U.Step(u, U.Chunk(p, true)));
  }

  lemma AgreeAfterData(l: Link, r: U.State)
    requires Inv(l) && Enabled(l, DeliverData)
    requires r.file.content == l.u.file.content + l.d.out[l.taken] && l.u.acks <= r.acks
    ensures Agree(l.(u := r, taken := l.taken + 1))
  {
    assert l.d.out[..l.taken + 1] == l.d.out[..l.taken] + [l.d.out[l.taken]];
    JoinedSnoc(l.d.out[..l.taken], l.d.out[l.taken]);
    assert r.acks[..l.heard] == l.u.acks[..l.heard];
  }

  lemma PiecesAfterData(l: Link, r: U.State)
    requires Inv(l) && Enabled(l, DeliverData)
    requires var due := l.u.sinceAck + |l.d.out[l.taken]|;
             (r.acks == l.u.acks && r.sinceAck == due)
             || (r.acks == l.u.acks + [Ack(r.ackNumber, due)] && r.sinceAck == 0)
    ensures Pieces(l.(u := r, taken := l.taken + 1))
  {
    if !l.d.input.eof {
      assert |l.d.out[l.taken]| == l.d.chunk;
      WholeChunks(l.u.sinceAck, l.d.chunk);
    }
  }

  /** No acknowledgement is discarded: each one says no more than what is under way. */
  lemma AckIsCovered(l: Link)
    requires Inv(l) && Enabled(l, DeliverAck)
    ensures 0 < l.u.acks[l.heard].bytes <= l.d.inFlight
    ensures var r := Step(l, DeliverAck).d;
            r.acked == l.d.acked + l.u.acks[l.heard].bytes && r.inFlight == l.d.inFlight - l.u.acks[l.heard].bytes
  {
    Conserved(l);
    assert l.u.acks[l.heard].bytes <= AcksInTransit(l);
    D.StepConfirms(l.d, l.u.acks[l.heard].bytes);
  }

  lemma DeliverAckKeeps(l: Link)
    requires Inv(l) && Enabled(l, DeliverAck)
    ensures Inv(Step(l, DeliverAck))
  {
    var e := D.Receive(true, l.u.acks[l.heard].bytes);
    AckIsCovered(l);
    D.StepKeeps(l.d, e);
    D.StepGoesOn(l.d, e);
    D.StepFixed(l.d, e);
    D.StepConfirms(l.d, l.u.acks[l.heard].bytes);
    AgreeAfterAck(l, D.Step(l.d, e));
    PiecesAfterAck(l, D.Step(l.d, e));
    hide D.Step, D.Inv, U.Inv, Pieces, Agree;
  }

  lemma AgreeAfterAck(l: Link, r: D.State)
    requires Agree(l) && Enabled(l, DeliverAck)
    requires r.acked == l.d.acked + l.u.acks[l.heard].bytes && r.out == l.d.out
    ensures Agree(l.(d := r, heard := l.heard + 1))
  {
    assert l.u.acks[..l.heard + 1] == l.u.acks[..l.heard] + [l.u.acks[l.heard]];
    AckedBytesSnoc(l.u.acks[..l.heard], l.u.acks[l.heard]);
  }

  lemma PiecesAfterAck(l: Link, r: D.State)
    requires Pieces(l) && Enabled(l, DeliverAck) && l.u.acks[l.heard].bytes <= l.d.inFlight
    requires r.inFlight == l.d.inFlight - l.u.acks[l.heard].bytes && r.input == l.d.input
    requires r.out == l.d.out && r.chunk == l.d.chunk
    ensures Pieces(l.(d := r, heard := l.heard + 1))
  {
    if !l.d.input.eof { WholeLess(l.d.inFlight, l.u.acks[l.heard].bytes, l.d.chunk); }
  }

  lemma StepKeeps(l: Link, e: Event)
    requires Inv(l)
    ensures Inv(Step(l, e))
  {
    if Enabled(l, e) {
      match e
      case Send(limited) =>
        SendKeepsEnds(l, limited);
        SendKeepsAgree(l, limited);
        SendKeepsPieces(l, limited);
      case DeliverData => DeliverDataKeeps(l);
      case DeliverAck => DeliverAckKeeps(l);
    }
  }

  predicate SameTransfer(l: Link, r: Link) {
    r.d.chunk == l.d.chunk && r.d.window == l.d.window && r.d.input.file == l.d.input.file
    && r.u.expected == l.u.expected && r.u.threshold == l.u.threshold
  }

  lemma StepFixed(l: Link, e: Event)
    ensures SameTransfer(l, Step(l, e))
  {
    if Enabled(l, e) {
      match e
      case Send(limited) => D.StepFixed(l.d, SendEvent(l, limited));
      case DeliverData =>
      case DeliverAck => D.StepFixed(l.d, D.Receive(true, l.u.acks[l.heard].bytes));
    }
  }

  lemma {:induction false} RunKeeps(l: Link, es: seq<Event>)
    requires Inv(l)
    ensures Inv(Run(l, es)) && SameTransfer(l, Run(l, es))
    decreases |es|
  {
    if es != [] {
      StepKeeps(l, es[0]);
      StepFixed(l, es[0]);
      RunKeeps(Step(l, es[0]), es[1..]);
    }
  }

  /** In every reachable state: the receiver has a prefix of the file and the rest of what was
      sent is in transit, the bytes under way are the data in transit, the bytes not yet
      confirmed and the confirmations in transit, and none of these will be discarded. */
  lemma EveryByteIsSomewhere(file: Content, chunk: nat, window: nat, receiverChunk: nat, es: seq<Event>)
    requires chunk > 0
    ensures var l := Run(Opened(file, chunk, window, receiverChunk), es);
            && l.taken <= |l.d.out| && l.heard <= |l.u.acks| && l.d.transferred <= |file|
            && l.u.file.content + DataInTransit(l) == file[..l.d.transferred]
            && l.d.inFlight == |DataInTransit(l)| + l.u.sinceAck + AcksInTransit(l)
            && (Enabled(l, DeliverAck) ==> 0 < l.u.acks[l.heard].bytes <= l.d.inFlight)
            && (Enabled(l, DeliverData) ==> l.u.state == IN_PROGRESS)
  {
    var first := Opened(file, chunk, window, receiverChunk);
    OpenedInv(file, chunk, window, receiverChunk);
    RunKeeps(first, es);
    var l := Run(first, es);
    Conserved(l);
    if Enabled(l, DeliverAck) { AckIsCovered(l); }
    if Enabled(l, DeliverData) { ReceiverWaits(l); }
  }
}
