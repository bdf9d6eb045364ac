/** The client's socket carries more than the queue of its writer: the handshake, the streams of
    server events and the request interface write their frames directly and wait for them. A
    write hands its bytes over in pieces, so that two writes under way at once may mix.

    `State` is the writer's state with what its present socket has to do: the writes begun on it
    in order, the bytes it has carried, and whether a byte of one write has ever overtaken a
    byte of an earlier one. */
module SharedSocket {
  import opened Bytes
  import W = WriteQueue

  datatype Write<B> = Write(data: seq<B>, direct: bool, underWay: bool, sent: nat)

  datatype State<B> = State(
    queue: W.State<seq<B>>,
    open: bool,
    writes: seq<Write<B>>,
    stream: seq<B>,
    torn: bool)

  datatype Event<B> =
    | Queue(e: W.Event<seq<B>>)
    | DirectBegin(data: seq<B>)
    | DirectEnds(k: nat, failed: bool)
    | Carry(k: nat)
    | OldWriteFails

  function Initial<B>(): State<B> {
    State(W.Initial(false), false, [], [], false)
  }

  predicate Unsent<B>(w: Write<B>) {
    w.sent < |w.data|
  }

  predicate Busy<B>(w: Write<B>) {
    w.underWay && Unsent(w)
  }

  /** The loop's write comes back. */
  function Settled<B>(writes: seq<Write<B>>): (r: seq<Write<B>>)
    ensures |r| == |writes|
  {
    seq(|writes|, i requires 0 <= i < |writes| =>
      if writes[i].direct then writes[i] else writes[i].(underWay := false))
  }

  /** A write succeeds only when the socket has taken all of it. */
  predicate Enabled<B>(s: State<B>, e: Event<B>) {
    match e
    case Queue(q) =>
      && W.Enabled(W.Client, s.queue, q)
      && (q.WriteDone? && W.Current(s.queue) != [] ==>
            forall i :: 0 <= i < |s.writes| && !s.writes[i].direct ==> !Busy(s.writes[i]))
    case DirectBegin(_) => true
    case DirectEnds(k, failed) =>
      && k < |s.writes| && s.writes[k].direct && s.writes[k].underWay
      && (!failed ==> !Unsent(s.writes[k]))
    case Carry(k) => s.open && k < |s.writes| && Busy(s.writes[k])
    case OldWriteFails => true
  }

  /** The writes of the socket after the loop's own has come back, if `e` says so. */
  function Returned<B>(s: State<B>, e: W.Event<seq<B>>): (r: seq<Write<B>>)
    ensures |r| == |s.writes|
  {
    if (e.WriteDone? || e.WriteFails?) && W.Current(s.queue) != [] then Settled(s.writes) else s.writes
  }

  function QueueStep<B>(s: State<B>, e: W.Event<seq<B>>): State<B> {
    var q := W.Step(W.Client, s.queue, e);
    if e.NewSocket? then State(q, true, [], [], false)
    else if (e.Start? || e.WriteDone?) && W.Current(q) != [] then
      s.(queue := q, writes := Returned(s, e) + [Write(W.Current(q)[0], false, true, 0)])
    else s.(queue := q, writes := Returned(s, e), open := s.open && !e.WriteFails?)
  }

  /** A write that fails closes the client's socket, whichever socket it was begun on. */
  function Close<B>(s: State<B>): State<B> {
    s.(open := false, queue := W.Step(W.Client, s.queue, W.Disconnect))
  }

  function CarryByte<B>(s: State<B>, k: nat): State<B>
    requires k < |s.writes| && Unsent(s.writes[k])
  {
    var w := s.writes[k];
    s.(stream := s.stream + [w.data[w.sent]], writes := s.writes[k := w.(sent := w.sent + 1)],
       torn := s.torn || exists i :: 0 <= i < k && Unsent(s.writes[i]))
  }

  function Step<B>(s: State<B>, e: Event<B>): State<B> {
    if !Enabled(s, e) then s
    else
      match e
      case Queue(q) => QueueStep(s, q)
      case DirectBegin(data) => s.(writes := s.writes + [Write(data, true, true, 0)])
      case DirectEnds(k, failed) =>
        var r := s.(writes := s.writes[k := s.writes[k].(underWay := false)]);
        if failed then Close(r) else r
      case Carry(k) => CarryByte(s, k)
      case OldWriteFails => Close(s)
  }

  function Run<B>(s: State<B>, es: seq<Event<B>>): State<B>
    decreases |es|
  {
    if es == [] then s else Run(Step(s, es[0]), es[1..])
  }

  // ---- invariant --------------------------------------------------------------------

  /** What the socket has carried if its writes went one after the other. */
  function Carried<B>(writes: seq<Write<B>>): seq<B>
    requires forall i :: 0 <= i < |writes| ==> writes[i].sent <= |writes[i].data|
  {
    if writes == [] then [] else writes[0].data[..writes[0].sent] + Carried(writes[1..])
  }

  predicate Within<B>(writes: seq<Write<B>>) {
    forall i :: 0 <= i < |writes| ==> writes[i].sent <= |writes[i].data|
  }

  /** No write has begun to be carried before the ones begun earlier were through. */
  predicate OneByOne<B>(writes: seq<Write<B>>) {
    forall i, j :: 0 <= i < j < |writes| && writes[j].sent > 0 ==> !Unsent(writes[i])
  }

  /** The messages among the writes that came from the queue. */
  function Queued<B>(writes: seq<Write<B>>): seq<seq<B>> {
    if writes == [] then []
    else (if writes[0].direct then [] else [writes[0].data]) + Queued(writes[1..])
  }

  /** The loop has at most one write under way here, and the writer knows of it. */
  predicate LoopsWrite<B>(writes: seq<Write<B>>, current: bool) {
    && (forall i :: 0 <= i < |writes| && !writes[i].direct && writes[i].underWay ==> current)
    && (forall i, j :: 0 <= i < j < |writes| && !writes[i].direct && !writes[j].direct ==>
          !(writes[i].underWay && writes[j].underWay))
  }

  /** On an open socket every write that has come back is through. */
  predicate Through<B>(writes: seq<Write<B>>, open: bool) {
    open ==> forall i :: 0 <= i < |writes| && !writes[i].underWay ==> !Unsent(writes[i])
  }

  predicate Straight<B(==)>(writes: seq<Write<B>>, stream: seq<B>) {
    Within(writes) && OneByOne(writes) && stream == Carried(writes)
  }

  predicate Inv<B(==)>(s: State<B>) {
    && W.Inv(s.queue)
    && Within(s.writes)
    && Through(s.writes, s.open)
    && LoopsWrite(s.writes, W.Current(s.queue) != [])
    && Queued(s.writes) == s.queue.past.handed[s.queue.past.base..]
    && (!s.torn ==> Straight(s.writes, s.stream))
  }

  /** Two writes of an open socket that are not through at the same time. */
  predicate Contended<B>(s: State<B>) {
    s.open && exists i, j :: 0 <= i < j < |s.writes| && Busy(s.writes[i]) && Busy(s.writes[j])
  }

  // ---- every step keeps it ----------------------------------------------------------

  lemma {:induction false} CarriedSnoc<B>(writes: seq<Write<B>>, w: Write<B>)
    requires Within(writes) && w.sent == 0
    ensures Within(writes + [w]) && Carried(writes + [w]) == Carried(writes)
  {
    if writes == [] {
      assert writes + [w] == [w] && w.data[..0] == [];
    } else {
      CarriedSnoc(writes[1..], w);
      assert (writes + [w])[1..] == writes[1..] + [w];
    }
  }

  lemma {:induction false} QueuedSnoc<B>(writes: seq<Write<B>>, w: Write<B>)
    ensures Queued(writes + [w]) == Queued(writes) + if w.direct then [] else [w.data]
  {
    if writes == [] {
      assert writes + [w] == [w];
    } else {
      QueuedSnoc(writes[1..], w);
      assert (writes + [w])[1..] == writes[1..] + [w];
    }
  }

  /** The same writes, whether they are still under way or not. */
  predicate SameBytes<B(==)>(a: seq<Write<B>>, b: seq<Write<B>>) {
    && |a| == |b|
    && forall i :: 0 <= i < |a| ==> a[i].data == b[i].data && a[i].sent == b[i].sent && a[i].direct == b[i].direct
  }

  lemma {:induction false} SameParts<B>(a: seq<Write<B>>, b: seq<Write<B>>)
    requires SameBytes(a, b) && Within(a)
    ensures Within(b) && Queued(a) == Queued(b) && Carried(a) == Carried(b)
  {
    if a != [] { SameParts(a[1..], b[1..]); }
  }

  lemma SameStraight<B>(a: seq<Write<B>>, b: seq<Write<B>>, stream: seq<B>)
    requires SameBytes(a, b) && Straight(a, stream)
    ensures Straight(b, stream)
  {
    SameParts(a, b);
    hide Carried;
  }

  lemma {:induction false} NothingCarried<B>(writes: seq<Write<B>>)
    requires forall i :: 0 <= i < |writes| ==> writes[i].sent == 0
    ensures Carried(writes) == []
  {
    if writes != [] { NothingCarried(writes[1..]); }
  }

  /** A byte of the first write that is not through comes behind all that was carried. */
  lemma {:induction false} CarryAppends<B>(writes: seq<Write<B>>, k: nat)
    requires Within(writes) && OneByOne(writes) && k < |writes| && Unsent(writes[k])
    ensures var w := writes[k];
            var r := writes[k := w.(sent := w.sent + 1)];
            Within(r) && Carried(r) == Carried(writes) + [w.data[w.sent]]
  {
    var w := writes[k];
    var r := writes[k := w.(sent := w.sent + 1)];
    if k == 0 {
      assert forall j :: 0 < j < |writes| ==> writes[j].sent == 0;
      NothingCarried(writes[1..]);
      assert r[1..] == writes[1..];
      assert w.data[..w.sent + 1] == w.data[..w.sent] + [w.data[w.sent]];
    } else {
      CarryAppends(writes[1..], k - 1);
      assert r[1..] == writes[1..][k - 1 := w.(sent := w.sent + 1)];
    }
  }

  lemma CarryStraight<B>(writes: seq<Write<B>>, stream: seq<B>, k: nat)
    requires Straight(writes, stream) && k < |writes| && Unsent(writes[k])
    requires forall i :: 0 <= i < k ==> !Unsent(writes[i])
    ensures var w := writes[k];
            Straight(writes[k := w.(sent := w.sent + 1)], stream + [w.data[w.sent]])
  {
    CarryAppends(writes, k);
    hide Carried;
  }

  lemma CarryKeeps<B>(s: State<B>, k: nat)
    requires Inv(s) && Enabled(s, Carry(k))
    ensures Inv(CarryByte(s, k))
  {
    var w, r := s.writes[k], CarryByte(s, k);
    SameQueued(s.writes, k, w.(sent := w.sent + 1));
    hide W.Inv, W.Current, Queued, Straight;
    if !r.torn { CarryStraight(s.writes, s.stream, k); }
  }

  lemma {:induction false} SameQueued<B>(writes: seq<Write<B>>, k: nat, w: Write<B>)
    requires k < |writes| && w.data == writes[k].data && w.direct == writes[k].direct
    ensures Queued(writes[k := w]) == Queued(writes)
  {
    if k > 0 {
      SameQueued(writes[1..], k - 1, w);
      assert writes[k := w][1..] == writes[1..][k - 1 := w];
    } else {
      assert writes[k := w][1..] == writes[1..];
    }
  }

  /** A write that begins: nothing of it has been carried. */
  lemma AppendKeeps<B>(writes: seq<Write<B>>, w: Write<B>, open: bool, current: bool)
    requires Within(writes) && Through(writes, open) && LoopsWrite(writes, current)
    requires w.sent == 0 && w.underWay
    requires w.direct || (current && forall i :: 0 <= i < |writes| && !writes[i].direct ==> !writes[i].underWay)
    ensures Within(writes + [w]) && Through(writes + [w], open) && LoopsWrite(writes + [w], current)
  {
  }

  lemma AppendStraight<B>(writes: seq<Write<B>>, w: Write<B>, stream: seq<B>)
    requires Straight(writes, stream) && w.sent == 0
    ensures Straight(writes + [w], stream)
  {
    CarriedSnoc(writes, w);
    hide Carried;
  }

  lemma BeginKeeps<B>(s: State<B>, data: seq<B>)
    requires Inv(s)
    ensures Inv(Step(s, DirectBegin(data)))
  {
    var w := Write(data, true, true, 0);
    AppendKeeps(s.writes, w, s.open, W.Current(s.queue) != []);
    QueuedSnoc(s.writes, w);
    if !s.torn { AppendStraight(s.writes, w, s.stream); }
    hide W.Inv, W.Current, Within, Through, LoopsWrite, Queued, Straight;
  }

  lemma EndKeeps<B>(s: State<B>, k: nat, failed: bool)
    requires Inv(s) && Enabled(s, DirectEnds(k, failed))
    ensures Inv(s.(writes := s.writes[k := s.writes[k].(underWay := false)], open := s.open && !failed))
  {
    var r := s.writes[k := s.writes[k].(underWay := false)];
    SameParts(s.writes, r);
    if !s.torn { SameStraight(s.writes, r, s.stream); }
    hide W.Inv, W.Current, Queued, Straight;
  }

  lemma CloseKeeps<B>(s: State<B>)
    requires Inv(s)
    ensures Inv(Close(s))
  {
    hide W.Inv, Within, LoopsWrite, Queued, Straight;
    W.StepKeeps(W.Client, s.queue, W.Disconnect);
    assert W.Current(W.Step(W.Client, s.queue, W.Disconnect)) == W.Current(s.queue);
    hide W.Current;
  }

  /** What the writer's step does to the record of what it has taken to the present socket. */
  lemma QueueTakes<B>(q: W.State<seq<B>>, e: W.Event<seq<B>>)
    requires W.Inv(q) && W.Enabled(W.Client, q, e)
    ensures var r := W.Step(W.Client, q, e);
            && (e.NewSocket? ==> r.past.handed[r.past.base..] == [] && W.Current(r) == [])
            && (!e.NewSocket? ==> r.past.base == q.past.base)
            && (e.Start? || e.WriteDone? ==>
                  r.past.handed[r.past.base..] == q.past.handed[q.past.base..] + W.Current(r))
            && (!(e.Start? || e.WriteDone? || e.NewSocket?) ==> r.past.handed == q.past.handed)
            && (e.Start? ==> W.Current(q) == [])
            && (e.WriteFails? ==> W.Current(r) == [])
            && (e.Send? || e.Disconnect? || e.Reconnect? ==> W.Current(r) == W.Current(q))
            && |W.Current(r)| <= 1
  {
    var r := W.Step(W.Client, q, e);
    W.StepKeeps(W.Client, q, e);
    if e.Start? || e.WriteDone? {
      if r.past.handed == q.past.handed {
        assert W.Current(r) == [];
      } else {
        assert r.past.handed == q.past.handed + W.Current(r);
      }
    }
  }

  /** Once the loop's write has come back none of its writes is under way. */
  lemma SettledKeeps<B>(writes: seq<Write<B>>, open: bool, current: bool)
    requires Within(writes) && Through(writes, open)
    requires open ==> forall i :: 0 <= i < |writes| && !writes[i].direct ==> !Busy(writes[i])
    ensures SameBytes(writes, Settled(writes))
    ensures Through(Settled(writes), open) && LoopsWrite(Settled(writes), current)
    ensures forall i :: 0 <= i < |writes| && !writes[i].direct ==> !Settled(writes)[i].underWay
  {
  }

  /** The writes after the loop's own has come back: no write of the loop is under way unless the
      writer has one. */
  lemma ReturnedKeeps<B>(s: State<B>, e: W.Event<seq<B>>)
    requires Inv(s) && Enabled(s, Queue(e))
    ensures var r, open := Returned(s, e), s.open && !e.WriteFails?;
            && SameBytes(s.writes, r) && Through(r, open)
            && (e.Start? || e.WriteDone? || e.WriteFails? ==>
                  && LoopsWrite(r, false) && LoopsWrite(r, true)
                  && forall i :: 0 <= i < |r| && !r[i].direct ==> !r[i].underWay)
            && (!(e.Start? || e.WriteDone? || e.WriteFails?) ==> r == s.writes)
  {
    if (e.WriteDone? || e.WriteFails?) && W.Current(s.queue) != [] {
      SettledKeeps(s.writes, s.open && !e.WriteFails?, false);
      SettledKeeps(s.writes, s.open && !e.WriteFails?, true);
    } else if e.Start? {
      assert W.Current(s.queue) == [];
    }
    hide W.Inv, Queued, Straight;
  }

  lemma EmptySocket<B>()
    ensures Straight<B>([], []) && Queued<B>([]) == [] && Within<B>([])
    ensures Through<B>([], true) && LoopsWrite<B>([], false) && LoopsWrite<B>([], true)
  {
  }

  lemma QueueKeeps<B>(s: State<B>, e: W.Event<seq<B>>)
    requires Inv(s) && Enabled(s, Queue(e))
    ensures Inv(QueueStep(s, e))
  {
    hide W.Inv, W.Step, W.Current, Returned, Through, LoopsWrite, Within, Straight, Queued;
    W.StepKeeps(W.Client, s.queue, e);
    QueueTakes(s.queue, e);
    ReturnedKeeps(s, e);
    EmptySocket<B>();
    var q, r := W.Step(W.Client, s.queue, e), Returned(s, e);
    var open := s.open && !e.WriteFails?;
    SameParts(s.writes, r);
    if !s.torn { SameStraight(s.writes, r, s.stream); }
    if (e.Start? || e.WriteDone?) && W.Current(q) != [] {
      var w := Write(W.Current(q)[0], false, true, 0);
      AppendKeeps(r, w, open, true);
      QueuedSnoc(r, w);
      if !s.torn { AppendStraight(r, w, s.stream); }
    }
  }

  lemma StepKeeps<B>(s: State<B>, e: Event<B>)
    requires Inv(s)
    ensures Inv(Step(s, e))
  {
    if Enabled(s, e) {
      match e {
        case Queue(q) => QueueKeeps(s, q);
        case DirectBegin(data) => BeginKeeps(s, data);
        case DirectEnds(k, failed) =>
          EndKeeps(s, k, failed);
          if failed { CloseKeeps(s.(writes := s.writes[k := s.writes[k].(underWay := false)], open := false)); }
        case Carry(k) => CarryKeeps(s, k);
        case OldWriteFails => CloseKeeps(s);
      }
    }
    hide Inv, QueueStep, CarryByte;
  }

  lemma {:induction false} RunKeeps<B>(s: State<B>, es: seq<Event<B>>)
    requires Inv(s)
    ensures Inv(Run(s, es))
    decreases |es|
  {
    hide Inv, Step;
    if es != [] {
      StepKeeps(s, es[0]);
      RunKeeps(Step(s, es[0]), es[1..]);
    }
  }

  /** What a direct write does: it begins with nothing carried behind the writes before it; when it
      comes back it is over, and if it failed the socket is closed and the client disconnected. */
  lemma DirectOutcome<B>(s: State<B>, data: seq<B>, k: nat, failed: bool)
    ensures Step(s, DirectBegin(data)) == s.(writes := s.writes + [Write(data, true, true, 0)])
    ensures Enabled(s, DirectEnds(k, failed)) ==>
              var r := Step(s, DirectEnds(k, failed));
              && |r.writes| == |s.writes| && !r.writes[k].underWay && SameBytes(s.writes, r.writes)
              && (forall i :: 0 <= i < |s.writes| && i != k ==> r.writes[i] == s.writes[i])
              && r.stream == s.stream && r.queue.queue == s.queue.queue
              && (r.open <==> s.open && !failed) && (r.queue.live <==> s.queue.live && !failed)
  {
  }

  /** A write that fails on an earlier socket closes the present one all the same. */
  lemma OldFailureCloses<B>(s: State<B>)
    ensures var r := Step(s, OldWriteFails);
            && !r.open && !r.queue.live
            && r.queue.queue == s.queue.queue && r.writes == s.writes && r.stream == s.stream
  {
  }

  // ---- when the frames stay whole ---------------------------------------------------

  /** While nothing is torn the socket has carried the first bytes of its writes, one after the
      other in the order they were begun. */
  function Joined<B>(writes: seq<Write<B>>): seq<B> {
    if writes == [] then [] else writes[0].data + Joined(writes[1..])
  }

  /** Some step mixes a frame with another. */
  ghost predicate Tearable<B(!new)>(s: State<B>) {
    exists e :: Step(s, e).torn
  }

  /** The next step can tear a frame if and only if two writes are under way and not through. */
  lemma TornNext<B(!new)>(s: State<B>)
    requires Inv(s) && !s.torn
    ensures Tearable(s) <==> Contended(s)
  {
    if Contended(s) {
      var i, j :| 0 <= i < j < |s.writes| && Busy(s.writes[i]) && Busy(s.writes[j]);
      assert Step(s, Carry(j)).torn;
    }
    if e :| Step(s, e).torn { TornBy(s, e); }
  }

  lemma TornBy<B>(s: State<B>, e: Event<B>)
    requires Inv(s) && !s.torn && Step(s, e).torn
    ensures Contended(s)
  {
    hide W.Inv, W.Step, Queued, Straight, LoopsWrite;
    assert e.Carry?;
    var i :| 0 <= i < e.k && Unsent(s.writes[i]);
    assert Busy(s.writes[i]) && Busy(s.writes[e.k]);
  }

  /** No two writes are ever under way and not through at once. */
  predicate NeverContended<B(==)>(s: State<B>, es: seq<Event<B>>)
    decreases |es|
  {
    !Contended(s) && (es == [] || NeverContended(Step(s, es[0]), es[1..]))
  }

  lemma {:induction false} NeverTorn<B(!new)>(s: State<B>, es: seq<Event<B>>)
    requires Inv(s) && !s.torn && NeverContended(s, es)
    ensures !Run(s, es).torn && Inv(Run(s, es)) && !Contended(Run(s, es))
    decreases |es|
  {
    hide Inv, Step, Contended;
    if es != [] {
      NotTornBy(s, es[0]);
      StepKeeps(s, es[0]);
      NeverTorn(Step(s, es[0]), es[1..]);
    }
  }

  lemma NotTornBy<B(!new)>(s: State<B>, e: Event<B>)
    requires Inv(s) && !s.torn && !Contended(s)
    ensures !Step(s, e).torn
  {
    hide Inv, Step, Contended;
    if Step(s, e).torn { TornBy(s, e); }
  }

  /** At no point of the run could a step mix two frames. */
  ghost predicate NeverTearable<B(!new)>(s: State<B>, es: seq<Event<B>>)
    decreases |es|
  {
    !Tearable(s) && (es == [] || NeverTearable(Step(s, es[0]), es[1..]))
  }

  /** Of every run: the socket may mix frames at some point of it if and only if two writes are
      under way and not through at some point of it. */
  lemma {:induction false} TearableIffContended<B(!new)>(s: State<B>, es: seq<Event<B>>)
    requires Inv(s) && !s.torn
    ensures NeverTearable(s, es) <==> NeverContended(s, es)
    decreases |es|
  {
    hide Inv, Step, Contended, Tearable;
    TornNext(s);
    if es != [] && !Contended(s) {
      NotTornBy(s, es[0]);
      StepKeeps(s, es[0]);
      TearableIffContended(Step(s, es[0]), es[1..]);
    }
  }

  lemma {:induction false} RunConcat<B>(s: State<B>, es: seq<Event<B>>, fs: seq<Event<B>>)
    ensures Run(s, es + fs) == Run(Run(s, es), fs)
    decreases |es|
  {
    hide Step;
    if es == [] {
      assert es + fs == fs;
    } else {
      assert (es + fs)[1..] == es[1..] + fs;
      RunConcat(Step(s, es[0]), es[1..], fs);
    }
  }

  lemma InitialInv<B>()
    ensures Inv(Initial<B>()) && !Initial<B>().open && !Initial<B>().torn
  {
  }

  // ---- what makes writes contend ----------------------------------------------------

  /** Some write other than those the loop is coming back from is not through. */
  predicate OtherBusy<B>(writes: seq<Write<B>>, direct: bool) {
    exists i :: 0 <= i < |writes| && Busy(writes[i]) && (direct ==> writes[i].direct)
  }

  /** A direct write that begins while any write is not through, or a loop that takes its next
      message while a direct one is not. */
  predicate Overlaps<B>(s: State<B>, e: Event<B>) {
    && s.open && Enabled(s, e)
    && match e
       case DirectBegin(data) => data != [] && OtherBusy(s.writes, false)
       case Queue(q) =>
         && (q.Start? || q.WriteDone?)
         && s.queue.live && s.queue.queue != [] && s.queue.queue[0] != []
         && OtherBusy(s.writes, true)
       case _ => false
  }

  lemma TakesNext<B>(q: W.State<seq<B>>, e: W.Event<seq<B>>)
    requires W.Inv(q) && W.Enabled(W.Client, q, e) && (e.Start? || e.WriteDone?)
    ensures W.Current(W.Step(W.Client, q, e)) == if q.live && q.queue != [] then [q.queue[0]] else []
  {
  }

  lemma BeginContends<B>(writes: seq<Write<B>>, w: Write<B>)
    requires w.underWay && w.sent == 0
    requires forall i, j :: 0 <= i < j < |writes| ==> !(Busy(writes[i]) && Busy(writes[j]))
    ensures var r := writes + [w];
            (exists i, j :: 0 <= i < j < |r| && Busy(r[i]) && Busy(r[j])) <==>
            w.data != [] && exists i :: 0 <= i < |writes| && Busy(writes[i])
  {
    var r := writes + [w];
    if i :| 0 <= i < |writes| && Busy(writes[i]) && w.data != [] {
      assert Busy(r[i]) && Busy(r[|writes|]);
    }
    if i, j :| 0 <= i < j < |r| && Busy(r[i]) && Busy(r[j]) {
      assert r[i] == writes[i];
    }
  }

  lemma ReturnedBusy<B>(s: State<B>, e: W.Event<seq<B>>)
    requires Inv(s) && Enabled(s, Queue(e))
    ensures var r := Returned(s, e);
            && (forall i :: 0 <= i < |r| && Busy(r[i]) ==> Busy(s.writes[i]))
            && (e.Start? || e.WriteDone? ==>
                  forall i :: 0 <= i < |r| ==> (Busy(r[i]) <==> Busy(s.writes[i]) && s.writes[i].direct))
  {
    ReturnedKeeps(s, e);
    hide W.Inv, W.Current, Queued, Straight, Through, LoopsWrite;
  }

  lemma QueueContends<B>(s: State<B>, e: W.Event<seq<B>>)
    requires Inv(s) && !Contended(s) && Enabled(s, Queue(e))
    ensures Contended(QueueStep(s, e)) <==> Overlaps(s, Queue(e))
  {
    hide W.Inv, W.Step, W.Current, Queued, Straight, Through, LoopsWrite, Returned;
    ReturnedBusy(s, e);
    QueueTakes(s.queue, e);
    if e.Start? || e.WriteDone? {
      TakesNext(s.queue, e);
      if s.open && s.queue.live && s.queue.queue != [] {
        BeginContends(Returned(s, e), Write(s.queue.queue[0], false, true, 0));
      }
    }
  }

  /** Exactly these steps bring two writes under way at once. */
  lemma ContendsIffOverlaps<B>(s: State<B>, e: Event<B>)
    requires Inv(s) && !Contended(s)
    ensures Contended(Step(s, e)) <==> Overlaps(s, e)
  {
    hide W.Inv, W.Step, Queued, Straight, Through, LoopsWrite, Returned, QueueStep;
    if e.Queue? && Enabled(s, e) { QueueContends(s, e.e); }
    if e.DirectBegin? && s.open { BeginContends(s.writes, Write(e.data, true, true, 0)); }
  }

  predicate NoDirect<B(!new)>(es: seq<Event<B>>) {
    forall i :: 0 <= i < |es| ==> !es[i].DirectBegin?
  }

  predicate AllQueued<B>(writes: seq<Write<B>>) {
    forall i :: 0 <= i < |writes| ==> !writes[i].direct
  }

  lemma QueueOnly<B>(s: State<B>, e: Event<B>)
    requires Inv(s) && AllQueued(s.writes) && !e.DirectBegin?
    ensures !Contended(s) && AllQueued(Step(s, e).writes)
  {
    hide W.Inv, W.Step, W.Current, Queued, Straight;
  }

  /** The writer's queue by itself never gets there. */
  lemma {:induction false} QueueAloneNeverContends<B(!new)>(s: State<B>, es: seq<Event<B>>)
    requires Inv(s) && AllQueued(s.writes) && NoDirect(es)
    ensures NeverContended(s, es)
    decreases |es|
  {
    hide Inv, Step, Contended, AllQueued;
    if es != [] {
      QueueOnly(s, es[0]);
      StepKeeps(s, es[0]);
      QueueAloneNeverContends(Step(s, es[0]), es[1..]);
    } else {
      QueueOnly(s, OldWriteFails);
    }
  }

  /** The first `n` writes are through, the next one is not, and none behind it has begun. */
  predicate ThroughUpTo<B>(writes: seq<Write<B>>, n: nat) {
    && n <= |writes|
    && (forall k :: 0 <= k < n ==> !Unsent(writes[k]))
    && (n < |writes| ==> Unsent(writes[n]))
    && (forall k :: n < k < |writes| ==> writes[k].sent == 0)
  }

  lemma NoneBehind<B>(writes: seq<Write<B>>)
    requires OneByOne(writes) && writes != [] && Unsent(writes[0])
    ensures ThroughUpTo(writes, 0) && forall j :: 0 < j < |writes| ==> writes[j].sent == 0
  {
  }

  lemma OneMoreThrough<B>(writes: seq<Write<B>>, n: nat)
    requires writes != [] && !Unsent(writes[0]) && ThroughUpTo(writes[1..], n)
    ensures ThroughUpTo(writes, n + 1) && n < |writes|
  {
    hide Unsent;
    assert forall k :: 0 < k < |writes| ==> writes[k] == writes[1..][k - 1];
  }

  /** What an untorn socket has carried: the first of its writes whole, and a part of the next. */
  lemma {:induction false} CarriedSplit<B>(writes: seq<Write<B>>) returns (n: nat, part: seq<B>)
    requires Within(writes) && OneByOne(writes)
    ensures ThroughUpTo(writes, n) && Carried(writes) == Joined(writes[..n]) + part
    ensures n < |writes| ==> part < writes[n].data
    ensures n == |writes| ==> part == []
  {
    if writes == [] {
      n, part := 0, [];
    } else if Unsent(writes[0]) {
      NoneBehind(writes);
      hide OneByOne, ThroughUpTo;
      NothingCarried(writes[1..]);
      n, part := 0, writes[0].data[..writes[0].sent];
      assert writes[..0] == [];
    } else {
      assert Carried(writes) == writes[0].data + Carried(writes[1..]) by {
        assert writes[0].data[..writes[0].sent] == writes[0].data;
      }
      hide Carried, ThroughUpTo;
      var m, rest := CarriedSplit(writes[1..]);
      OneMoreThrough(writes, m);
      JoinedTake(writes, m);
      hide Joined;
      n, part := m + 1, rest;
      Assoc(writes[0].data, Joined(writes[1..][..m]), rest);
    }
  }

  lemma UntornSplit<B>(s: State<B>) returns (n: nat, part: seq<B>)
    requires Inv(s) && !s.torn
    ensures ThroughUpTo(s.writes, n) && s.stream == Joined(s.writes[..n]) + part
    ensures n < |s.writes| ==> part < s.writes[n].data
    ensures n == |s.writes| ==> part == []
    ensures s.open ==> forall k :: n <= k < |s.writes| && s.writes[k].data != [] ==> s.writes[k].underWay
  {
    assert Straight(s.writes, s.stream) && Through(s.writes, s.open);
    hide Inv, Carried, Joined;
    n, part := CarriedSplit(s.writes);
  }

  lemma JoinedTake<B>(writes: seq<Write<B>>, n: nat)
    requires n < |writes|
    ensures Joined(writes[..n + 1]) == writes[0].data + Joined(writes[1..][..n])
  {
    assert writes[..n + 1][1..] == writes[1..][..n];
  }

  // ---- it does happen ---------------------------------------------------------------

  lemma RunLast<B>(s: State<B>, es: seq<Event<B>>, e: Event<B>)
    ensures Run(s, es + [e]) == Step(Run(s, es), e)
  {
    RunConcat(s, es, [e]);
    hide Step;
    assert [e][1..] == [];
  }

  /** The client connects, and its loop begins to write `a`. */
  lemma LoopWrites<B>(a: seq<B>) returns (es: seq<Event<B>>)
    ensures var s := Run(Initial<B>(), es);
            s.open && s.stream == [] && !s.torn && s.writes == [Write(a, false, true, 0)]
  {
    var connect: seq<Event<B>> := [Queue(W.NewSocket), Queue(W.Reconnect)];
    var s0 := Initial<B>();
    RunTwo(s0, connect[0], connect[1]);
    var s2 := Run(s0, connect);
    assert s2.open && s2.stream == [] && !s2.torn && s2.writes == [];
    assert s2.queue.live && s2.queue.queue == [] && !s2.queue.inProgress && s2.queue.loops == [];
    RunLast(s0, connect, Queue(W.Send(a)));
    RunLast(s0, connect + [Queue(W.Send(a))], Queue(W.Start(0)));
    es := connect + [Queue(W.Send(a))] + [Queue(W.Start(0))];
    hide Run;
    var s3 := Step(s2, Queue(W.Send(a)));
    assert s3.open && s3.stream == [] && !s3.torn && s3.writes == [] && s3.queue.live;
    assert s3.queue.loops == [W.Spawned] && s3.queue.queue == [a];
  }

  /** While the loop is writing `a`, some handler writes `b` directly. */
  lemma DirectMeetsQueue<B>(a: seq<B>, b: seq<B>) returns (es: seq<Event<B>>)
    requires a != [] && b != []
    ensures var s := Run(Initial<B>(), es);
            && Contended(s) && s.open && s.stream == [] && !s.torn
            && s.writes == [Write(a, false, true, 0), Write(b, true, true, 0)]
  {
    es := LoopWrites(a);
    RunLast(Initial<B>(), es, DirectBegin(b));
    es := es + [DirectBegin(b)];
    var s := Run(Initial<B>(), es);
    assert s.writes[0] == Write(a, false, true, 0) && s.writes[1] == Write(b, true, true, 0);
    assert Busy(s.writes[0]) && Busy(s.writes[1]);
  }

  /** And the socket may take their bytes in turns. */
  lemma BytesInTurns<B>(a0: B, a1: B, b0: B, b1: B) returns (es: seq<Event<B>>)
    ensures var s := Run(Initial<B>(), es);
            && s.stream == [a0, b0, a1, b1] && s.torn
            && s.writes == [Write([a0, a1], false, true, 2), Write([b0, b1], true, true, 2)]
  {
    es := DirectMeetsQueue([a0, a1], [b0, b1]);
    var s0, s := Initial<B>(), Run(Initial<B>(), es);
    var turns := [Carry(0), Carry(1), Carry(0), Carry(1)];
    Turns(s, a0, a1, b0, b1);
    RunConcat(s0, es, turns);
    es := es + turns;
  }

  /** Or one after the other: frames may stay whole though two writes are under way. */
  lemma OverlapMayStayWhole<B>(a: B, b: B) returns (es: seq<Event<B>>)
    ensures !NeverContended(Initial<B>(), es)
    ensures var s := Run(Initial<B>(), es);
            && s.stream == [a, b] && !s.torn
            && s.writes == [Write([a], false, true, 1), Write([b], true, true, 1)]
  {
    var s0 := Initial<B>();
    var before := DirectMeetsQueue([a], [b]);
    var s := Run(s0, before);
    ContendedInside(s0, before, [Carry(0), Carry(1)]);
    RunConcat(s0, before, [Carry(0), Carry(1)]);
    RunTwo(s, Carry(0), Carry(1));
    hide Run, NeverContended;
    es := before + [Carry(0), Carry(1)];
    TwoTurns(s, [a], [b], 0);
  }

  lemma {:induction false} ContendedInside<B>(s: State<B>, es: seq<Event<B>>, fs: seq<Event<B>>)
    requires Contended(Run(s, es))
    ensures !NeverContended(s, es + fs)
    decreases |es|
  {
    hide Step, Contended;
    if es == [] {
      assert es + fs == fs;
    } else {
      ContendedInside(Step(s, es[0]), es[1..], fs);
      assert (es + fs)[1..] == es[1..] + fs;
    }
  }

  lemma TwoTurns<B>(s: State<B>, a: seq<B>, b: seq<B>, n: nat)
    requires n < |a| && n < |b| && s.open
    requires s.writes == [Write(a, false, true, n), Write(b, true, true, n)]
    ensures var r := Step(Step(s, Carry(0)), Carry(1));
            && r.open && r.stream == s.stream + [a[n]] + [b[n]] && r.torn == (s.torn || n + 1 < |a|)
            && r.writes == [Write(a, false, true, n + 1), Write(b, true, true, n + 1)]
  {
    var m := Step(s, Carry(0));
    assert m.open && m.writes == [Write(a, false, true, n + 1), Write(b, true, true, n)];
    assert Unsent(m.writes[0]) <==> n + 1 < |a|;
  }

  lemma Turns<B>(s: State<B>, a0: B, a1: B, b0: B, b1: B)
    requires s.open && s.stream == []
    requires s.writes == [Write([a0, a1], false, true, 0), Write([b0, b1], true, true, 0)]
    ensures var r := Run(s, [Carry(0), Carry(1), Carry(0), Carry(1)]);
            && r.stream == [a0, b0, a1, b1] && r.torn
            && r.writes == [Write([a0, a1], false, true, 2), Write([b0, b1], true, true, 2)]
  {
    hide Step;
    var turn := [Carry(0), Carry(1)];
    var m := Step(Step(s, Carry(0)), Carry(1));
    TwoTurns(s, [a0, a1], [b0, b1], 0);
    TwoTurns(m, [a0, a1], [b0, b1], 1);
    RunTwo(s, Carry(0), Carry(1));
    RunTwo(m, Carry(0), Carry(1));
    RunConcat(s, turn, turn);
    assert turn + turn == [Carry(0), Carry(1), Carry(0), Carry(1)];
  }

  lemma RunTwo<B>(s: State<B>, a: Event<B>, b: Event<B>)
    ensures Run(s, [a, b]) == Step(Step(s, a), b)
  {
    hide Step;
    assert [a, b][1..] == [b] && [b][1..] == [];
    assert Run(s, [a, b]) == Run(Step(s, a), [b]);
  }
}
