/** The serialised writer: a queue, a flag, and a coroutine that takes one message after the
    other to the socket. The client has one, and so has each proxy session.

    Handlers and coroutines run one at a time on one executor, so a step is what happens
    between two suspensions. Several loops are representable; that there is never a second
    one is proved. */
module WriteQueue {

  /** A write loop: spawned and not yet run, or suspended in a write on the connection that
      was current when the write began. */
  datatype Loop<T> = Spawned | Writing(message: T, connection: nat)

  /** What the writer has done: the messages it was given and those it has taken to a socket;
      how many had been taken when the present connection began, and which of the later ones
      that connection has carried. */
  datatype Past<T> = Past(accepted: seq<T>, handed: seq<T>, base: nat, wire: seq<T>)

  /** `connection` tells the sockets apart that the writer has had; `ready` says that there is a
      new one over which the client has not yet declared itself connected. */
  datatype State<T> = State(
    queue: seq<T>,
    inProgress: bool,
    live: bool,
    connection: nat,
    ready: bool,
    loops: seq<Loop<T>>,
    past: Past<T>)

  /** The client queues whatever it is given and connects again; a proxy that has stopped
      refuses what comes and stays stopped. */
  datatype Owner = Client | Proxy

  datatype Event<T> =
    | Send(message: T)
    | Start(loop: nat)
    | WriteDone(loop: nat)
    | WriteFails(loop: nat)
    | Disconnect
    | NewSocket
    | Reconnect

  function Initial<T>(live: bool): State<T> {
    State([], false, live, 0, false, [], Past([], [], 0, []))
  }

  function Enqueue<T>(s: State<T>, m: T): State<T> {
    var r := s.(queue := s.queue + [m], past := s.past.(accepted := s.past.accepted + [m]));
    if s.inProgress then r else r.(inProgress := true, loops := s.loops + [Spawned])
  }

  function LoopEnds<T>(s: State<T>, i: nat): State<T>
    requires i < |s.loops|
  {
    s.(loops := s.loops[..i] + s.loops[i + 1..], inProgress := false)
  }

  /** The head of the loop: the next message, or the end. */
  function Turn<T>(s: State<T>, i: nat): State<T>
    requires i < |s.loops|
  {
    if s.queue != [] && s.live then
      var m := s.queue[0];
      s.(queue := s.queue[1..], loops := s.loops[i := Writing(m, s.connection)],
         past := s.past.(handed := s.past.handed + [m]))
    else LoopEnds(s, i)
  }

  function Written<T>(s: State<T>, i: nat): State<T>
    requires i < |s.loops| && s.loops[i].Writing?
  {
    if s.loops[i].connection == s.connection then
      s.(past := s.past.(wire := s.past.wire + [s.loops[i].message]), loops := s.loops[i := Spawned])
    else s.(loops := s.loops[i := Spawned])
  }

  function Renewed<T>(s: State<T>): State<T> {
    s.(connection := s.connection + 1, ready := true, past := s.past.(base := |s.past.handed|, wire := []))
  }

  predicate Enabled<T>(owner: Owner, s: State<T>, e: Event<T>) {
    match e
    case Send(_) => owner.Client? || s.live
    case Start(i) => i < |s.loops| && s.loops[i].Spawned?
    case WriteDone(i) => i < |s.loops| && s.loops[i].Writing?
    case WriteFails(i) => i < |s.loops| && s.loops[i].Writing?
    case Disconnect => true
    case NewSocket => owner.Client? && !s.live
    case Reconnect => owner.Client? && !s.live && s.ready
  }

  function Step<T>(owner: Owner, s: State<T>, e: Event<T>): State<T> {
    if !Enabled(owner, s, e) then s
    else
      match e
      case Send(m) => Enqueue(s, m)
      case Start(i) => Turn(s, i)
      case WriteDone(i) => Turn(Written(s, i), i)
      case WriteFails(i) => LoopEnds(s.(live := false), i)
      case Disconnect => s.(live := false)
      case NewSocket => Renewed(s)
      case Reconnect => s.(live := true, ready := false)
  }

  function Run<T>(owner: Owner, s: State<T>, es: seq<Event<T>>): State<T>
    decreases |es|
  {
    if es == [] then s else Run(owner, Step(owner, s, es[0]), es[1..])
  }

  // ---- invariant --------------------------------------------------------------------

  /** The message under way on the present connection, if there is one. */
  function Current<T>(s: State<T>): seq<T> {
    if |s.loops| == 1 && s.loops[0].Writing? && s.loops[0].connection == s.connection
    then [s.loops[0].message] else []
  }

  predicate Single<T>(s: State<T>) {
    |s.loops| == if s.inProgress then 1 else 0
  }

  /** Messages leave the queue in the order they came; the present connection has carried a
      contiguous stretch of them, up to the one under way, or the one whose write failed. */
  predicate InOrder<T(==)>(s: State<T>) {
    var p := s.past;
    && p.accepted == p.handed + s.queue
    && p.base <= |p.handed|
    && (forall i :: 0 <= i < |s.loops| && s.loops[i].Writing? ==> s.loops[i].connection <= s.connection)
    && p.wire + Current(s) <= p.handed[p.base..]
    && (s.live || s.ready || Current(s) != [] ==> p.wire + Current(s) == p.handed[p.base..])
    && |p.handed| <= p.base + |p.wire| + 1
    && (s.ready ==> !s.live && Current(s) == [])
  }

  predicate Inv<T(==)>(s: State<T>) {
    Single(s) && InOrder(s)
  }

  lemma EnqueueKeeps<T>(s: State<T>, m: T)
    requires Inv(s)
    ensures Inv(Enqueue(s, m))
  {
    assert s.past.accepted + [m] == s.past.handed + (s.queue + [m]);
    assert Current(Enqueue(s, m)) == Current(s);
  }

  lemma TurnKeeps<T>(s: State<T>, i: nat)
    requires Inv(s) && i < |s.loops| && s.loops[i].Spawned?
    ensures Inv(Turn(s, i))
  {
    var p, r := s.past, Turn(s, i);
    assert i == 0 && Current(s) == [] && p.wire + [] == p.wire;
    if s.queue != [] && s.live {
      var m := s.queue[0];
      assert p.handed + s.queue == (p.handed + [m]) + s.queue[1..];
      assert (p.handed + [m])[p.base..] == p.handed[p.base..] + [m];
      assert Current(r) == [m];
    } else {
      assert Current(r) == [];
    }
  }

  lemma WrittenKeeps<T>(s: State<T>, i: nat)
    requires Inv(s) && i < |s.loops| && s.loops[i].Writing?
    ensures Inv(Written(s, i))
  {
    var p, r := s.past, Written(s, i);
    assert i == 0 && Current(r) == [];
    assert r.past.wire + [] == p.wire + Current(s) by { assert p.wire + [] == p.wire; }
  }

  lemma StepKeeps<T>(owner: Owner, s: State<T>, e: Event<T>)
    requires Inv(s)
    ensures Inv(Step(owner, s, e))
  {
    if Enabled(owner, s, e) {
      match e
      case Send(m) => EnqueueKeeps(s, m);
      case Start(i) => TurnKeeps(s, i);
      case WriteDone(i) =>
        WrittenKeeps(s, i);
        TurnKeeps(Written(s, i), i);
      case WriteFails(i) => FailureKeeps(s, i);
      case Disconnect => assert Current(s.(live := false)) == Current(s);
      case NewSocket => RenewedKeeps(s);
      case Reconnect => assert Current(s.(live := true, ready := false)) == Current(s);
    }
  }

  lemma FailureKeeps<T>(s: State<T>, i: nat)
    requires Inv(s) && i < |s.loops| && s.loops[i].Writing?
    ensures Inv(LoopEnds(s.(live := false), i))
  {
    assert s.past.wire + [] == s.past.wire;
  }

  lemma RenewedKeeps<T>(s: State<T>)
    requires Inv(s) && !s.live
    ensures Inv(Renewed(s))
  {
    assert s.past.handed[|s.past.handed|..] == [] && Current(Renewed(s)) == [];
  }

  lemma {:induction false} RunKeeps<T>(owner: Owner, s: State<T>, es: seq<Event<T>>)
    requires Inv(s)
    ensures Inv(Run(owner, s, es))
    decreases |es|
  {
    if es != [] {
      StepKeeps(owner, s, es[0]);
      RunKeeps(owner, Step(owner, s, es[0]), es[1..]);
    }
  }

  // ---- what holds over every run ----------------------------------------------------

  /** What connects and what disconnects; the client needs a new socket for each connection. */
  lemma ConnectionStep<T>(owner: Owner, s: State<T>, e: Event<T>)
    ensures var r := Step(owner, s, e);
            var fails := e.WriteFails? && e.loop < |s.loops| && s.loops[e.loop].Writing?;
            var socket := e.NewSocket? && owner == Client && !s.live;
            var connects := e.Reconnect? && owner == Client && !s.live && s.ready;
            && (r.live <==> connects || (s.live && !e.Disconnect? && !fails))
            && (r.ready <==> socket || (s.ready && !connects))
            && (socket ==> r.connection > s.connection && r.past.base == |s.past.handed| && r.past.wire == [])
            && (!socket ==> r.connection == s.connection && r.past.base == s.past.base)
            && (socket || connects || e.Disconnect? ==> r.queue == s.queue && r.loops == s.loops)
  {
  }

  /** The messages the writer is asked to send and takes: the client's all of them, connected or
      not; a proxy's as long as it runs. */
  function Taken<T>(owner: Owner, s: State<T>, es: seq<Event<T>>): seq<T>
    decreases |es|
  {
    if es == [] then []
    else (if es[0].Send? && (owner == Client || s.live) then [es[0].message] else [])
         + Taken(owner, Step(owner, s, es[0]), es[1..])
  }

  lemma {:induction false} TakenIsAccepted<T>(owner: Owner, s: State<T>, es: seq<Event<T>>)
    ensures Run(owner, s, es).past.accepted == s.past.accepted + Taken(owner, s, es)
    decreases |es|
  {
    if es != [] {
      AcceptedStep(owner, s, es[0]);
      hide Step;
      TakenIsAccepted(owner, Step(owner, s, es[0]), es[1..]);
    }
  }

  lemma AcceptedStep<T>(owner: Owner, s: State<T>, e: Event<T>)
    ensures Step(owner, s, e).past.accepted ==
            s.past.accepted + if e.Send? && (owner == Client || s.live) then [e.message] else []
  {
  }

  /** The message the present connection has been given and is not known to have carried: the one
      under way, or the one whose write failed. */
  function Unsettled<T>(p: Past<T>): seq<T> {
    if p.base + |p.wire| <= |p.handed| then p.handed[p.base + |p.wire|..] else []
  }

  /** However enqueues, completions, failures and connections interleave: there is one loop or
      none, as the flag says; nothing is lost, repeated or reordered on its way from the queue;
      and each connection carries a contiguous stretch of what was sent. */
  lemma OneWriterInOrder<T>(owner: Owner, live: bool, es: seq<Event<T>>)
    ensures var s := Run(owner, Initial<T>(live), es); var p := s.past;
            && |s.loops| <= 1 && (s.inProgress <==> |s.loops| == 1)
            && p.accepted == p.handed + s.queue
            && p.base + |p.wire| <= |p.accepted|
            && p.wire == p.accepted[p.base..p.base + |p.wire|]
            && p.base + |p.wire| + |Unsettled(p)| == |p.handed| && |Unsettled(p)| <= 1
            && (Current(s) != [] ==> Unsettled(p) == Current(s))
  {
    RunKeeps(owner, Initial<T>(live), es);
    var s := Run(owner, Initial<T>(live), es);
    Stretch(s.past.wire, Current(s), s.past.handed, s.queue, s.past.base);
  }

  lemma Stretch<T>(wire: seq<T>, current: seq<T>, handed: seq<T>, queue: seq<T>, base: nat)
    requires base <= |handed| && wire + current <= handed[base..]
    ensures base + |wire| <= |handed + queue| && wire == (handed + queue)[base..base + |wire|]
  {
    assert wire == (wire + current)[..|wire|] == handed[base..][..|wire|];
    assert handed[base..][..|wire|] == handed[base..base + |wire|] == (handed + queue)[base..base + |wire|];
  }

  predicate Untroubled<T(!new)>(es: seq<Event<T>>) {
    forall i :: 0 <= i < |es| ==> !es[i].WriteFails? && !es[i].Disconnect?
  }

  lemma {:induction false} StaysConnected<T(!new)>(owner: Owner, s: State<T>, es: seq<Event<T>>)
    requires s.live && s.past.base == 0 && Untroubled(es)
    ensures var r := Run(owner, s, es); r.live && r.past.base == 0
    decreases |es|
  {
    if es != [] { StaysConnected(owner, Step(owner, s, es[0]), es[1..]); }
  }

  /** On the first connection, until something fails: what is written, being written and queued
      is all that was sent, in order. */
  lemma NothingLostUntilFailure<T(!new)>(owner: Owner, first: State<T>, es: seq<Event<T>>)
    requires first == Initial(true) || first == Step(Client, Step(Client, Initial(false), NewSocket), Reconnect)
    requires Untroubled(es)
    ensures var s := Run(owner, first, es);
            s.past.accepted == s.past.wire + Current(s) + s.queue
  {
    RunKeeps(owner, first, es);
    StaysConnected(owner, first, es);
  }

  /** Whatever the failures, a proxy's peer has a prefix of what was sent: the proxy never
      connects again. */
  lemma {:induction false} ProxyNeverReconnects<T>(s: State<T>, es: seq<Event<T>>)
    requires s.past.base == 0
    ensures Run(Proxy, s, es).past.base == 0
    decreases |es|
  {
    if es != [] { ProxyNeverReconnects(Step(Proxy, s, es[0]), es[1..]); }
  }

  lemma ProxyWritesAPrefix<T>(es: seq<Event<T>>)
    ensures var p := Run(Proxy, Initial<T>(true), es).past; p.wire <= p.accepted
  {
    OneWriterInOrder(Proxy, true, es);
    ProxyNeverReconnects(Initial<T>(true), es);
  }

  // ---- liveness ---------------------------------------------------------------------

  /** A non-empty queue on a live connection has a loop. */
  predicate Served<T(==)>(s: State<T>) {
    s.live && s.queue != [] ==> s.loops != []
  }

  /** The one step that breaks it: to connect again over a queue that no loop is left for. */
  predicate Strands<T(==)>(owner: Owner, s: State<T>, e: Event<T>) {
    e.Reconnect? && Enabled(owner, s, e) && s.queue != [] && s.loops == []
  }

  lemma StepServes<T>(owner: Owner, s: State<T>, e: Event<T>)
    requires Inv(s) && Served(s)
    ensures Served(Step(owner, s, e)) <==> !Strands(owner, s, e)
  {
  }

  /** The next message repairs it. */
  lemma SendServes<T>(owner: Owner, s: State<T>, m: T)
    requires Inv(s)
    ensures Served(Step(owner, s, Send(m)))
  {
  }

  predicate NeverStrands<T(==)>(owner: Owner, s: State<T>, es: seq<Event<T>>)
    decreases |es|
  {
    es == [] || (!Strands(owner, s, es[0]) && NeverStrands(owner, Step(owner, s, es[0]), es[1..]))
  }

  lemma {:induction false} RunServes<T>(owner: Owner, s: State<T>, es: seq<Event<T>>)
    requires Inv(s) && Served(s) && NeverStrands(owner, s, es)
    ensures Served(Run(owner, s, es))
    decreases |es|
  {
    if es != [] {
      StepKeeps(owner, s, es[0]);
      StepServes(owner, s, es[0]);
      RunServes(owner, Step(owner, s, es[0]), es[1..]);
    }
  }

  lemma {:induction false} ProxyNeverStrands<T>(s: State<T>, es: seq<Event<T>>)
    ensures NeverStrands(Proxy, s, es)
    decreases |es|
  {
    if es != [] { ProxyNeverStrands(Step(Proxy, s, es[0]), es[1..]); }
  }

  /** A proxy that runs always serves its queue. */
  lemma ProxyServes<T>(es: seq<Event<T>>)
    ensures Served(Run(Proxy, Initial<T>(true), es))
  {
    ProxyNeverStrands(Initial<T>(true), es);
    RunServes(Proxy, Initial<T>(true), es);
  }

  lemma {:induction false} RunConcat<T>(owner: Owner, s: State<T>, es: seq<Event<T>>, fs: seq<Event<T>>)
    ensures Run(owner, s, es + fs) == Run(owner, Run(owner, s, es), fs)
    decreases |es|
  {
    hide Step;
    if es == [] {
      assert es + fs == fs;
    } else {
      assert (es + fs)[1..] == es[1..] + fs;
      RunConcat(owner, Step(owner, s, es[0]), es[1..], fs);
    }
  }

  lemma RunThree<T>(owner: Owner, s: State<T>, a: Event<T>, b: Event<T>, c: Event<T>)
    ensures Run(owner, s, [a, b, c]) == Step(owner, Step(owner, Step(owner, s, a), b), c)
  {
    hide Step;
    var s1 := Step(owner, s, a);
    assert [a, b, c][1..] == [b, c] && [b, c][1..] == [c] && [c][1..] == [];
    assert Run(owner, s, [a, b, c]) == Run(owner, s1, [b, c]) == Run(owner, Step(owner, s1, b), [c]);
  }

  /** The client does not: whenever a write fails with messages queued, the next connection has
      the queue and no loop. */
  lemma FailureStrands<T>(s: State<T>)
    requires Inv(s) && s.queue != [] && |s.loops| == 1 && s.loops[0].Writing?
    ensures var r := Run(Client, s, [WriteFails(0), NewSocket, Reconnect]);
            r.live && r.queue == s.queue && r.loops == [] && !Served(r)
  {
    RunThree(Client, s, WriteFails(0), NewSocket, Reconnect);
    hide Run;
  }

  lemma ClientMayStrand<T>(m: T)
    ensures var es := [Send(m), Start(0), Send(m)] + [WriteFails(0), NewSocket, Reconnect];
            var s := Run(Client, Initial<T>(true), es);
            s.live && s.queue == [m] && s.loops == [] && !Served(s)
  {
    var s0 := Initial<T>(true);
    RunThree(Client, s0, Send(m), Start(0), Send(m));
    RunConcat(Client, s0, [Send(m), Start(0), Send(m)], [WriteFails(0), NewSocket, Reconnect]);
    hide Run;
    var s1 := Step(Client, s0, Send(m));
    assert s1.queue == [m] && s1.loops == [Spawned];
    var s2 := Step(Client, s1, Start(0));
    assert s2.queue == [] && s2.loops == [Writing(m, 0)];
    StepKeeps(Client, s0, Send(m));
    StepKeeps(Client, s1, Start(0));
    StepKeeps(Client, s2, Send(m));
    FailureStrands(Step(Client, s2, Send(m)));
  }

  /** Nothing on the connection itself moves it … */
  lemma StrandedStays<T>(s: State<T>, e: Event<T>)
    requires Inv(s) && s.live && s.queue != [] && s.loops == [] && !e.Send? && !e.Disconnect?
    ensures Step(Client, s, e) == s
  {
  }

  predicate NoSend<T(!new)>(es: seq<Event<T>>) {
    forall i :: 0 <= i < |es| ==> !es[i].Send?
  }

  /** … and until another message is sent nothing of the queue is ever written, however many
      connections come and go. */
  lemma {:induction false} StrandedUntilSend<T(!new)>(s: State<T>, es: seq<Event<T>>)
    requires s.loops == [] && NoSend(es)
    ensures var r := Run(Client, s, es);
            r.loops == [] && r.queue == s.queue && r.past.handed == s.past.handed
    decreases |es|
  {
    if es != [] {
      var r := Step(Client, s, es[0]);
      assert r.loops == [] && r.queue == s.queue && r.past.handed == s.past.handed;
      hide Step;
      StrandedUntilSend(r, es[1..]);
    }
  }

  /** The completions that empty the queue. */
  function Completions<T>(n: nat): seq<Event<T>> {
    seq(n, i => WriteDone(0))
  }

  /** A loop whose writes succeed empties the queue, in order, and ends. */
  lemma {:induction false} LoopDrains<T>(owner: Owner, s: State<T>)
    requires Inv(s) && s.live && |s.loops| == 1
    requires s.loops[0].Writing? && s.loops[0].connection == s.connection
    ensures var r := Run(owner, s, Completions(|s.queue| + 1));
            && r.queue == [] && r.loops == [] && !r.inProgress
            && r.past.wire == s.past.wire + Current(s) + s.queue
    decreases |s.queue|
  {
    var es := Completions<T>(|s.queue| + 1);
    var r := Step(owner, s, WriteDone(0));
    assert es[0] == Event<T>.WriteDone(0) && es[1..] == Completions(|s.queue|);
    StepKeeps(owner, s, WriteDone(0));
    assert s.queue != [] ==> r.queue == s.queue[1..] && r.loops == [Writing(s.queue[0], s.connection)];
    assert r.past.wire == s.past.wire + Current(s) && r.live && r.connection == s.connection;
    assert s.queue == [] ==> r.loops == [] && !r.inProgress;
    hide Step, Inv, Completions;
    if s.queue != [] {
      LoopDrains(owner, r);
      assert s.past.wire + Current(s) + s.queue == r.past.wire + Current(r) + r.queue;
    }
  }
}
