/** The life cycle of stream sessions: a registry of weak pointers, a listener each session
    calls when it is destroyed, and the server's own stops. */
module StreamManager {

  type StreamId = nat

  /** A session object: being started, running, or told to stop and not yet destroyed.
      One that has started successfully has its end listener set. */
  datatype Phase = Starting | Running | Stopped

  datatype Session = Session(id: StreamId, phase: Phase)

  /** `sessions` is the manager's map to weak pointers; `alive` are the objects that exist,
      by a number that is never used twice; `outbox` are the STOP_STREAM messages sent. */
  datatype State = State(
    sessions: map<StreamId, nat>,
    alive: map<nat, Session>,
    created: nat,
    connected: bool,
    outbox: seq<StreamId>)

  datatype Event =
    | Start(id: StreamId, made: bool)
    | StartDone(h: nat, ok: bool)
    | Ends(h: nat)
    | ServerStop(id: StreamId)
    | Input(id: StreamId)
    | Connection(up: bool)

  function Initial(connected: bool): State {
    State(map[], map[], 0, connected, [])
  }

  function StopStream(s: State, id: StreamId): State {
    if s.connected then s.(outbox := s.outbox + [id]) else s
  }

  /** Forgets the id; a session that still exists is told to stop, of one that does not the
      server is told. */
  function Stop(s: State, id: StreamId): State {
    if id !in s.sessions then s
    else
      var h, r := s.sessions[id], s.(sessions := s.sessions - {id});
      if h in s.alive then r.(alive := s.alive[h := s.alive[h].(phase := Stopped)])
      else StopStream(r, id)
  }

  function StartSession(s: State, id: StreamId, made: bool): State {
    if id in s.sessions || !made then s
    else s.(alive := s.alive[s.created := Session(id, Starting)], created := s.created + 1)
  }

  /** The coroutine's end: a failed session is dropped; a started one is registered, unless its
      id has been taken meanwhile, and gets its listener. */
  function Register(s: State, h: nat, ok: bool): State
    requires h in s.alive
  {
    if !ok then s.(alive := s.alive - {h})
    else
      var id := s.alive[h].id;
      s.(alive := s.alive[h := Session(id, Running)],
         sessions := if id in s.sessions then s.sessions else s.sessions[id := h])
  }

  /** The last reference goes: the object is gone before its listener speaks. */
  function Destroy(s: State, h: nat): State
    requires h in s.alive
  {
    Stop(s.(alive := s.alive - {h}), s.alive[h].id)
  }

  predicate Enabled(s: State, e: Event) {
    match e
    case StartDone(h, _) => h in s.alive && s.alive[h].phase.Starting?
    case Ends(h) => h in s.alive && !s.alive[h].phase.Starting?
    case _ => true
  }

  function Step(s: State, e: Event): State {
    if !Enabled(s, e) then s
    else
      match e
      case Start(id, made) => StartSession(s, id, made)
      case StartDone(h, ok) => Register(s, h, ok)
      case Ends(h) => Destroy(s, h)
      case ServerStop(id) => Stop(s, id)
      case Input(id) => if id in s.sessions && s.sessions[id] in s.alive then s else Stop(s, id)
      case Connection(up) => s.(connected := up)
  }

  function Run(s: State, es: seq<Event>): State
    decreases |es|
  {
    if es == [] then s else Run(Step(s, es[0]), es[1..])
  }

  // ---- invariant --------------------------------------------------------------------

  /** The server starts no stream under the id of a session that still exists. */
  predicate Fresh(s: State, e: Event) {
    e.Start? ==> forall h <- s.alive :: s.alive[h].id != e.id
  }

  predicate AllFresh(s: State, es: seq<Event>)
    decreases |es|
  {
    es == [] || (Fresh(s, es[0]) && AllFresh(Step(s, es[0]), es[1..]))
  }

  /** One session to an id; the registry holds the running ones and no other. */
  predicate Inv(s: State) {
    && (forall h <- s.alive :: h < s.created)
    && (forall h, k :: h in s.alive && k in s.alive && s.alive[h].id == s.alive[k].id ==> h == k)
    && (forall id <- s.sessions :: s.sessions[id] in s.alive && s.alive[s.sessions[id]] == Session(id, Running))
    && (forall h <- s.alive :: s.alive[h].phase.Running? ==>
          s.alive[h].id in s.sessions && s.sessions[s.alive[h].id] == h)
  }

  lemma StopKeeps(s: State, id: StreamId)
    requires Inv(s)
    ensures Inv(Stop(s, id))
  {
    if id in s.sessions {
      var h, r := s.sessions[id], Stop(s, id);
      assert r.sessions == s.sessions - {id} && r.alive == s.alive[h := Session(id, Stopped)];
    }
  }

  lemma RegisterKeeps(s: State, h: nat, ok: bool)
    requires Inv(s) && Enabled(s, StartDone(h, ok))
    ensures Inv(Register(s, h, ok))
  {
    var id, r := s.alive[h].id, Register(s, h, ok);
    assert id !in s.sessions;
    if ok {
      assert r.sessions == s.sessions[id := h] && r.alive == s.alive[h := Session(id, Running)];
    } else {
      assert r.sessions == s.sessions && r.alive == s.alive - {h};
    }
  }

  lemma DestroyKeeps(s: State, h: nat)
    requires Inv(s) && Enabled(s, Ends(h))
    ensures Inv(Destroy(s, h))
  {
    EndsLeaves(s, h);
  }

  lemma StepKeeps(s: State, e: Event)
    requires Inv(s) && Fresh(s, e)
    ensures Inv(Step(s, e))
  {
    if Enabled(s, e) {
      match e
      case StartDone(h, ok) => RegisterKeeps(s, h, ok);
      case Ends(h) => DestroyKeeps(s, h);
      case ServerStop(id) => StopKeeps(s, id);
      case Input(id) => StopKeeps(s, id);
      case Start(_, _) =>
      case Connection(_) =>
    }
  }

  lemma {:induction false} RunKeeps(s: State, es: seq<Event>)
    requires Inv(s) && AllFresh(s, es)
    ensures Inv(Run(s, es))
    decreases |es|
  {
    if es != [] {
      StepKeeps(s, es[0]);
      RunKeeps(Step(s, es[0]), es[1..]);
    }
  }

  /** The sessions that end by themselves during a run while the client is connected. */
  function SelfEnds(s: State, es: seq<Event>): seq<StreamId>
    decreases |es|
  {
    if es == [] then []
    else
      var e := es[0];
      (if e.Ends? && s.connected && e.h in s.alive && s.alive[e.h].phase.Running? then [s.alive[e.h].id] else [])
      + SelfEnds(Step(s, e), es[1..])
  }

  lemma StepTells(s: State, e: Event)
    requires Inv(s) && Fresh(s, e)
    ensures Step(s, e).outbox == s.outbox + SelfEnds(s, [e])
  {
    assert SelfEnds(Step(s, e), [e][1..]) == [];
  }

  /** The server is told exactly once of each session that ends by itself while the client is
      connected, in that order, and of no other: not of those it stopped, not of those that
      did not start. */
  lemma {:induction false} ToldOnce(s: State, es: seq<Event>)
    requires Inv(s) && AllFresh(s, es)
    ensures Run(s, es).outbox == s.outbox + SelfEnds(s, es)
    decreases |es|
  {
    hide Inv, Step, Fresh, Enabled;
    if es != [] {
      var e, rest := es[0], es[1..];
      StepKeeps(s, e);
      StepTells(s, e);
      ToldOnce(Step(s, e), rest);
      assert SelfEnds(s, es) == SelfEnds(s, [e]) + SelfEnds(Step(s, e), rest) by {
        assert SelfEnds(Step(s, e), [e][1..]) == [];
      }
    }
  }

  // ---- with ids used again ----------------------------------------------------------

  /** In any state at all, the end of a session tells the server exactly if the client is connected
      and its id is still registered, for it or for a session that is gone. */
  lemma EndTells(s: State, h: nat)
    requires Enabled(s, Ends(h))
    ensures var id := s.alive[h].id;
            var told := s.connected && id in s.sessions && (s.sessions[id] == h || s.sessions[id] !in s.alive);
            Step(s, Ends(h)).outbox == s.outbox + if told then [id] else []
  {
  }

  /** What the registry holds exists, is under its own id, and is not being started. */
  predicate Registered(s: State) {
    && (forall h <- s.alive :: h < s.created)
    && (forall id <- s.sessions :: s.sessions[id] in s.alive
          && s.alive[s.sessions[id]].id == id && s.alive[s.sessions[id]].phase != Starting)
  }

  lemma StopRegistered(s: State, id: StreamId)
    requires Registered(s)
    ensures Registered(Stop(s, id)) && Stop(s, id).outbox == s.outbox
  {
  }

  lemma DestroyRegistered(s: State, h: nat)
    requires Registered(s) && Enabled(s, Ends(h))
    ensures Registered(Destroy(s, h))
  {
    var id, r := s.alive[h].id, Destroy(s, h);
    if id in s.sessions {
      assert r.sessions == s.sessions - {id};
      assert forall k <- r.alive :: k != h && r.alive[k].id == s.alive[k].id;
    } else {
      assert r.sessions == s.sessions && r.alive == s.alive - {h};
    }
  }

  lemma StepRegistered(s: State, e: Event)
    requires Registered(s)
    ensures Registered(Step(s, e))
  {
    if Enabled(s, e) {
      match e
      case Ends(h) => DestroyRegistered(s, h);
      case ServerStop(id) => StopRegistered(s, id);
      case Input(id) => StopRegistered(s, id);
      case StartDone(h, ok) =>
      case Start(_, _) =>
      case Connection(_) =>
    }
  }

  /** A start under an id that is registered, or of a session that cannot be made, does nothing; any
      other makes a session with a number never used before. */
  lemma StartOutcome(s: State, id: StreamId, made: bool)
    requires Registered(s)
    ensures var r := Step(s, Start(id, made));
            if id in s.sessions || !made then r == s
            else && r == s.(alive := r.alive, created := r.created)
                 && s.created !in s.alive && s.created < r.created
                 && r.alive == s.alive[s.created := Session(id, Starting)]
  {
  }

  /** Input for a stream the manager does not know, or whose session exists, changes nothing of the
      registry; input for one whose session is gone ends the stream. */
  lemma InputOutcome(s: State, id: StreamId)
    ensures var r := Step(s, Input(id));
            if id in s.sessions && s.sessions[id] !in s.alive
            then r.sessions == s.sessions - {id} && r.alive == s.alive
                 && r.outbox == s.outbox + if s.connected then [id] else []
            else r == s
  {
  }

  /** A manager begins with nothing, over the connection there is. */
  lemma InitialOutcome(connected: bool)
    ensures var s := Initial(connected);
            && s.sessions == map[] && s.alive == map[] && s.outbox == [] && (s.connected <==> connected)
  {
  }

  /** What the last change of the connection said. */
  function LastConnection(before: bool, es: seq<Event>): bool
    decreases |es|
  {
    if es == [] then before
    else if es[|es| - 1].Connection? then es[|es| - 1].up
    else LastConnection(before, es[..|es| - 1])
  }

  lemma {:induction false} ConnectedHistory(s: State, es: seq<Event>)
    ensures Run(s, es).connected == LastConnection(s.connected, es)
    decreases |es|
  {
    if es != [] {
      RunLast(s, es);
      ConnectedHistory(s, es[..|es| - 1]);
      ConnectionStep(Run(s, es[..|es| - 1]), es[|es| - 1]);
      hide Run, Step;
    }
  }

  lemma ConnectionStep(s: State, e: Event)
    ensures Step(s, e).connected == if e.Connection? then e.up else s.connected
  {
  }

  /** A session that fails to start is gone and leaves no trace … */
  lemma FailedStart(s: State, h: nat)
    requires Enabled(s, StartDone(h, false))
    ensures Step(s, StartDone(h, false)) == s.(alive := s.alive - {h})
  {
  }

  /** … and one that starts runs, and is registered unless its id is taken. */
  lemma SuccessfulStart(s: State, h: nat)
    requires Enabled(s, StartDone(h, true))
    ensures var id, r := s.alive[h].id, Step(s, StartDone(h, true));
            && r.alive == s.alive[h := Session(id, Running)] && r.outbox == s.outbox
            && (id in s.sessions ==> r.sessions == s.sessions)
            && (id !in s.sessions ==> r.sessions == s.sessions[id := h])
  {
  }

  predicate Holds(s: State, id: StreamId, h: nat) {
    id in s.sessions && s.sessions[id] == h
  }

  /** A session that has started takes the id, which nobody has. */
  predicate TakesId(s: State, e: Event, id: StreamId, h: nat) {
    Enabled(s, e) && e == StartDone(h, true) && s.alive[h].id == id && id !in s.sessions
  }

  /** The server stops the id, or a session under it ends. */
  predicate Releases(s: State, e: Event, id: StreamId) {
    e == ServerStop(id) || (e.Ends? && Enabled(s, e) && s.alive[e.h].id == id)
  }

  lemma HoldsStep(s: State, e: Event, id: StreamId, h: nat)
    requires Registered(s)
    ensures Holds(Step(s, e), id, h) <==> TakesId(s, e, id, h) || (Holds(s, id, h) && !Releases(s, e, id))
  {
  }

  predicate HeldSince(s: State, es: seq<Event>, i: nat, id: StreamId, h: nat) {
    && i < |es| && TakesId(Run(s, es[..i]), es[i], id, h)
    && forall k :: i < k < |es| ==> !Releases(Run(s, es[..k]), es[k], id)
  }

  lemma {:induction false} RunLast(s: State, es: seq<Event>)
    requires es != []
    ensures Run(s, es) == Step(Run(s, es[..|es| - 1]), es[|es| - 1])
    decreases |es|
  {
    hide Step;
    if |es| > 1 {
      RunLast(Step(s, es[0]), es[1..]);
      assert es[1..][..|es| - 2] == es[..|es| - 1][1..];
    }
  }

  /** Over every run at all: a session is the registered one of an id if and only if it started
      successfully when nobody had the id, and since then neither has the server stopped the id
      nor has any session under it ended. */
  lemma {:induction false} RegisteredHistory(connected: bool, es: seq<Event>, id: StreamId, h: nat)
    ensures Registered(Run(Initial(connected), es))
    ensures Holds(Run(Initial(connected), es), id, h) <==> exists i: nat :: HeldSince(Initial(connected), es, i, id, h)
    decreases |es|
  {
    if es == [] { return; }
    var s, n := Initial(connected), |es| - 1;
    var init, e := es[..n], es[n];
    RunLast(s, es);
    RegisteredHistory(connected, init, id, h);
    StepRegistered(Run(s, init), e);
    HoldsStep(Run(s, init), e, id, h);
    hide Run, Step, Registered, Holds, TakesId, Releases;
    assert forall k :: 0 <= k <= n ==> es[..k] == init[..k];
    assert HeldSince(s, es, n, id, h) <==> TakesId(Run(s, init), e, id, h);
    forall i: nat | i < n
      ensures HeldSince(s, es, i, id, h) <==> HeldSince(s, init, i, id, h) && !Releases(Run(s, init), e, id)
    {
      assert es[..n] == init && es[i] == init[i];
    }
    if i: nat :| HeldSince(s, init, i, id, h) { assert i < n; }
  }

  /** The ends of a run, while the client is connected, of sessions registered under their id. */
  function RegisteredEnds(s: State, es: seq<Event>): seq<StreamId>
    decreases |es|
  {
    if es == [] then []
    else
      var e := es[0];
      (if e.Ends? && Enabled(s, e) && s.connected && s.alive[e.h].id in s.sessions
          && s.sessions[s.alive[e.h].id] == e.h then [s.alive[e.h].id] else [])
      + RegisteredEnds(Step(s, e), es[1..])
  }

  lemma StepTellsRegistered(s: State, e: Event)
    requires Registered(s)
    ensures Step(s, e).outbox == s.outbox + RegisteredEnds(s, [e])
  {
    assert RegisteredEnds(Step(s, e), [e][1..]) == [];
    if e.Ends? && Enabled(s, e) { EndTells(s, e.h); }
  }

  /** Over every run at all, ids used again included: the server is told exactly of the ends, while
      connected, of sessions that are the registered ones of their ids, once each and in order. */
  lemma {:induction false} ToldIffRegistered(s: State, es: seq<Event>)
    requires Registered(s)
    ensures Registered(Run(s, es)) && Run(s, es).outbox == s.outbox + RegisteredEnds(s, es)
    decreases |es|
  {
    if es != [] {
      var e, rest := es[0], es[1..];
      StepRegistered(s, e);
      StepTellsRegistered(s, e);
      ToldIffRegistered(Step(s, e), rest);
      assert RegisteredEnds(s, es) == RegisteredEnds(s, [e]) + RegisteredEnds(Step(s, e), rest) by {
        assert RegisteredEnds(Step(s, e), [e][1..]) == [];
      }
    }
  }

  /** When a session ends, by itself or after a stop, its id and nothing else leaves the
      registry, and every other session stays as it is. */
  lemma EndsLeaves(s: State, h: nat)
    requires Inv(s) && Enabled(s, Ends(h))
    ensures var r := Step(s, Ends(h));
            && r.sessions == s.sessions - {s.alive[h].id}
            && r.alive == s.alive - {h}
  {
    var id := s.alive[h].id;
    if id !in s.sessions { assert s.sessions - {id} == s.sessions; }
  }

  /** The server's stop takes the id out at once and tells the session, not the server. */
  lemma ServerStopLeaves(s: State, id: StreamId)
    requires Inv(s)
    ensures var r := Step(s, ServerStop(id));
            && r.sessions == s.sessions - {id} && r.outbox == s.outbox
            && (forall h <- s.alive :: s.alive[h] == Session(id, Running) ==> r.alive[h] == Session(id, Stopped))
            && (forall h <- s.alive :: s.alive[h] != Session(id, Running) ==> r.alive[h] == s.alive[h])
  {
    if id !in s.sessions { assert s.sessions - {id} == s.sessions; }
  }

  /** In any state at all, the end of a session leaves the others alone unless its id has
      meanwhile been registered for another one that exists and has not been stopped. */
  lemma EndIsPrivate(s: State, h: nat)
    requires Enabled(s, Ends(h))
    ensures (forall k <- s.alive :: k != h ==> Step(s, Ends(h)).alive[k] == s.alive[k])
            <==> !(var id := s.alive[h].id;
                   && id in s.sessions && s.sessions[id] != h && s.sessions[id] in s.alive
                   && s.alive[s.sessions[id]].phase != Stopped)
  {
    var id := s.alive[h].id;
    var r := Step(s, Ends(h));
    if id in s.sessions && s.sessions[id] != h && s.sessions[id] in s.alive {
      var k := s.sessions[id];
      assert r.alive[k] == s.alive[k].(phase := Stopped);
    }
  }

  /** Such a case: an id is started again before the session the server stopped under it is
      gone. The new session is stopped in its place, and its end is never reported. */
  lemma ReusedIdIsStopped(id: StreamId)
    ensures var before := Run(Initial(true), [Start(id, true), StartDone(0, true), ServerStop(id),
                                              Start(id, true), StartDone(1, true)]);
            var after := Run(before, [Ends(0), Ends(1)]);
            && before.alive == map[0 := Session(id, Stopped), 1 := Session(id, Running)]
            && Step(before, Ends(0)).alive == map[1 := Session(id, Stopped)]
            && after.alive == map[] && after.outbox == []
  {
    var es := [Start(id, true), StartDone(0, true), ServerStop(id), Start(id, true), StartDone(1, true)];
    var s0 := Initial(true);
    var s1 := Step(s0, es[0]);
    assert s1.alive == map[0 := Session(id, Starting)] && s1.sessions == map[];
    var s2 := Step(s1, es[1]);
    assert s2.alive == map[0 := Session(id, Running)] && s2.sessions == map[id := 0];
    var s3 := Step(s2, es[2]);
    assert s3.alive == map[0 := Session(id, Stopped)] && s3.sessions == map[];
    var s4 := Step(s3, es[3]);
    assert s4.alive == map[0 := Session(id, Stopped), 1 := Session(id, Starting)] && s4.sessions == map[];
    var s5 := Step(s4, es[4]);
    assert s5.alive == map[0 := Session(id, Stopped), 1 := Session(id, Running)] && s5.sessions == map[id := 1];
    assert Run(s0, es) == s5 by { RunFive(s0, es); }
    ReusedIdEnds(s5, id);
  }

  lemma ReusedIdEnds(s: State, id: StreamId)
    requires s.alive == map[0 := Session(id, Stopped), 1 := Session(id, Running)]
    requires s.sessions == map[id := 1] && s.outbox == []
    ensures Step(s, Ends(0)).alive == map[1 := Session(id, Stopped)]
    ensures Run(s, [Ends(0), Ends(1)]).alive == map[] && Run(s, [Ends(0), Ends(1)]).outbox == []
  {
    var s1 := Step(s, Ends(0));
    assert s1.sessions == map[] && s1.outbox == [];
    var s2 := Step(s1, Ends(1));
    assert s2.alive == map[] && s2.outbox == [];
    assert Run(s, [Ends(0), Ends(1)]) == Run(s1, [Ends(1)]) == s2;
  }

  lemma RunCons(s: State, es: seq<Event>)
    requires es != []
    ensures Run(s, es) == Run(Step(s, es[0]), es[1..])
  {
  }

  lemma RunFive(s: State, es: seq<Event>)
    requires |es| == 5
    ensures Run(s, es) == Step(Step(Step(Step(Step(s, es[0]), es[1]), es[2]), es[3]), es[4])
  {
    var s1 := Step(s, es[0]);
    var s2 := Step(s1, es[1]);
    var s3 := Step(s2, es[2]);
    assert es[1..][1..] == es[2..] && es[2..][1..] == es[3..] && es[3..][1..] == es[4..] && es[4..][1..] == [];
    RunCons(s, es);
    RunCons(s1, es[1..]);
    RunCons(s2, es[2..]);
    RunCons(s3, es[3..]);
    RunCons(Step(s3, es[3]), es[4..]);
  }

  // ---- as an object -----------------------------------------------------------------

  /** The manager, with the sessions that exist and the client's side of the connection. The
      results are what the handlers are called with. */
  class Manager {
    var sessions: map<StreamId, nat>
    var alive: map<nat, Session>
    var created: nat
    var connected: bool
    var outbox: seq<StreamId>

    ghost function Abs(): State
      reads this
    {
      State(sessions, alive, created, connected, outbox)
    }

    constructor (connected: bool)
      ensures Abs() == Initial(connected)
    {
      sessions, alive, created, outbox := map[], map[], 0, [];
      this.connected := connected;
    }

    /** `made` says whether a session can be created. The result is missing while the session
        is still being started. */
    method Start(id: StreamId, made: bool) returns (refused: bool)
      modifies this
      ensures Abs() == Step(old(Abs()), Event.Start(id, made))
      ensures refused <==> id in old(sessions) || !made
    {
      if id in sessions { return true; }
      if !made { return true; }
      alive := alive[created := Session(id, Starting)];
      created := created + 1;
      return false;
    }

    method OnStarted(h: nat, ok: bool)
      requires Enabled(Abs(), StartDone(h, ok))
      modifies this
      ensures Abs() == Step(old(Abs()), StartDone(h, ok))
    {
      if ok {
        var id := alive[h].id;
        if id !in sessions { sessions := sessions[id := h]; }
        alive := alive[h := Session(id, Running)];
      } else {
        alive := alive - {h};
      }
    }

    method Stop(id: StreamId) returns (found: bool)
      modifies this
      ensures Abs() == Step(old(Abs()), ServerStop(id))
      ensures found <==> id in old(sessions)
    {
      if id !in sessions { return false; }
      var h := sessions[id];
      sessions := sessions - {id};
      if h in alive {
        alive := alive[h := alive[h].(phase := Stopped)];
      } else {
        var _ := TellServer(id);
      }
      return true;
    }

    /** `client::stop_stream`. */
    method TellServer(id: StreamId) returns (sent: bool)
      modifies `outbox
      ensures Abs() == StopStream(old(Abs()), id) && sent == connected
    {
      if !connected { return false; }
      outbox := outbox + [id];
      return true;
    }

    /** The destructor of a session and the end listener it calls. */
    method OnDestroyed(h: nat)
      requires Enabled(Abs(), Ends(h))
      modifies this
      ensures Abs() == Step(old(Abs()), Ends(h))
    {
      var id := alive[h].id;
      alive := alive - {h};
      var _ := Stop(id);
    }

    /** Data for a stream: it goes to the session there is, or ends the stream. */
    method OnInput(id: StreamId) returns (session: nat, taken: bool)
      modifies this
      ensures Abs() == Step(old(Abs()), Input(id))
      ensures taken <==> id in old(sessions) && old(sessions)[id] in alive
      ensures taken ==> session == old(sessions)[id]
    {
      session, taken := 0, false;
      if id in sessions && sessions[id] in alive {
        session, taken := sessions[id], true;
      } else {
        var _ := Stop(id);
      }
    }
  }
}
