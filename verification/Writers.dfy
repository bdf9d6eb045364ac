/** The two owners of a serialised writer as objects: their handlers, and their coroutine cut
    at its suspensions. Each is proved to be a step of `WriteQueue`, and to keep one loop and
    the order of the messages. */
module Writers {
  import opened WriteQueue

  /** The client's writer. `T` is an encoded message. */
  class ClientWriter<T(==)> {
    var writeQueue: seq<T>
    var writeInProgress: bool
    var connected: bool
    /** Which of the client's sockets, one after the other, is the present one, and whether the
        handshake over it is still to come. */
    var connection: nat
    var ready: bool
    /** The coroutines the executor holds for this writer. */
    var loops: seq<Loop<T>>
    ghost var past: Past<T>

    ghost function Abs(): State<T>
      reads this
    {
      State(writeQueue, writeInProgress, connected, connection, ready, loops, past)
    }

    /** One loop or none, as the flag says; messages leave in order; a connection carries a
        contiguous stretch of them. */
    ghost predicate Valid()
      reads this
    {
      Inv(Abs())
    }

    constructor ()
      ensures Valid() && Abs() == Initial(false)
    {
      writeQueue, writeInProgress, connected, connection, ready, loops := [], false, false, 0, false, [];
      past := Past([], [], 0, []);
    }

    method SendMessage(m: T)
      requires Valid()
      modifies this
      ensures Valid() && Abs() == Step(Client, old(Abs()), Send(m))
    {
      StepKeeps(Client, Abs(), Send(m));
      hide Inv;
      writeQueue := writeQueue + [m];
      past := past.(accepted := past.accepted + [m]);
      if !writeInProgress {
        writeInProgress := true;
        loops := loops + [Spawned];
      }
    }

    /** `process_write_queue` from the head of its loop to the next suspension. */
    method ProcessWriteQueue(i: nat)
      requires i < |loops|
      modifies this
      ensures Abs() == Turn(old(Abs()), i)
    {
      if |writeQueue| > 0 && connected {
        var data := writeQueue[0];
        writeQueue := writeQueue[1..];
        past := past.(handed := past.handed + [data]);
        loops := loops[i := Writing(data, connection)];
      } else {
        Finish(i);
      }
    }

    method Finish(i: nat)
      requires i < |loops|
      modifies `writeInProgress, `loops
      ensures Abs() == LoopEnds(old(Abs()), i)
    {
      writeInProgress := false;
      loops := loops[..i] + loops[i + 1..];
    }

    method OnSpawned(i: nat)
      requires Valid() && Enabled(Client, Abs(), Start(i))
      modifies this
      ensures Valid() && Abs() == Step(Client, old(Abs()), Start(i))
    {
      StepKeeps(Client, Abs(), Start(i));
      hide Inv;
      ProcessWriteQueue(i);
    }

    /** The suspended write comes back. A failure also closes the socket. */
    method OnWritten(i: nat, failed: bool)
      requires Valid() && Enabled(Client, Abs(), WriteDone(i))
      modifies this
      ensures Valid() && Abs() == Step(Client, old(Abs()), if failed then WriteFails(i) else WriteDone(i))
    {
      StepKeeps(Client, Abs(), if failed then WriteFails(i) else WriteDone(i));
      hide Inv;
      if failed {
        connected := false;
        Finish(i);
        return;
      }
      Record(i);
      ProcessWriteQueue(i);
    }

    ghost method Record(i: nat)
      requires i < |loops| && loops[i].Writing?
      modifies `past
      ensures past == Written(old(Abs()), i).past
    {
      if loops[i].connection == connection {
        past := past.(wire := past.wire + [loops[i].message]);
      }
    }

    method OnDisconnected()
      requires Valid()
      modifies `connected
      ensures Valid() && Abs() == Step(Client, old(Abs()), Disconnect)
    {
      StepKeeps(Client, Abs(), Disconnect);
      hide Inv;
      connected := false;
    }

    /** `connect` has made a new socket. */
    method OnSocket()
      requires Valid() && Enabled(Client, Abs(), NewSocket)
      modifies `connection, `ready, `past
      ensures Valid() && Abs() == Step(Client, old(Abs()), NewSocket)
    {
      StepKeeps(Client, Abs(), NewSocket);
      hide Inv;
      connection := connection + 1;
      ready := true;
      past := past.(base := |past.handed|, wire := []);
    }

    /** The server has accepted the credentials. */
    method OnAuthenticated()
      requires Valid() && Enabled(Client, Abs(), Reconnect)
      modifies `connected, `ready
      ensures Valid() && Abs() == Step(Client, old(Abs()), Reconnect)
    {
      StepKeeps(Client, Abs(), Reconnect);
      hide Inv;
      connected := true;
      ready := false;
    }
  }

  /** A proxy session's writer: what the stream brings goes to the target. */
  class ProxyWriter<T(==)> {
    var writeQueue: seq<seq<T>>
    var writeInProgress: bool
    var running: bool
    var socketOpen: bool
    var loops: seq<Loop<seq<T>>>
    ghost var past: Past<seq<T>>

    ghost function Abs(): State<seq<T>>
      reads this
    {
      State(writeQueue, writeInProgress, running, 0, false, loops, past)
    }

    /** And the socket of a running session is open. */
    ghost predicate Valid()
      reads this
    {
      Inv(Abs()) && (running ==> socketOpen)
    }

    /** Connected to its target. */
    constructor ()
      ensures Valid() && Abs() == Initial(true)
    {
      writeQueue, writeInProgress, running, socketOpen, loops := [], false, true, true, [];
      past := Past([], [], 0, []);
    }

    /** Anything but a non-empty binary is ignored, and everything once stopped. */
    method HandleInput(isBinary: bool, data: seq<T>)
      requires Valid()
      modifies this
      ensures Valid()
      ensures Abs() == if isBinary && data != [] then Step(Proxy, old(Abs()), Send(data)) else old(Abs())
    {
      StepKeeps(Proxy, Abs(), Send(data));
      hide Inv;
      if !running { return; }
      if !isBinary { return; }
      if |data| == 0 { return; }
      writeQueue := writeQueue + [data];
      past := past.(accepted := past.accepted + [data]);
      if !writeInProgress {
        writeInProgress := true;
        loops := loops + [Spawned];
      }
    }

    /** The coroutine from the head of its loop to the next suspension. A socket that is closed
        while the session runs would stop it. */
    method WriteLoop(i: nat)
      requires i < |loops|
      modifies this
      ensures Abs() == if old(running && writeQueue != [] && !socketOpen)
                       then LoopEnds(old(Abs()).(live := false), i) else Turn(old(Abs()), i)
      ensures running ==> old(running)
      ensures socketOpen == (old(socketOpen) && (running || !old(running)))
    {
      if running && |writeQueue| > 0 {
        if !socketOpen {
          Stop();
          Finish(i);
          return;
        }
        var data := writeQueue[0];
        writeQueue := writeQueue[1..];
        past := past.(handed := past.handed + [data]);
        loops := loops[i := Writing(data, 0)];
      } else {
        Finish(i);
      }
    }

    method Finish(i: nat)
      requires i < |loops|
      modifies `writeInProgress, `loops
      ensures Abs() == LoopEnds(old(Abs()), i)
    {
      writeInProgress := false;
      loops := loops[..i] + loops[i + 1..];
    }

    method OnSpawned(i: nat)
      requires Valid() && Enabled(Proxy, Abs(), Start(i))
      modifies this
      ensures Valid() && Abs() == Step(Proxy, old(Abs()), Start(i))
    {
      StepKeeps(Proxy, Abs(), Start(i));
      hide Inv;
      WriteLoop(i);
    }

    method OnWritten(i: nat, failed: bool)
      requires Valid() && Enabled(Proxy, Abs(), WriteDone(i))
      modifies this
      ensures Valid() && Abs() == Step(Proxy, old(Abs()), if failed then WriteFails(i) else WriteDone(i))
    {
      StepKeeps(Proxy, Abs(), if failed then WriteFails(i) else WriteDone(i));
      assert loops[i].connection == 0;
      hide Inv;
      if failed {
        Stop();
        Finish(i);
        return;
      }
      past := past.(wire := past.wire + [loops[i].message]);
      WriteLoop(i);
    }

    method Stop()
      modifies `running, `socketOpen
      ensures Abs() == Step(Proxy, old(Abs()), Disconnect) && !running && !socketOpen
      ensures old(Valid()) ==> Valid()
    {
      if Inv(Abs()) { StepKeeps(Proxy, Abs(), Disconnect); }
      hide Inv;
      running := false;
      if socketOpen { socketOpen := false; }
    }
  }
}
