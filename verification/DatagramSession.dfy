/** `udp::connector` and `kcp::connector` with their connection and their socket: the
    receives of closed sockets, whose handlers close the present one. */
module DatagramSession {
  import opened Lifecycle

  /** A receive handler about to run.  `stale` ones were started before the last
      `close`. */
  datatype Completion = Completion(ok: bool, stale: bool)

  /** `watched` receives are under way on the present socket; `posted` handlers run in
      order. */
  datatype Session = Session(life: Life, watched: nat, posted: seq<Completion>)

  const NEW := Session(START, 0, [])

  /** Steps of the event loop and of the program.  A handler starts another receive
      (`again`) unless it is that of a KCP socket and the datagram bears no
      conversation.  `sends` tells whether the sends within a step succeed. */
  datatype Step =
    | Ready(ok: bool)
    | RunNext(again: bool)
    | Send(sends: bool)
    | Connect(opens: bool, binds: bool, ok: bool, sends: bool)
    | Disconnect
    | Close

  function AllStale(posted: seq<Completion>): (r: seq<Completion>)
    ensures |r| == |posted|
  {
    seq(|posted|, i requires 0 <= i < |posted| => posted[i].(stale := true))
  }

  function Aborted(watched: nat): (r: seq<Completion>)
    ensures |r| == watched
  {
    seq(watched, i requires 0 <= i < watched => Completion(false, true))
  }

  /** `socket::close`, what it cancels, and `on_close`. */
  function CloseAll(s: Session): Session {
    Session(Exec(s.life, SocketClose([])), 0, AllStale(s.posted) + Aborted(s.watched))
  }

  /** A receive is started: on a closed socket it fails at once. */
  function Watch(s: Session): Session {
    if s.life.open then s.(watched := s.watched + 1)
    else s.(posted := s.posted + [Completion(false, false)])
  }

  /** `do_write`: a send that fails closes the socket. */
  function Sent(s: Session, sends: bool): Session {
    if sends then s else CloseAll(s)
  }

  function OnReceive(s: Session, ok: bool, again: bool): Session {
    if !ok then CloseAll(s) else if again then Watch(s) else s
  }

  /** `connect` and, where it succeeds, the `open` of the socket at its end. */
  function Reconnecting(s: Session, opens: bool, binds: bool, ok: bool, sends: bool): Session {
    var r := CloseAll(s).(life := Exec(s.life, Try([DatagramConnect([], opens, binds, ok, [])])));
    if opens && binds && ok then Sent(Watch(r), sends) else r
  }

  function Next(s: Session, step: Step): Session {
    match step
    case Ready(ok) =>
      if s.watched == 0 then s
      else s.(watched := s.watched - 1, posted := s.posted + [Completion(ok, false)])
    case RunNext(again) =>
      if s.posted == [] then s else OnReceive(s.(posted := s.posted[1..]), s.posted[0].ok, again)
    case Send(sends) => Sent(s, sends)
    case Connect(opens, binds, ok, sends) => Reconnecting(s, opens, binds, ok, sends)
    case Disconnect =>
      if s.life.state == DISCONNECTED then s
      else CloseAll(s).(life := Exec(s.life, Call.Disconnect([])))
    case Close => CloseAll(s)
  }

  function Run(s: Session, steps: seq<Step>): Session
    decreases |steps|
  {
    if steps == [] then s else Run(Next(s, steps[0]), steps[1..])
  }

  // ---------- the connection ----------

  lemma OneCall(l: Life, call: Call)
    ensures !l.thrown ==> ExecAll(l, [call]) == Exec(l, call)
    ensures Uses(Datagram, true, call) ==> UsesAll(Datagram, true, [call])
  {
    assert [call][1..] == [];
    assert ExecAll(Exec(l, call), []) == Exec(l, call);
    assert UsesAll(Datagram, true, []);
  }

  lemma CloseLife(l: Life)
    requires !l.thrown
    ensures var r := Exec(l, SocketClose([]));
            !r.thrown && !r.open && r.state == if l.state == CONNECTED then DISCONNECTED else l.state
  {
    CloseUnfolds(l, []);
  }

  /** `connect` without callbacks that call back: connected on an open socket if all
      goes well, and otherwise not connected. */
  lemma ConnectLife(l: Life, opens: bool, binds: bool, ok: bool)
    requires !l.thrown
    ensures var r := Exec(l, Try([DatagramConnect([], opens, binds, ok, [])]));
            && !r.thrown && (r.state == CONNECTED <==> opens && binds && ok)
            && (opens && binds && ok ==> r.open)
  {
    var call := DatagramConnect([], opens, binds, ok, []);
    OneCall(l, call);
    CloseLife(l);
    var c := Reopening(l, [], opens, binds);
    if !c.thrown && !ok {
      DisconnectUnfolds(c, []);
    }
  }

  /** The calls on the connection in one step. */
  function Calls(s: Session, step: Step): seq<Call> {
    match step
    case RunNext(_) => if s.posted != [] && !s.posted[0].ok then [SocketClose([])] else []
    case Send(sends) => if sends then [] else [SocketClose([])]
    case Connect(opens, binds, ok, sends) =>
      [Try([DatagramConnect([], opens, binds, ok, [])])]
      + if opens && binds && ok && !sends then [SocketClose([])] else []
    case Disconnect => [Call.Disconnect([])]
    case Close => [SocketClose([])]
    case Ready(_) => []
  }

  lemma PlainUses(opens: bool, binds: bool, ok: bool)
    ensures Uses(Datagram, true, SocketClose([])) && Uses(Datagram, true, Call.Disconnect([]))
    ensures Uses(Datagram, true, Try([DatagramConnect([], opens, binds, ok, [])]))
  {
    assert UsesAll(Datagram, false, []);
    OneCall(START, DatagramConnect([], opens, binds, ok, []));
  }

  lemma {:induction false} CallsJoin(l: Life, a: seq<Call>, b: seq<Call>)
    ensures ExecAll(l, a + b) == ExecAll(ExecAll(l, a), b)
    ensures UsesAll(Datagram, true, a) && UsesAll(Datagram, true, b) ==> UsesAll(Datagram, true, a + b)
    decreases |a|
  {
    if a == [] {
      assert a + b == b;
    } else {
      assert (a + b)[1..] == a[1..] + b;
      CallsJoin(Exec(l, a[0]), a[1..], b);
    }
  }

  lemma DisconnectLife(l: Life)
    requires !l.thrown
    ensures !Exec(l, Call.Disconnect([])).thrown
    ensures l.state == DISCONNECTED ==> Exec(l, Call.Disconnect([])) == l
  {
    if l.state != DISCONNECTED {
      DisconnectUnfolds(l, []);
    }
  }

  lemma StepProjects(s: Session, step: Step)
    requires !s.life.thrown
    ensures Next(s, step).life == ExecAll(s.life, Calls(s, step)) && !Next(s, step).life.thrown
    ensures UsesAll(Datagram, true, Calls(s, step))
  {
    PlainUses(step.Connect? && step.opens, step.Connect? && step.binds, step.Connect? && step.ok);
    CloseLife(s.life);
    OneCall(s.life, SocketClose([]));
    match step
    case Connect(opens, binds, ok, sends) =>
      var call := Try([DatagramConnect([], opens, binds, ok, [])]);
      ConnectLife(s.life, opens, binds, ok);
      OneCall(s.life, call);
      CallsJoin(s.life, [call], if opens && binds && ok && !sends then [SocketClose([])] else []);
      OneCall(Exec(s.life, call), SocketClose([]));
      CloseLife(Exec(s.life, call));
    case Disconnect =>
      OneCall(s.life, Call.Disconnect([]));
      DisconnectLife(s.life);
    case Ready(_) =>
    case RunNext(_) =>
    case Send(_) =>
    case Close =>
  }

  lemma {:induction false} RunProjects(s: Session, steps: seq<Step>) returns (calls: seq<Call>)
    requires !s.life.thrown
    ensures Run(s, steps).life == ExecAll(s.life, calls) && UsesAll(Datagram, true, calls)
    ensures !Run(s, steps).life.thrown
    decreases |steps|
  {
    calls := [];
    if steps != [] {
      StepProjects(s, steps[0]);
      calls := RunProjects(Next(s, steps[0]), steps[1..]);
      CallsJoin(s.life, Calls(s, steps[0]), calls);
      calls := Calls(s, steps[0]) + calls;
    }
  }

  /** No run of a datagram connector drops a connection in silence. */
  lemma RunAnnounces(steps: seq<Step>)
    ensures Dropped !in Run(NEW, steps).life.log
  {
    var calls := RunProjects(NEW, steps);
    NoSilentDeparture(Datagram, false, calls);
  }

  // ---------- whether a connection lasts ----------

  /** The event loop goes on and the program only sends. */
  predicate Going(steps: seq<Step>) {
    forall i :: 0 <= i < |steps| ==> steps[i].Ready? || steps[i].RunNext? || steps[i].Send?
  }

  predicate Up(s: Session) {
    s.life.state == CONNECTED && s.life.open
  }

  /** The connection has outlived every handler from before it. */
  predicate Settled(s: Session) {
    Up(s) && forall i :: 0 <= i < |s.posted| ==> !s.posted[i].stale
  }

  ghost predicate CanSettle(s: Session) {
    exists steps: seq<Step> :: Going(steps) && Settled(Run(s, steps))
  }

  /** A handler from before that will close the socket. */
  predicate DoomedAt(s: Session, k: nat) {
    k < |s.posted| && s.posted[k].stale && !s.posted[k].ok
  }

  lemma StaysDown(s: Session, step: Step)
    requires !s.life.thrown && !Up(s) && Going([step])
    ensures !Next(s, step).life.thrown && !Up(Next(s, step))
  {
    assert step == [step][0];
    CloseLife(s.life);
  }

  lemma DoomedStep(s: Session, k: nat, step: Step)
    requires !s.life.thrown && DoomedAt(s, k) && Going([step])
    ensures var r := Next(s, step);
            !r.life.thrown && (!Up(r) || DoomedAt(r, if step.RunNext? then k - 1 else k))
  {
    assert step == [step][0];
    CloseLife(s.life);
  }

  function Handlers(steps: seq<Step>): nat {
    if steps == [] then 0 else Handlers(steps[1..]) + if steps[0].RunNext? then 1 else 0
  }

  lemma {:induction false} DownStays(s: Session, steps: seq<Step>)
    requires !s.life.thrown && !Up(s) && Going(steps)
    ensures !Up(Run(s, steps))
    decreases |steps|
  {
    if steps != [] {
      assert Going([steps[0]]);
      StaysDown(s, steps[0]);
      DownStays(Next(s, steps[0]), steps[1..]);
    }
  }

  /** Such a connection is never settled, and down once the handler has run. */
  lemma {:induction false} DoomedRun(s: Session, k: nat, steps: seq<Step>)
    requires !s.life.thrown && DoomedAt(s, k) && Going(steps)
    ensures !Settled(Run(s, steps))
    ensures Handlers(steps) > k ==> !Up(Run(s, steps))
    decreases |steps|
  {
    if steps != [] {
      assert Going([steps[0]]);
      DoomedStep(s, k, steps[0]);
      var r := Next(s, steps[0]);
      if Up(r) {
        DoomedRun(r, if steps[0].RunNext? then k - 1 else k, steps[1..]);
      } else {
        DownStays(r, steps[1..]);
      }
    }
  }

  /** With handlers that succeed only, all of them can run. */
  lemma {:induction false} PromisingSettles(s: Session) returns (steps: seq<Step>)
    requires Up(s) && forall i :: 0 <= i < |s.posted| ==> s.posted[i].ok
    ensures Going(steps) && Settled(Run(s, steps))
    decreases |s.posted|
  {
    steps := [];
    if s.posted != [] {
      var more := PromisingSettles(Next(s, RunNext(true)));
      steps := [RunNext(true)] + more;
      assert steps[1..] == more;
    }
  }

  /** The first failed handler left behind by a `connect`, if there is one. */
  lemma LeftBehind(s: Session, step: Step) returns (k: nat)
    requires !s.life.thrown && step.Connect?
    requires s.watched > 0 || exists i :: 0 <= i < |s.posted| && !s.posted[i].ok
    ensures k < |s.posted| + s.watched && DoomedAt(Next(s, step), k)
  {
    var p := AllStale(s.posted) + Aborted(s.watched);
    if s.watched > 0 {
      k := |s.posted|;
    } else {
      k :| 0 <= k < |s.posted| && !s.posted[k].ok;
    }
    assert p[k].stale && !p[k].ok;
    var r := CloseAll(s).(life := Exec(s.life, Try([DatagramConnect([], step.opens, step.binds, step.ok, [])])));
    assert r.posted == p && DoomedAt(r, k) && DoomedAt(Watch(r), k) && DoomedAt(CloseAll(Watch(r)), k);
  }

  /** A connection made by `connect` can last beyond the handlers from before it if
      and only if no receive was under way, no failed handler was pending, and
      `connect` and its sends succeed. */
  lemma CanSettleIff(s: Session, opens: bool, binds: bool, ok: bool, sends: bool)
    requires !s.life.thrown
    ensures CanSettle(Next(s, Connect(opens, binds, ok, sends))) <==>
            && s.watched == 0 && (forall i :: 0 <= i < |s.posted| ==> s.posted[i].ok)
            && opens && binds && ok && sends
  {
    var step := Connect(opens, binds, ok, sends);
    var r := Next(s, step);
    ConnectLife(s.life, opens, binds, ok);
    var up := opens && binds && ok && sends;
    if s.watched > 0 || exists i :: 0 <= i < |s.posted| && !s.posted[i].ok {
      var k := LeftBehind(s, step);
      DownOrUp(s, step);
      forall steps: seq<Step> | Going(steps) ensures !Settled(Run(r, steps)) {
        DoomedRun(r, k, steps);
      }
    } else if up {
      var steps := PromisingSettles(r);
    } else {
      DownOrUp(s, step);
      forall steps: seq<Step> | Going(steps) ensures !Settled(Run(r, steps)) {
        DownStays(r, steps);
      }
    }
  }

  lemma DownOrUp(s: Session, step: Step)
    requires !s.life.thrown && step.Connect?
    ensures var r := Next(s, step);
            !r.life.thrown && (Up(r) <==> step.opens && step.binds && step.ok && step.sends)
  {
    ConnectLife(s.life, step.opens, step.binds, step.ok);
    CloseLife(Exec(s.life, Try([DatagramConnect([], step.opens, step.binds, step.ok, [])])));
  }

  /** `connect` while a receive is under way: whatever comes of it, the connection is
      down once the handlers left behind have run. */
  lemma ReconnectIsLost(s: Session, opens: bool, binds: bool, ok: bool, sends: bool, steps: seq<Step>)
    requires !s.life.thrown && s.watched > 0 && Going(steps)
    requires Handlers(steps) >= |s.posted| + s.watched
    ensures !Up(Run(Next(s, Connect(opens, binds, ok, sends)), steps))
  {
    var step := Connect(opens, binds, ok, sends);
    var k := LeftBehind(s, step);
    DownOrUp(s, step);
    DoomedRun(Next(s, step), k, steps);
  }

  // ---------- receiving ----------

  /** Every handler of a run starts another receive. */
  predicate AllAgain(steps: seq<Step>) {
    forall i :: 0 <= i < |steps| && steps[i].RunNext? ==> steps[i].again
  }

  /** A receive of the present socket is under way, or its handler about to run. */
  predicate Receiving(s: Session) {
    s.watched > 0 || exists i :: 0 <= i < |s.posted| && !s.posted[i].stale
  }

  lemma UpReceives(s: Session, step: Step)
    requires !s.life.thrown && (Up(s) ==> Receiving(s)) && (step.RunNext? ==> step.again)
    ensures Up(Next(s, step)) ==> Receiving(Next(s, step))
  {
    var r := Next(s, step);
    CloseLife(s.life);
    match step
    case Ready(ok) =>
      if s.watched > 0 {
        assert !r.posted[|s.posted|].stale;
      } else {
        assert r == s;
      }
    case RunNext(again) =>
    case Send(_) =>
    case Connect(opens, binds, ok, sends) =>
      DownOrUp(s, step);
      ConnectLife(s.life, opens, binds, ok);
    case Disconnect => DisconnectLife(s.life);
    case Close =>
  }

  /** In every run whose handlers all ask for another receive, a connection on an open
      socket has one under way or its handler about to run. */
  lemma {:induction false} RunReceives(s: Session, steps: seq<Step>)
    requires !s.life.thrown && (Up(s) ==> Receiving(s)) && AllAgain(steps)
    ensures Up(Run(s, steps)) ==> Receiving(Run(s, steps))
    decreases |steps|
  {
    if steps != [] {
      UpReceives(s, steps[0]);
      StepProjects(s, steps[0]);
      RunReceives(Next(s, steps[0]), steps[1..]);
    }
  }

  /** A receive that fails closes the connection once its handler has run; one that
      succeeds, alone in the queue, leaves it as it was. */
  lemma FailedReceive(s: Session, steps: seq<Step>)
    requires !s.life.thrown && s.watched > 0 && Going(steps) && Handlers(steps) > |s.posted|
    ensures !Up(Run(Next(s, Ready(false)), steps))
  {
    FailingRun(Next(s, Ready(false)), |s.posted|, steps);
  }

  lemma GoodReceive(s: Session)
    requires Up(s) && s.watched > 0 && s.posted == []
    ensures Next(Next(s, Ready(true)), RunNext(true)) == s
    ensures Next(Next(s, Ready(true)), RunNext(false)) == s.(watched := s.watched - 1)
  {
  }

  predicate FailingAt(s: Session, k: nat) {
    k < |s.posted| && !s.posted[k].ok
  }

  lemma FailingStep(s: Session, k: nat, step: Step)
    requires !s.life.thrown && FailingAt(s, k) && Going([step])
    ensures var r := Next(s, step);
            !r.life.thrown && (!Up(r) || FailingAt(r, if step.RunNext? then k - 1 else k))
  {
    assert step == [step][0];
    CloseLife(s.life);
  }

  lemma {:induction false} FailingRun(s: Session, k: nat, steps: seq<Step>)
    requires !s.life.thrown && FailingAt(s, k) && Going(steps) && Handlers(steps) > k
    ensures !Up(Run(s, steps))
    decreases |steps|
  {
    assert Going([steps[0]]);
    FailingStep(s, k, steps[0]);
    var r := Next(s, steps[0]);
    if Up(r) {
      FailingRun(r, if steps[0].RunNext? then k - 1 else k, steps[1..]);
    } else {
      DownStays(r, steps[1..]);
    }
  }

  // ---------- the object ----------

  class Connector {
    const connection: Connection
    var watched: nat
    var posted: seq<Completion>

    ghost function View(): Session
      reads this, connection
    {
      Session(connection.View(), watched, posted)
    }

    constructor ()
      ensures View() == NEW && fresh(connection)
    {
      connection := new Connection();
      watched, posted := 0, [];
    }

    method Cancel()
      modifies this
      ensures watched == 0 && posted == AllStale(old(posted)) + Aborted(old(watched))
      ensures |posted| == |old(posted)| + old(watched)
      ensures forall i :: 0 <= i < |posted| ==>
                posted[i] == if i < |old(posted)| then old(posted)[i].(stale := true) else Completion(false, true)
    {
      watched, posted := 0, AllStale(posted) + Aborted(watched);
    }

    method Start()
      modifies this
      ensures View() == Watch(old(View()))
      ensures connection.open ==> watched == old(watched) + 1 && posted == old(posted)
      ensures !connection.open ==> watched == old(watched) && posted == old(posted) + [Completion(false, false)]
    {
      if connection.open {
        watched := watched + 1;
      } else {
        posted := posted + [Completion(false, false)];
      }
    }

    method Report(ok: bool)
      modifies this
      ensures View() == Next(old(View()), Ready(ok))
      ensures if old(watched) > 0 then
                watched == old(watched) - 1 && posted == old(posted) + [Completion(ok, false)]
              else
                unchanged(this)
    {
      if watched > 0 {
        watched, posted := watched - 1, posted + [Completion(ok, false)];
      }
    }

    /** `socket::close` */
    method CloseSocket()
      modifies this, connection
      ensures View() == CloseAll(old(View()))
      ensures !connection.open && watched == 0
      ensures connection.state == if old(connection.state) == CONNECTED then DISCONNECTED else old(connection.state)
    {
      Cancel();
      connection.CloseSocket([]);
    }

    method Connect(opens: bool, binds: bool, ok: bool, sends: bool)
      requires !connection.thrown
      modifies this, connection
      ensures View() == Next(old(View()), Step.Connect(opens, binds, ok, sends))
      ensures opens && binds && ok && sends ==>
                connection.state == CONNECTED && connection.open && watched == 1
      ensures !(opens && binds && ok && sends) ==> connection.state != CONNECTED && watched == 0
    {
      ConnectLife(connection.View(), opens, binds, ok);
      Cancel();
      connection.Dispatch(Try([DatagramConnect([], opens, binds, ok, [])]));
      if opens && binds && ok {
        Start();
        if !sends {
          CloseSocket();
        }
      }
    }

    method Disconnect()
      modifies this, connection
      ensures View() == Next(old(View()), Step.Disconnect)
      ensures connection.state == DISCONNECTED
      ensures old(connection.state) != DISCONNECTED && !old(connection.thrown) ==>
                && !connection.open && watched == 0
                && connection.log == old(connection.log)
                                     + [if old(connection.state) == CONNECTED then Down else GaveUp]
                                     + [DisconnectedCall]
    {
      if connection.state != DISCONNECTED {
        Cancel();
      }
      connection.Disconnect([]);
    }

    /** The handler of a receive. */
    method ReceiveHandler(c: Completion, again: bool)
      requires posted != [] && posted[0] == c
      modifies this, connection
      ensures View() == Next(old(View()), RunNext(again))
      ensures !c.ok ==> !connection.open && watched == 0 && connection.state != CONNECTED
      ensures c.ok && connection.open ==>
                && posted == old(posted)[1..] && connection.state == old(connection.state)
                && watched == old(watched) + if again then 1 else 0
    {
      posted := posted[1..];
      if !c.ok {
        CloseSocket();
      } else if again {
        Start();
      }
    }

    method Perform(step: Step)
      requires !connection.thrown
      modifies this, connection
      ensures View() == Next(old(View()), step) && !connection.thrown
    {
      StepProjects(View(), step);
      if step.Ready? {
        Report(step.ok);
      } else if step.RunNext? {
        if posted != [] {
          ReceiveHandler(posted[0], step.again);
        }
      } else if step.Send? {
        if !step.sends {
          CloseSocket();
        }
      } else if step.Connect? {
        Connect(step.opens, step.binds, step.ok, step.sends);
      } else if step.Disconnect? {
        Disconnect();
      } else {
        CloseSocket();
      }
    }
  }
}
