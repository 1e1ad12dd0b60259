/** `tcp::connector` with its connection, its socket and the event loop: the state
    machines of `Lifecycle` and `TcpSocket` composed. */
module TcpSession {
  import opened Bytes
  import opened Lifecycle
  import Tcp = TcpSocket

  datatype Wait = ReadWait | WriteWait | ConnectWait

  /** A handler about to run.  `stale` ones were started before the last `close`. */
  datatype Completion = Completion(wait: Wait, ok: bool, stale: bool)

  /** `watched` is what the reactor watches on the present descriptor; `posted` runs
      in order. */
  datatype Session = Session(life: Life, sender: Tcp.Sender, watched: seq<Wait>, posted: seq<Completion>)

  const NEW := Session(START, Tcp.IDLE, [], [])

  /** How `async_connect` begins. */
  datatype Answer = OpenFails | InProgress | Settled(ok: bool)

  /** Steps of the event loop (the reactor reports a wait, the next handler runs) and
      of the program.  A callback that calls `connect` when the connection is lost is
      a `Connect` right after the step that lost it. */
  datatype Step =
    | Ready(i: nat, ok: bool)
    | RunNext(answers: seq<Tcp.Transfer>)
    | Send(bytes: seq<byte>)
    | Connect(answer: Answer)
    | Disconnect
    | Close

  function AllStale(posted: seq<Completion>): (r: seq<Completion>)
    ensures |r| == |posted|
  {
    seq(|posted|, i requires 0 <= i < |posted| => posted[i].(stale := true))
  }

  function Aborted(watched: seq<Wait>): (r: seq<Completion>)
    ensures |r| == |watched|
  {
    seq(|watched|, i requires 0 <= i < |watched| => Completion(watched[i], false, true))
  }

  /** `socket::close`, what it cancels, and `on_close`. */
  function CloseAll(s: Session): Session {
    Session(Exec(s.life, SocketClose([])), Tcp.Step(s.sender, Tcp.Closed),
            [], AllStale(s.posted) + Aborted(s.watched))
  }

  /** A wait is started: on a closed socket it fails at once. */
  function Watch(s: Session, wait: Wait): Session {
    if s.life.open then s.(watched := s.watched + [wait])
    else s.(posted := s.posted + [Completion(wait, false, false)])
  }

  /** The sender takes a step that may start a write wait. */
  function Sending(s: Session, e: Tcp.Event, started: bool): Session {
    var r := s.(sender := Tcp.Step(s.sender, e));
    if started then Watch(r, WriteWait) else r
  }

  /** Does the receive loop end with an error? */
  predicate ReadFails(answers: seq<Tcp.Transfer>) {
    answers != [] && (answers[0].ec.Fatal? || (answers[0].ec.NoError? && ReadFails(answers[1..])))
  }

  /** It is the failure of the read loop, unless that hangs before. */
  lemma {:induction false} ReadFailsIs(recv: seq<byte>, wire: seq<byte>, answers: seq<Tcp.Transfer>)
    requires !Tcp.ReadLoop(recv, wire, answers).stuck
    ensures Tcp.ReadLoop(recv, wire, answers).failed <==> ReadFails(answers)
    decreases |answers|
  {
    if answers != [] && answers[0].ec.NoError? {
      var p := Tcp.ReceiveOnce(recv, wire, answers[0].count);
      ReadFailsIs(p.rest, wire[Min(answers[0].count, |wire|)..], answers[1..]);
    }
  }

  function OnRead(s: Session, ok: bool, answers: seq<Tcp.Transfer>): Session {
    if !ok || ReadFails(answers) then CloseAll(s) else Watch(s, ReadWait)
  }

  function OnWrite(s: Session, c: Completion, answers: seq<Tcp.Transfer>): Session {
    var e := if c.stale then Tcp.StaleFired(!c.ok, answers) else Tcp.Fired(!c.ok, answers);
    if !c.ok || Tcp.Drain(s.sender.sendBuff, answers).failed then
      CloseAll(s).(sender := Tcp.Step(s.sender, e))
    else
      Sending(s, e, Tcp.Step(s.sender, e).sending)
  }

  /** The completion of `async_connect`; an exception leaves the handler. */
  function OnConnect(s: Session, ok: bool): Session {
    var life := Exec(s.life, Try([Completed(ok, [])]));
    if ok then
      if s.life.state == CONNECTED || !s.life.open then
        s.(life := life)
      else
        var r := Watch(s.(life := life), ReadWait);
        Sending(r, Tcp.Open, !s.sender.sending && |s.sender.sendBuff| > 0)
    else if s.life.state == DISCONNECTED then
      s
    else
      CloseAll(s).(life := life)
  }

  function Reconnecting(s: Session, answer: Answer): Session {
    var closed := CloseAll(s);
    var r := closed.(life := Exec(s.life, TcpConnect([], !answer.OpenFails?)));
    match answer
    case OpenFails => r.(posted := r.posted + [Completion(ConnectWait, false, false)])
    case InProgress => r.(watched := r.watched + [ConnectWait])
    case Settled(ok) => r.(posted := r.posted + [Completion(ConnectWait, ok, false)])
  }

  function Next(s: Session, step: Step): Session {
    match step
    case Ready(i, ok) =>
      if i < |s.watched| then
        s.(watched := s.watched[..i] + s.watched[i + 1..],
           posted := s.posted + [Completion(s.watched[i], ok, false)])
      else s
    case RunNext(answers) =>
      if s.posted == [] then s
      else
        var c, r := s.posted[0], s.(posted := s.posted[1..]);
        (match c.wait
         case ReadWait => OnRead(r, c.ok, answers)
         case WriteWait => OnWrite(r, c, answers)
         case ConnectWait => OnConnect(r, c.ok))
    case Send(bytes) =>
      Sending(s, Tcp.Flush(bytes), !s.sender.sending && |s.sender.sendBuff + bytes| > 0)
    case Connect(answer) => Reconnecting(s, answer)
    case Disconnect =>
      if s.life.state == DISCONNECTED then s
      else CloseAll(s).(life := Exec(s.life, Call.Disconnect([])))
    case Close => CloseAll(s)
  }

  /** The step closes the socket. */
  predicate Closes(s: Session, step: Step) {
    match step
    case RunNext(answers) =>
      s.posted != [] &&
      (match s.posted[0].wait
       case ReadWait => !s.posted[0].ok || ReadFails(answers)
       case WriteWait => !s.posted[0].ok || Tcp.Drain(s.sender.sendBuff, answers).failed
       case ConnectWait => !s.posted[0].ok && s.life.state != DISCONNECTED)
    case Connect(_) => true
    case Disconnect => s.life.state != DISCONNECTED
    case Close => true
    case _ => false
  }

  function Run(s: Session, steps: seq<Step>): Session
    decreases |steps|
  {
    if steps == [] then s else Run(Next(s, steps[0]), steps[1..])
  }

  // ---------- both machines ----------

  /** The calls on the connection in one step. */
  function Calls(s: Session, step: Step): seq<Call> {
    match step
    case RunNext(answers) =>
      if s.posted == [] then []
      else
        var c := s.posted[0];
        (match c.wait
         case ReadWait => if !c.ok || ReadFails(answers) then [SocketClose([])] else []
         case WriteWait =>
           if !c.ok || Tcp.Drain(s.sender.sendBuff, answers).failed then [SocketClose([])] else []
         case ConnectWait => [Try([Completed(c.ok, [])])])
    case Connect(answer) => [TcpConnect([], !answer.OpenFails?)]
    case Disconnect => [Call.Disconnect([])]
    case Close => [SocketClose([])]
    case _ => []
  }

  /** The events of its sender. */
  function Events(s: Session, step: Step): seq<Tcp.Event> {
    match step
    case RunNext(answers) =>
      if s.posted == [] then []
      else
        var c := s.posted[0];
        (match c.wait
         case ReadWait => if !c.ok || ReadFails(answers) then [Tcp.Closed] else []
         case WriteWait => [if c.stale then Tcp.StaleFired(!c.ok, answers) else Tcp.Fired(!c.ok, answers)]
         case ConnectWait =>
           if c.ok then (if s.life.state == CONNECTED || !s.life.open then [] else [Tcp.Open])
           else if s.life.state == DISCONNECTED then [] else [Tcp.Closed])
    case Send(bytes) => [Tcp.Flush(bytes)]
    case Connect(_) => [Tcp.Closed]
    case Disconnect => if s.life.state == DISCONNECTED then [] else [Tcp.Closed]
    case Close => [Tcp.Closed]
    case _ => []
  }

  lemma OneCall(l: Life, call: Call)
    ensures !l.thrown ==> ExecAll(l, [call]) == Exec(l, call)
    ensures Uses(Stream, true, call) ==> UsesAll(Stream, true, [call])
  {
    assert [call][1..] == [];
    assert ExecAll(Exec(l, call), []) == Exec(l, call);
    assert UsesAll(Stream, true, []);
  }

  lemma PlainClose(l: Life)
    requires !l.thrown
    ensures !Exec(l, SocketClose([])).thrown && !Exec(l, TcpConnect([], true)).thrown
    ensures !Exec(l, TcpConnect([], false)).thrown
  {
    CloseUnfolds(l, []);
    assert !Lifecycle.Closing(l, []).thrown;
  }

  lemma PlainDisconnect(l: Life)
    requires !l.thrown
    ensures !Exec(l, Call.Disconnect([])).thrown
  {
    if l.state != DISCONNECTED {
      DisconnectUnfolds(l, []);
    }
  }

  lemma PlainCompleted(l: Life, ok: bool)
    requires !l.thrown
    ensures !Exec(l, Try([Completed(ok, [])])).thrown
    ensures !ok && l.state == DISCONNECTED ==> Exec(l, Try([Completed(ok, [])])) == l
  {
    OneCall(l, Completed(ok, []));
  }

  lemma CompletedOk(l: Life)
    ensures var r := Exec(l, Try([Completed(true, [])]));
            if l.thrown then r == l.(thrown := false) else r.state == CONNECTED && r.open == l.open
  {
    OneCall(l, Completed(true, []));
  }

  lemma ConnectLeaves(s: Session, opens: bool)
    requires !s.life.thrown
    ensures var l := Exec(s.life, TcpConnect([], opens)); l.state == CONNECTING && l.open == opens
  {
    CloseUnfolds(s.life, []);
  }

  lemma PlainUses(ok: bool, opens: bool)
    ensures Uses(Stream, true, SocketClose([])) && Uses(Stream, true, Call.Disconnect([]))
    ensures Uses(Stream, true, TcpConnect([], opens)) && Uses(Stream, true, Try([Completed(ok, [])]))
  {
    assert UsesAll(Stream, false, []);
    OneCall(START, Completed(ok, []));
  }

  /** A step is a run of either machine. */
  lemma StepProjects(s: Session, step: Step)
    requires !s.life.thrown
    ensures Next(s, step).life == ExecAll(s.life, Calls(s, step)) && !Next(s, step).life.thrown
    ensures Next(s, step).sender == Tcp.Run(s.sender, Events(s, step))
    ensures UsesAll(Stream, true, Calls(s, step))
  {
    EventsProject(s, step);
    var calls := Calls(s, step);
    if calls != [] {
      OneCall(s.life, calls[0]);
      assert calls == [calls[0]];
      PlainUses(calls[0].Try? && calls[0].body[0].ok, calls[0].TcpConnect? && calls[0].opens);
      PlainClose(s.life);
      PlainDisconnect(s.life);
      if calls[0].Try? {
        PlainCompleted(s.life, calls[0].body[0].ok);
      }
    }
  }

  lemma EventsProject(s: Session, step: Step)
    ensures Next(s, step).sender == Tcp.Run(s.sender, Events(s, step))
  {
    var events := Events(s, step);
    if events != [] {
      assert events[1..] == [];
      assert Tcp.Run(s.sender, events) == Tcp.Run(Tcp.Step(s.sender, events[0]), []);
    }
  }

  lemma {:induction false} ExecJoin(l: Life, a: seq<Call>, b: seq<Call>)
    ensures ExecAll(l, a + b) == ExecAll(ExecAll(l, a), b)
    ensures UsesAll(Stream, true, a) && UsesAll(Stream, true, b) ==> UsesAll(Stream, true, a + b)
    decreases |a|
  {
    if a == [] {
      assert a + b == b;
    } else {
      assert (a + b)[1..] == a[1..] + b;
      ExecJoin(Exec(l, a[0]), a[1..], b);
    }
  }

  lemma {:induction false} EventsJoin(s: Tcp.Sender, a: seq<Tcp.Event>, b: seq<Tcp.Event>)
    ensures Tcp.Run(s, a + b) == Tcp.Run(Tcp.Run(s, a), b)
    decreases |a|
  {
    if a == [] {
      assert a + b == b;
    } else {
      assert (a + b)[1..] == a[1..] + b;
      EventsJoin(Tcp.Step(s, a[0]), a[1..], b);
    }
  }

  /** A run is a run of the connection, as programs with a TCP connector make them,
      and a run of the sender. */
  lemma {:induction false} RunProjects(s: Session, steps: seq<Step>)
    returns (calls: seq<Call>, events: seq<Tcp.Event>)
    requires !s.life.thrown
    ensures Run(s, steps).life == ExecAll(s.life, calls) && UsesAll(Stream, true, calls)
    ensures Run(s, steps).sender == Tcp.Run(s.sender, events)
    decreases |steps|
  {
    calls, events := [], [];
    if steps != [] {
      StepProjects(s, steps[0]);
      calls, events := RunProjects(Next(s, steps[0]), steps[1..]);
      ExecJoin(s.life, Calls(s, steps[0]), calls);
      EventsJoin(s.sender, Events(s, steps[0]), events);
      calls, events := Calls(s, steps[0]) + calls, Events(s, steps[0]) + events;
    }
  }

  /** No run of the composed machines drops a connection in silence. */
  lemma RunAnnounces(steps: seq<Step>)
    ensures Dropped !in Run(NEW, steps).life.log
  {
    var calls, _ := RunProjects(NEW, steps);
    NoSilentDeparture(Stream, false, calls);
  }

  // ---------- what every run keeps ----------

  /** Write waits among handlers about to run, of earlier epochs or of this one. */
  function Writes(posted: seq<Completion>, stale: bool): nat {
    if posted == [] then 0
    else Ones(posted[0].wait == WriteWait && posted[0].stale == stale) + Writes(posted[1..], stale)
  }

  lemma {:induction false} WritesJoin(a: seq<Completion>, b: seq<Completion>, stale: bool)
    ensures Writes(a + b, stale) == Writes(a, stale) + Writes(b, stale)
  {
    if a == [] {
      assert a + b == b;
    } else {
      assert (a + b)[1..] == a[1..] + b;
      WritesJoin(a[1..], b, stale);
    }
  }

  lemma {:induction false} WritesStale(posted: seq<Completion>)
    ensures Writes(AllStale(posted), true) == Writes(posted, true) + Writes(posted, false)
    ensures Writes(AllStale(posted), false) == 0
  {
    if posted != [] {
      assert AllStale(posted)[1..] == AllStale(posted[1..]);
      WritesStale(posted[1..]);
    }
  }

  lemma {:induction false} WritesAborted(watched: seq<Wait>)
    ensures Writes(Aborted(watched), true) == multiset(watched)[WriteWait] && Writes(Aborted(watched), false) == 0
  {
    if watched != [] {
      assert watched == [watched[0]] + watched[1..];
      assert Aborted(watched)[1..] == Aborted(watched[1..]);
      WritesAborted(watched[1..]);
    }
  }

  /** The sender's waits are the write waits of this epoch, its stale ones those of
      earlier epochs. */
  predicate Counted(s: Session) {
    && s.sender.waits == multiset(s.watched)[WriteWait] + Writes(s.posted, false)
    && s.sender.stale == Writes(s.posted, true)
  }

  predicate Reading(s: Session) {
    ReadWait in s.watched || exists i :: 0 <= i < |s.posted| && s.posted[i].wait == ReadWait
  }

  predicate ConnectedReads(s: Session) {
    s.life.state == CONNECTED && s.life.open ==> Reading(s)
  }

  /** A read wait is under way on every connected socket, and the write waits are
      those the sender counts. */
  predicate Consistent(s: Session) {
    && Counted(s) && Tcp.Sound(s.sender) && !s.life.thrown
    && ConnectedReads(s)
  }

  lemma ClosingCounted(s: Session)
    requires Counted(s)
    ensures Counted(CloseAll(s))
  {
    WritesStale(s.posted);
    WritesAborted(s.watched);
    WritesJoin(AllStale(s.posted), Aborted(s.watched), true);
    WritesJoin(AllStale(s.posted), Aborted(s.watched), false);
  }

  /** One more wait is counted where the sender has started one. */
  lemma WatchCounted(s: Session, wait: Wait)
    requires s.sender.waits == multiset(s.watched)[WriteWait] + Writes(s.posted, false) + Ones(wait == WriteWait)
    requires s.sender.stale == Writes(s.posted, true)
    ensures Counted(Watch(s, wait))
  {
    var c := Completion(wait, false, false);
    WritesJoin(s.posted, [c], true);
    WritesJoin(s.posted, [c], false);
    assert [c][1..] == [];
  }

  lemma ReadyCounted(s: Session, i: nat, ok: bool)
    requires Counted(s)
    ensures Counted(Next(s, Ready(i, ok)))
  {
    if i < |s.watched| {
      var c := Completion(s.watched[i], ok, false);
      WritesJoin(s.posted, [c], true);
      WritesJoin(s.posted, [c], false);
      assert [c][1..] == [];
      assert s.watched == s.watched[..i] + [s.watched[i]] + s.watched[i + 1..];
    }
  }

  lemma ConnectCounted(s: Session, answer: Answer)
    requires Counted(s)
    ensures Counted(Next(s, Connect(answer)))
  {
    ClosingCounted(s);
    var p := CloseAll(s).posted;
    var c := Completion(ConnectWait, answer.Settled? && answer.ok, false);
    WritesJoin(p, [c], true);
    WritesJoin(p, [c], false);
    assert [c][1..] == [];
  }

  lemma HandlerCounted(s: Session, answers: seq<Tcp.Transfer>)
    requires Counted(s) && s.posted != []
    ensures Counted(Next(s, RunNext(answers)))
  {
    var c, r := s.posted[0], s.(posted := s.posted[1..]);
    match c.wait
    case ReadWait =>
      ClosingCounted(r);
      WatchCounted(r, ReadWait);
    case WriteWait => WriteCounted(s, answers);
    case ConnectWait =>
      ClosingCounted(r);
      if c.ok && s.life.state != CONNECTED && s.life.open {
        var life := Exec(s.life, Try([Completed(true, [])]));
        WatchCounted(r.(life := life), ReadWait);
        var t := Watch(r.(life := life), ReadWait).(sender := Tcp.Step(r.sender, Tcp.Open));
        if !s.sender.sending && |s.sender.sendBuff| > 0 {
          WatchCounted(t, WriteWait);
        }
      }
  }

  lemma WriteCounted(s: Session, answers: seq<Tcp.Transfer>)
    requires Counted(s) && s.posted != [] && s.posted[0].wait == WriteWait
    ensures Counted(Next(s, RunNext(answers)))
  {
    var c, r := s.posted[0], s.(posted := s.posted[1..]);
    var e := if c.stale then Tcp.StaleFired(!c.ok, answers) else Tcp.Fired(!c.ok, answers);
    if !c.ok || Tcp.Drain(s.sender.sendBuff, answers).failed {
      var less := r.(sender := if c.stale then s.sender.(stale := s.sender.stale - 1)
                               else s.sender.(waits := s.sender.waits - 1));
      ClosingCounted(less);
      assert CloseAll(r).posted == CloseAll(less).posted;
    } else if Tcp.Step(s.sender, e).sending {
      WatchCounted(r.(sender := Tcp.Step(s.sender, e)), WriteWait);
    }
  }

  lemma StepCounted(s: Session, step: Step)
    requires Counted(s)
    ensures Counted(Next(s, step))
  {
    match step
    case Ready(i, ok) => ReadyCounted(s, i, ok);
    case RunNext(answers) =>
      if s.posted != [] {
        HandlerCounted(s, answers);
      }
    case Send(bytes) =>
      if !s.sender.sending && |s.sender.sendBuff + bytes| > 0 {
        WatchCounted(s.(sender := Tcp.Step(s.sender, Tcp.Flush(bytes))), WriteWait);
      }
    case Connect(answer) => ConnectCounted(s, answer);
    case Disconnect => ClosingCounted(s);
    case Close => ClosingCounted(s);
  }

  lemma ReadyReads(s: Session, i: nat, ok: bool)
    requires ConnectedReads(s)
    ensures ConnectedReads(Next(s, Ready(i, ok)))
  {
    if i < |s.watched| && Reading(s) {
      var r := Next(s, Ready(i, ok));
      assert s.watched == s.watched[..i] + [s.watched[i]] + s.watched[i + 1..];
      assert r.posted[|s.posted|].wait == s.watched[i];
      assert forall j :: 0 <= j < |s.posted| ==> r.posted[j] == s.posted[j];
    }
  }

  lemma ReadsStay(s: Session, r: Session)
    requires Reading(s) && s.watched <= r.watched && s.posted <= r.posted
    ensures Reading(r)
  {
  }

  lemma StepReads(s: Session, step: Step)
    requires ConnectedReads(s) && !s.life.thrown
    ensures ConnectedReads(Next(s, step))
  {
    var r := Next(s, step);
    CloseUnfolds(s.life, []);
    match step
    case Ready(i, ok) => ReadyReads(s, i, ok);
    case RunNext(answers) =>
      if s.posted != [] {
        HandlerReads(s, answers);
      }
    case Send(_) =>
      if Reading(s) {
        ReadsStay(s, r);
      }
    case Connect(answer) => ConnectLeaves(s, !answer.OpenFails?);
    case Disconnect =>
      if s.life.state != DISCONNECTED {
        DisconnectUnfolds(s.life, []);
      }
    case Close =>
  }

  lemma HandlerReads(s: Session, answers: seq<Tcp.Transfer>)
    requires ConnectedReads(s) && !s.life.thrown && s.posted != []
    ensures ConnectedReads(Next(s, RunNext(answers)))
  {
    var c, p, r := s.posted[0], s.(posted := s.posted[1..]), Next(s, RunNext(answers));
    CloseUnfolds(s.life, []);
    if c.wait.ConnectWait? {
      CompletedOk(s.life);
      OneCall(s.life, Completed(false, []));
    }
    if c.wait != ReadWait && Reading(s) {
      assert Reading(p) by {
        if i :| 0 <= i < |s.posted| && s.posted[i].wait == ReadWait {
          assert p.posted[i - 1] == s.posted[i];
        }
      }
      if p.watched <= r.watched && p.posted <= r.posted {
        ReadsStay(p, r);
      }
    }
  }

  lemma {:induction false} RunKept(s: Session, steps: seq<Step>)
    requires Consistent(s)
    ensures Consistent(Run(s, steps))
    decreases |steps|
  {
    if steps != [] {
      StepCounted(s, steps[0]);
      StepReads(s, steps[0]);
      StepProjects(s, steps[0]);
      Tcp.RunSound(s.sender, Events(s, steps[0]));
      RunKept(Next(s, steps[0]), steps[1..]);
    }
  }

  lemma {:induction false} CountedWrite(posted: seq<Completion>, stale: bool) returns (i: nat)
    requires Writes(posted, stale) > 0
    ensures i < |posted| && posted[i].wait == WriteWait && posted[i].stale == stale
  {
    if posted[0].wait == WriteWait && posted[0].stale == stale {
      i := 0;
    } else {
      i := CountedWrite(posted[1..], stale);
      i := i + 1;
    }
  }

  /** In every run, bytes queued have a write wait of this epoch watched or a handler
      for one about to run. */
  lemma QueuedIsServed(steps: seq<Step>)
    ensures var s := Run(NEW, steps);
            s.sender.sendBuff != [] ==>
              || WriteWait in s.watched
              || exists i :: 0 <= i < |s.posted| && s.posted[i].wait == WriteWait && !s.posted[i].stale
  {
    var s := Run(NEW, steps);
    RunKept(NEW, steps);
    if s.sender.sendBuff != [] && WriteWait !in s.watched {
      var i := CountedWrite(s.posted, false);
    }
  }
}
