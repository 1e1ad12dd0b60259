/** What the answers of the operating system come to: an attempt connects only where a
    connect succeeded, and a connect that failed ends its attempt. */
module Outcomes {
  import opened Lifecycle
  import opened TcpSession
  import opened Reconnect

  /** Whether the operating system reports a successful connect in a step. */
  predicate Success(s: Session, step: Step) {
    || (step.Ready? && step.ok && step.i < |s.watched| && s.watched[step.i] == ConnectWait)
    || step == Connect(Settled(true))
  }

  function Successes(s: Session, steps: seq<Step>): nat
    decreases |steps|
  {
    if steps == [] then 0 else Ones(Success(s, steps[0])) + Successes(Next(s, steps[0]), steps[1..])
  }

  /** Successful connects about to be handled. */
  function Pending(posted: seq<Completion>): nat {
    if posted == [] then 0 else Ones(posted[0].wait == ConnectWait && posted[0].ok) + Pending(posted[1..])
  }

  lemma {:induction false} PendingJoin(a: seq<Completion>, b: seq<Completion>)
    ensures Pending(a + b) == Pending(a) + Pending(b)
  {
    if a == [] {
      assert a + b == b;
    } else {
      assert (a + b)[1..] == a[1..] + b;
      PendingJoin(a[1..], b);
    }
  }

  lemma PendingOne(posted: seq<Completion>, c: Completion)
    ensures Pending(posted + [c]) == Pending(posted) + Ones(c.wait == ConnectWait && c.ok)
  {
    PendingJoin(posted, [c]);
    assert [c][1..] == [];
  }

  lemma {:induction false} PendingStale(posted: seq<Completion>)
    ensures Pending(AllStale(posted)) == Pending(posted)
  {
    if posted != [] {
      assert AllStale(posted)[1..] == AllStale(posted[1..]);
      PendingStale(posted[1..]);
    }
  }

  lemma {:induction false} PendingAborted(watched: seq<Wait>)
    ensures Pending(Aborted(watched)) == 0
  {
    if watched != [] {
      assert Aborted(watched)[1..] == Aborted(watched[1..]);
      PendingAborted(watched[1..]);
    }
  }

  lemma PendingClosed(s: Session)
    ensures Pending(CloseAll(s).posted) == Pending(s.posted)
  {
    PendingStale(s.posted);
    PendingAborted(s.watched);
    PendingJoin(AllStale(s.posted), Aborted(s.watched));
  }

  lemma PendingWatch(s: Session, wait: Wait)
    requires wait != ConnectWait
    ensures Pending(Watch(s, wait).posted) == Pending(s.posted)
  {
    PendingOne(s.posted, Completion(wait, false, false));
  }

  function Ups(s: Session): nat {
    Count(s.life.log, Up)
  }

  lemma CountTwo(log: seq<Mark>, a: Mark, b: Mark, m: Mark)
    ensures Count(log + [a] + [b], m) == Count(log, m) + Ones(a == m) + Ones(b == m)
  {
    var one := log + [a];
    assert (one + [b])[..|one|] == one && one[..|log|] == log;
  }

  /** Closing and connecting enter nothing; only a completion does. */
  lemma CloseUps(l: Life)
    requires !l.thrown
    ensures Count(Exec(l, SocketClose([])).log, Up) == Count(l.log, Up)
  {
    CloseUnfolds(l, []);
    CountTwo(l.log, Down, DisconnectedCall, Up);
  }

  lemma DisconnectUps(l: Life)
    requires !l.thrown
    ensures Count(Exec(l, Call.Disconnect([])).log, Up) == Count(l.log, Up)
  {
    CompletedUnfolds(l, false, []);
    CountTwo(l.log, Down, DisconnectedCall, Up);
    CountTwo(l.log, GaveUp, DisconnectedCall, Up);
  }

  lemma LifeUps(l: Life)
    requires !l.thrown
    ensures Count(Exec(l, SocketClose([])).log, Up) == Count(l.log, Up)
    ensures Count(Exec(l, Call.Disconnect([])).log, Up) == Count(l.log, Up)
    ensures Count(Exec(l, Try([Completed(false, [])])).log, Up) == Count(l.log, Up)
  {
    CloseUps(l);
    DisconnectUps(l);
    FailureIsDisconnect(l);
  }

  lemma FailureIsDisconnect(l: Life)
    requires !l.thrown
    ensures Exec(l, Try([Completed(false, [])])).log == Exec(l, Call.Disconnect([])).log
  {
    OneCall(l, Completed(false, []));
    CompletedUnfolds(l, false, []);
  }

  lemma ConnectUps(l: Life, opens: bool)
    requires !l.thrown
    ensures Count(Exec(l, TcpConnect([], opens)).log, Up) == Count(l.log, Up)
  {
    CloseUnfolds(l, []);
    CountTwo(l.log, Down, DisconnectedCall, Up);
    var c := Lifecycle.Closing(l, []);
    assert c.log + [] == c.log;
  }

  lemma EnterUps(l: Life)
    requires !l.thrown
    ensures Count(Exec(l, Try([Completed(true, [])])).log, Up) <= Count(l.log, Up) + 1
  {
    CompletedUnfolds(l, true, []);
    OneCall(l, Completed(true, []));
    CountTwo(l.log, Up, ConnectedCall, Up);
  }

  lemma HandlerUps(s: Session, answers: seq<Tcp.Transfer>)
    requires !s.life.thrown && s.posted != []
    ensures var r := Next(s, RunNext(answers));
            Ups(r) + Pending(r.posted) <= Ups(s) + Pending(s.posted)
  {
    var c, p := s.posted[0], s.(posted := s.posted[1..]);
    LifeUps(s.life);
    PendingClosed(p);
    match c.wait
    case ReadWait => PendingWatch(p, ReadWait);
    case WriteWait =>
      var e := if c.stale then Tcp.StaleFired(!c.ok, answers) else Tcp.Fired(!c.ok, answers);
      PendingWatch(p.(sender := Tcp.Step(p.sender, e)), WriteWait);
    case ConnectWait =>
      EnterUps(s.life);
      var t := p.(life := Exec(p.life, Try([Completed(c.ok, [])])));
      PendingWatch(t, ReadWait);
      PendingWatch(Watch(t, ReadWait).(sender := Tcp.Step(p.sender, Tcp.Open)), WriteWait);
  }

  lemma StepUps(s: Session, step: Step)
    requires !s.life.thrown
    ensures var r := Next(s, step);
            Ups(r) + Pending(r.posted) <= Ups(s) + Pending(s.posted) + Ones(Success(s, step))
  {
    LifeUps(s.life);
    PendingClosed(s);
    match step
    case Ready(i, ok) =>
      if i < |s.watched| {
        PendingOne(s.posted, Completion(s.watched[i], ok, false));
      }
    case RunNext(answers) =>
      if s.posted != [] {
        HandlerUps(s, answers);
      }
    case Send(bytes) => PendingWatch(s.(sender := Tcp.Step(s.sender, Tcp.Flush(bytes))), WriteWait);
    case Connect(answer) =>
      ConnectUps(s.life, !answer.OpenFails?);
      PendingOne(CloseAll(s).posted, Completion(ConnectWait, answer.Settled? && answer.ok, false));
    case Disconnect =>
    case Close =>
  }

  lemma {:induction false} RunUps(s: Session, steps: seq<Step>)
    requires !s.life.thrown
    ensures Ups(Run(s, steps)) <= Ups(s) + Pending(s.posted) + Successes(s, steps)
    decreases |steps|
  {
    if steps != [] {
      StepUps(s, steps[0]);
      StepProjects(s, steps[0]);
      RunUps(Next(s, steps[0]), steps[1..]);
    }
  }

  /** In every run the connection is entered at most as often as the operating system
      reported a successful connect. */
  lemma EntriesAreSuccesses(steps: seq<Step>)
    ensures Count(Run(NEW, steps).life.log, Up) <= Successes(NEW, steps)
  {
    RunUps(NEW, steps);
  }

  // ---------- failed attempts ----------

  /** No attempt is under way, and none has succeeded. */
  predicate Unable(s: Session) {
    && s.life.state != CONNECTED && !s.life.thrown && ConnectWait !in s.watched
    && forall i :: 0 <= i < |s.posted| && s.posted[i].wait == ConnectWait ==> !s.posted[i].ok
  }

  /** No call but a successful completion enters the connection. */
  lemma NotEntered(l: Life)
    requires !l.thrown && l.state != CONNECTED
    ensures Exec(l, SocketClose([])).state != CONNECTED && Exec(l, Call.Disconnect([])).state != CONNECTED
    ensures Exec(l, Try([Completed(false, [])])).state != CONNECTED
  {
    CloseUnfolds(l, []);
    OneCall(l, Completed(false, []));
    CompletedUnfolds(l, false, []);
  }

  lemma HandlerUnable(s: Session, answers: seq<Tcp.Transfer>)
    requires Unable(s) && s.posted != []
    ensures Next(s, RunNext(answers)).life.state != CONNECTED
    ensures var r := Next(s, RunNext(answers));
            && ConnectWait !in r.watched
            && forall i :: 0 <= i < |r.posted| && r.posted[i].wait == ConnectWait ==> !r.posted[i].ok
  {
    NotEntered(s.life);
    HandlerShape(s, answers);
  }

  lemma UnableKept(s: Session, step: Step)
    requires Unable(s) && !step.Connect?
    ensures Unable(Next(s, step))
  {
    StepProjects(s, step);
    NotEntered(s.life);
    match step
    case Ready(_, _) =>
    case RunNext(answers) =>
      if s.posted != [] {
        HandlerUnable(s, answers);
      }
    case Send(bytes) => WatchStarts(s.(sender := Tcp.Step(s.sender, Tcp.Flush(bytes))), WriteWait);
    case Disconnect =>
    case Close =>
  }

  lemma {:induction false} UnableStays(s: Session, steps: seq<Step>)
    requires Unable(s) && forall i :: 0 <= i < |steps| ==> !steps[i].Connect?
    ensures Run(s, steps).life.state != CONNECTED
    decreases |steps|
  {
    if steps != [] {
      UnableKept(s, steps[0]);
      UnableStays(Next(s, steps[0]), steps[1..]);
    }
  }

  predicate OneAttempt(s: Session) {
    multiset(s.watched)[ConnectWait] <= 1
  }

  lemma WatchOneAttempt(s: Session, wait: Wait)
    requires OneAttempt(s) && wait != ConnectWait
    ensures OneAttempt(Watch(s, wait))
  {
  }

  lemma StepOneAttempt(s: Session, step: Step)
    requires OneAttempt(s)
    ensures OneAttempt(Next(s, step))
  {
    match step
    case Ready(i, _) =>
      if i < |s.watched| {
        assert s.watched == s.watched[..i] + [s.watched[i]] + s.watched[i + 1..];
      }
    case RunNext(answers) =>
      if s.posted != [] {
        HandlerOneAttempt(s, answers);
      }
    case Send(bytes) => WatchOneAttempt(s.(sender := Tcp.Step(s.sender, Tcp.Flush(bytes))), WriteWait);
    case Connect(_) =>
    case Disconnect =>
    case Close =>
  }

  lemma HandlerOneAttempt(s: Session, answers: seq<Tcp.Transfer>)
    requires OneAttempt(s) && s.posted != []
    ensures OneAttempt(Next(s, RunNext(answers)))
  {
    var c, p := s.posted[0], s.(posted := s.posted[1..]);
    match c.wait
    case ReadWait => WatchOneAttempt(p, ReadWait);
    case WriteWait =>
      var e := if c.stale then Tcp.StaleFired(!c.ok, answers) else Tcp.Fired(!c.ok, answers);
      WatchOneAttempt(p.(sender := Tcp.Step(p.sender, e)), WriteWait);
    case ConnectWait =>
      var t := p.(life := Exec(p.life, Try([Completed(c.ok, [])])));
      WatchOneAttempt(t, ReadWait);
      WatchOneAttempt(Watch(t, ReadWait).(sender := Tcp.Step(p.sender, Tcp.Open)), WriteWait);
  }

  lemma {:induction false} RunOneAttempt(s: Session, steps: seq<Step>)
    requires OneAttempt(s)
    ensures OneAttempt(Run(s, steps))
    decreases |steps|
  {
    if steps != [] {
      StepOneAttempt(s, steps[0]);
      RunOneAttempt(Next(s, steps[0]), steps[1..]);
    }
  }

  /** A connect that fails, with no success from before about to be handled: the
      connection is never entered until `connect` is called again. */
  lemma FailedConnect(before: seq<Step>, i: nat, after: seq<Step>)
    requires var s := Run(NEW, before);
             && i < |s.watched| && s.watched[i] == ConnectWait && s.life.state != CONNECTED
             && forall k :: 0 <= k < |s.posted| && s.posted[k].wait == ConnectWait ==> !s.posted[k].ok
    requires forall k :: 0 <= k < |after| ==> !after[k].Connect?
    ensures Run(Next(Run(NEW, before), Ready(i, false)), after).life.state != CONNECTED
  {
    var s := Run(NEW, before);
    RunKept(NEW, before);
    RunOneAttempt(NEW, before);
    AttemptRemoved(s, i);
    UnableStays(Next(s, Ready(i, false)), after);
  }

  lemma AttemptRemoved(s: Session, i: nat)
    requires OneAttempt(s) && i < |s.watched| && s.watched[i] == ConnectWait
    ensures ConnectWait !in s.watched[..i] + s.watched[i + 1..]
  {
    assert s.watched == s.watched[..i] + [s.watched[i]] + s.watched[i + 1..];
  }

  /** The handler of a failed connect ends an attempt under way: disconnected, with an
      `on_disconnected` of its own, everything else cancelled. */
  lemma FailureHandled(s: Session, answers: seq<Tcp.Transfer>)
    requires s.posted != [] && s.posted[0].wait == ConnectWait && !s.posted[0].ok
    requires s.life.state == CONNECTING && !s.life.thrown
    ensures var r := Next(s, RunNext(answers));
            && r.life.state == DISCONNECTED && !r.life.open
            && r.life.log == s.life.log + [GaveUp] + [DisconnectedCall]
            && r.watched == [] && r.sender.sendBuff == []
  {
    FailedAttemptEnds(s.life);
    OneCall(s.life, Completed(false, []));
  }

  /** The handler of a successful one enters the connection, and on an open socket
      starts to read. */
  lemma SuccessHandled(s: Session, answers: seq<Tcp.Transfer>)
    requires s.posted != [] && s.posted[0].wait == ConnectWait && s.posted[0].ok
    requires s.life.state != CONNECTED && !s.life.thrown
    ensures var r := Next(s, RunNext(answers));
            && r.life.state == CONNECTED && r.life.log == s.life.log + [Up] + [ConnectedCall]
            && (s.life.open ==> ReadWait in r.watched)
  {
    CompletedUnfolds(s.life, true, []);
    OneCall(s.life, Completed(true, []));
  }

  /** A read or write handler that fails closes a connected socket, and its departure
      is announced. */
  lemma FailureCloses(s: Session, answers: seq<Tcp.Transfer>)
    requires s.posted != [] && s.posted[0].wait != ConnectWait && !s.posted[0].ok
    ensures var r := Next(s, RunNext(answers));
            && !r.life.open && r.watched == []
            && (s.life.state == CONNECTED ==>
                r.life.state == DISCONNECTED && r.life.log == s.life.log + [Down] + [DisconnectedCall])
  {
    CloseUnfolds(s.life, []);
  }
}
