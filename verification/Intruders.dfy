/** Write handlers of an earlier epoch that succeed while this one is sending: how they
    come about in runs of the connector, and that nothing else leads to two waits. */
module Intruders {
  import opened Lifecycle
  import opened TcpSession
  import opened Reconnect

  /** The next handler is a write handler of an earlier epoch that succeeds while this
      epoch is sending. */
  predicate Intruding(s: Session, step: Step) {
    && step.RunNext? && s.posted != [] && s.posted[0] == Completion(WriteWait, true, true)
    && s.sender.sending && !Tcp.Drain(s.sender.sendBuff, step.answers).failed
  }

  /** A step keeps "SENDING exactly when one write wait is live" if and only if it is
      not such a handler. */
  lemma OneWaitKeptIff(s: Session, step: Step)
    requires Consistent(s) && Tcp.OneWait(s.sender)
    ensures Tcp.OneWait(Next(s, step).sender) <==> !Intruding(s, step)
  {
    EventsProject(s, step);
    var events := Events(s, step);
    if events != [] {
      Tcp.OneWaitKeptIff(s.sender, events[0]);
      assert events[1..] == [];
      assert Tcp.Run(s.sender, events) == Tcp.Run(Tcp.Step(s.sender, events[0]), []);
    }
  }

  predicate Succeeded(c: Completion) {
    c.wait == WriteWait && c.ok
  }

  /** No write handler of an earlier epoch that will succeed is pending. */
  predicate Clean(s: Session) {
    forall i :: 0 <= i < |s.posted| && Succeeded(s.posted[i]) ==> !s.posted[i].stale
  }

  /** The step closes the socket while a write handler that will succeed is pending. */
  predicate Hazard(s: Session, step: Step) {
    Closes(s, step) &&
    exists i :: (if step.RunNext? then 1 else 0) <= i < |s.posted| && Succeeded(s.posted[i])
  }

  lemma ClosedStale(s: Session, i: nat)
    requires i < |s.posted|
    ensures CloseAll(s).posted[i] == s.posted[i].(stale := true)
  {
  }

  lemma CloseClean(s: Session)
    ensures Clean(CloseAll(s)) <==> forall i :: 0 <= i < |s.posted| ==> !Succeeded(s.posted[i])
  {
    if i :| 0 <= i < |s.posted| && Succeeded(s.posted[i]) {
      ClosedStale(s, i);
    }
  }

  lemma StartedClean(s: Session, r: Session)
    requires Started(s, r)
    ensures Clean(r) <==> Clean(s)
  {
    assert forall i :: 0 <= i < |s.posted| ==> s.posted[i] == r.posted[i];
  }

  /** Such handlers come about by such steps and no others. */
  lemma CleanKeptIff(s: Session, step: Step)
    requires Clean(s)
    ensures Clean(Next(s, step)) <==> !Hazard(s, step)
  {
    CloseClean(s);
    match step
    case Ready(_, _) =>
    case RunNext(answers) =>
      if s.posted != [] {
        HandlerClean(s, answers);
      }
    case Send(bytes) =>
      WatchStarts(s.(sender := Tcp.Step(s.sender, Tcp.Flush(bytes))), WriteWait);
      StartedClean(s, Next(s, step));
    case Connect(answer) => ConnectClean(s, answer);
    case Disconnect =>
    case Close =>
  }

  lemma ConnectClean(s: Session, answer: Answer)
    ensures Clean(Next(s, Connect(answer))) <==> Clean(CloseAll(s))
  {
    var p, r := CloseAll(s).posted, Next(s, Connect(answer)).posted;
    assert forall i :: 0 <= i < |p| ==> r[i] == p[i];
  }

  lemma HandlerClean(s: Session, answers: seq<Tcp.Transfer>)
    requires Clean(s) && s.posted != []
    ensures Clean(Next(s, RunNext(answers))) <==> !Hazard(s, RunNext(answers))
  {
    var p, r := s.(posted := s.posted[1..]), Next(s, RunNext(answers));
    HandlerShape(s, answers);
    if Closes(s, RunNext(answers)) {
      CloseClean(p);
      assert forall i :: 1 <= i < |s.posted| ==> p.posted[i - 1] == s.posted[i];
    } else {
      StartedClean(p, r);
    }
  }

  lemma {:induction false} RunClean(s: Session, steps: seq<Step>)
    requires Consistent(s) && Clean(s) && Tcp.OneWait(s.sender) && NoHazard(s, steps)
    ensures Clean(Run(s, steps)) && Tcp.OneWait(Run(s, steps).sender)
    decreases |steps|
  {
    if steps != [] {
      CleanKeptIff(s, steps[0]);
      OneWaitKeptIff(s, steps[0]);
      RunKept(s, [steps[0]]);
      assert [steps[0]][1..] == [];
      assert Run(s, [steps[0]]) == Run(Next(s, steps[0]), []);
      RunClean(Next(s, steps[0]), steps[1..]);
    }
  }

  predicate NoHazard(s: Session, steps: seq<Step>)
    decreases |steps|
  {
    steps == [] || (!Hazard(s, steps[0]) && NoHazard(Next(s, steps[0]), steps[1..]))
  }

  /** Once there is such a handler, it can run while this epoch is sending. */
  lemma {:induction false} UncleanIntrudes(s: Session, k: nat) returns (steps: seq<Step>)
    requires k < |s.posted| && s.posted[k] == Completion(WriteWait, true, true)
    ensures Going(steps) && Intruding(Run(s, steps), RunNext([]))
    decreases k
  {
    if k == 0 {
      steps := [Send([0])];
      assert steps[1..] == [];
      assert Run(s, steps) == Run(Next(s, steps[0]), []);
    } else {
      HandlerShape(s, []);
      if Closes(s, RunNext([])) {
        ClosedStale(s.(posted := s.posted[1..]), k - 1);
      }
      var more := UncleanIntrudes(Next(s, RunNext([])), k - 1);
      steps := [RunNext([])] + more;
      assert steps[1..] == more;
    }
  }

  lemma {:induction false} RunOneMore(s: Session, steps: seq<Step>, step: Step)
    ensures Run(s, steps + [step]) == Next(Run(s, steps), step)
    decreases |steps|
  {
    if steps == [] {
      assert [step][1..] == [];
      assert Run(s, [step]) == Run(Next(s, step), []);
    } else {
      assert (steps + [step])[1..] == steps[1..] + [step];
      RunOneMore(Next(s, steps[0]), steps[1..], step);
    }
  }

  lemma Starts(c: Session)
    requires c == Next(NEW, Connect(Settled(true)))
    ensures c.life.state == CONNECTING && c.life.open && !c.life.thrown && c.sender == Tcp.IDLE
    ensures c.posted == [Completion(ConnectWait, true, false)] && c.watched == []
  {
    ConnectLeaves(NEW, true);
    PlainClose(START);
    assert AllStale([]) + Aborted([]) == [];
  }

  lemma Connects(c: Session, s: Session)
    requires c.life.state == CONNECTING && c.life.open && !c.life.thrown && c.sender == Tcp.IDLE
    requires c.posted == [Completion(ConnectWait, true, false)] && c.watched == []
    requires s == Next(c, RunNext([]))
    ensures s.life.state == CONNECTED && s.life.open && s.sender == Tcp.IDLE
    ensures s.watched == [ReadWait] && s.posted == [] && !s.life.thrown
  {
    CompletedOk(c.life);
    PlainCompleted(c.life, true);
    assert Tcp.Step(Tcp.IDLE, Tcp.Open) == Tcp.IDLE;
  }

  lemma SendsTwo(s: Session, r: Session)
    requires s.life.open && s.sender == Tcp.IDLE && s.watched == [ReadWait] && s.posted == []
    requires r == Next(Next(s, Send([1, 2])), Ready(1, true))
    ensures r.life == s.life && r.sender == Tcp.Sender(true, [1, 2], 1, 0, [1, 2], [])
    ensures r.watched == [ReadWait] && r.posted == [Completion(WriteWait, true, false)]
  {
    assert Next(s, Send([1, 2])).watched == [ReadWait, WriteWait];
  }

  lemma Reconnects(s: Session, r: Session)
    requires s.sender == Tcp.Sender(true, [1, 2], 1, 0, [1, 2], []) && !s.life.thrown
    requires s.watched == [ReadWait] && s.posted == [Completion(WriteWait, true, false)]
    requires r == Next(Next(s, Connect(InProgress)), Send([3, 4]))
    ensures r.life.open && r.sender == Tcp.Sender(true, [3, 4], 1, 1, [3, 4], [])
    ensures r.posted[..1] == [Completion(WriteWait, true, true)]
  {
    var c := Next(s, Connect(InProgress));
    ConnectLeaves(s, true);
    assert c.sender == Tcp.Sender(false, [], 0, 1, [], []);
    assert c.posted == [Completion(WriteWait, true, true), Completion(ReadWait, false, true)];
  }

  lemma Intrusion(s: Session)
    requires s.sender == Tcp.Sender(true, [3, 4], 1, 1, [3, 4], []) && |s.posted| > 0
    requires s.posted[..1] == [Completion(WriteWait, true, true)]
    ensures Next(s, RunNext([Tcp.Transfer(0, Tcp.WouldBlock)])).sender.waits == 2
  {
    var blocked := [Tcp.Transfer(0, Tcp.WouldBlock)];
    assert s.posted[0] == s.posted[..1][0];
    assert Tcp.Drain([3, 4], blocked) == Tcp.Drained([], [3, 4], false);
    assert Tcp.Handle(s.sender.(stale := 0), false, blocked).waits == 2;
  }

  /** A connection that sends, reconnects when its write handler is already pending,
      and sends again: two write waits are live. */
  lemma TwoWaitsWitness() returns (steps: seq<Step>)
    ensures Run(NEW, steps).sender.waits == 2
  {
    var a, b, c, d;
    steps := [];
    steps, a := Onward(steps, NEW, Connect(Settled(true)));
    Starts(a);
    ghost var start := a;
    steps, a := Onward(steps, a, RunNext([]));
    Connects(start, a);
    steps, b := Onward(steps, a, Send([1, 2]));
    steps, b := Onward(steps, b, Ready(1, true));
    SendsTwo(a, b);
    steps, c := Onward(steps, b, Connect(InProgress));
    steps, c := Onward(steps, c, Send([3, 4]));
    Reconnects(b, c);
    steps, d := Onward(steps, c, RunNext([Tcp.Transfer(0, Tcp.WouldBlock)]));
    Intrusion(c);
  }

  lemma Onward(steps: seq<Step>, s: Session, step: Step) returns (more: seq<Step>, r: Session)
    requires s == Run(NEW, steps)
    ensures more == steps + [step] && r == Next(s, step) == Run(NEW, more)
  {
    RunOneMore(NEW, steps, step);
    more, r := steps + [step], Next(s, step);
  }
}
