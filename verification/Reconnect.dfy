/** When an attempt of the TCP connector to connect can succeed. */
module Reconnect {
  import opened Lifecycle
  import opened TcpSession

  /** The completion of the present attempt, a success, runs next. */
  predicate Succeeding(s: Session) {
    s.posted != [] && s.posted[0] == Completion(ConnectWait, true, false)
  }

  /** The event loop goes on and the program only sends. */
  predicate Going(steps: seq<Step>) {
    forall i :: 0 <= i < |steps| ==> steps[i].Ready? || steps[i].RunNext? || steps[i].Send?
  }

  ghost predicate CanSucceed(s: Session) {
    exists steps: seq<Step> :: Going(steps) && Succeeding(Run(s, steps))
  }

  predicate Attempt(c: Completion) {
    c.wait == ConnectWait && !c.stale
  }

  /** The present attempt has ended, if there was one. */
  predicate Over(s: Session) {
    && ConnectWait !in s.watched
    && forall i :: 0 <= i < |s.posted| && Attempt(s.posted[i]) ==> !s.posted[i].ok
  }

  /** A handler that will close the socket runs before the completion of the attempt. */
  predicate DoomedAt(s: Session, k: nat) {
    && k < |s.posted| && !s.posted[k].ok && s.life.state != DISCONNECTED
    && forall i :: 0 <= i <= k ==> !Attempt(s.posted[i])
  }

  ghost predicate Doomed(s: Session) {
    Over(s) || exists k: nat :: DoomedAt(s, k)
  }

  /** Everything started before is cancelled. */
  predicate Cancelled(s: Session) {
    s.watched == [] && forall i :: 0 <= i < |s.posted| ==> s.posted[i].stale
  }

  /** Waits have been started, none of them for an attempt to connect. */
  predicate Started(s: Session, r: Session) {
    && s.posted <= r.posted && (ConnectWait in r.watched ==> ConnectWait in s.watched)
    && forall i :: |s.posted| <= i < |r.posted| ==> !r.posted[i].ok && !Attempt(r.posted[i])
  }

  lemma ClosingCancels(s: Session)
    ensures Cancelled(CloseAll(s))
  {
  }

  lemma WatchStarts(s: Session, wait: Wait)
    requires wait != ConnectWait
    ensures Started(s, Watch(s, wait)) && Watch(s, wait).life == s.life
  {
  }

  lemma StartedTwice(s: Session, r: Session, t: Session)
    requires Started(s, r) && Started(r, t)
    ensures Started(s, t)
  {
  }

  /** A handler cancels everything or starts waits; one that failed cancels, unless
      the connection is given up already. */
  lemma HandlerShape(s: Session, answers: seq<Tcp.Transfer>)
    requires s.posted != []
    ensures var p, r := s.(posted := s.posted[1..]), Next(s, RunNext(answers));
            if Closes(s, RunNext(answers)) then
              Cancelled(r) && r.posted == CloseAll(p).posted
            else
              Started(p, r) && (s.life.state != DISCONNECTED ==> s.posted[0].ok && r.life.state != DISCONNECTED)
  {
    var c, r := s.posted[0], s.(posted := s.posted[1..]);
    ClosingCancels(r);
    match c.wait
    case ReadWait => WatchStarts(r, ReadWait);
    case WriteWait =>
      var e := if c.stale then Tcp.StaleFired(!c.ok, answers) else Tcp.Fired(!c.ok, answers);
      WatchStarts(r.(sender := Tcp.Step(r.sender, e)), WriteWait);
    case ConnectWait =>
      var t := r.(life := Exec(r.life, Try([Completed(c.ok, [])])));
      CompletedOk(s.life);
      WatchStarts(t, ReadWait);
      var u := Watch(t, ReadWait).(sender := Tcp.Step(r.sender, Tcp.Open));
      WatchStarts(u, WriteWait);
      StartedTwice(t, u, Watch(u, WriteWait));
  }

  lemma OverKept(s: Session, step: Step)
    requires Over(s) && Going([step])
    ensures Over(Next(s, step))
  {
    assert step == [step][0];
    if step.RunNext? && s.posted != [] {
      HandlerShape(s, step.answers);
    } else if step.Send? {
      WatchStarts(s.(sender := Tcp.Step(s.sender, Tcp.Flush(step.bytes))), WriteWait);
    }
  }

  lemma DoomedAtKept(s: Session, k: nat, step: Step)
    requires DoomedAt(s, k) && Going([step])
    ensures Over(Next(s, step)) || DoomedAt(Next(s, step), if step.RunNext? then k - 1 else k)
  {
    assert step == [step][0];
    if step.RunNext? {
      HandlerShape(s, step.answers);
    } else if step.Send? {
      WatchStarts(s.(sender := Tcp.Step(s.sender, Tcp.Flush(step.bytes))), WriteWait);
    }
  }

  lemma {:induction false} DoomedStays(s: Session, steps: seq<Step>)
    requires Doomed(s) && Going(steps)
    ensures !Succeeding(Run(s, steps))
    decreases |steps|
  {
    if steps != [] {
      assert Going([steps[0]]);
      if Over(s) {
        OverKept(s, steps[0]);
      } else {
        var k: nat :| DoomedAt(s, k);
        DoomedAtKept(s, k, steps[0]);
      }
      DoomedStays(Next(s, steps[0]), steps[1..]);
    }
  }

  /** Every handler before the successful completion of the attempt will succeed. */
  predicate PromisingAt(s: Session, k: nat) {
    && s.life.open && k < |s.posted| && s.posted[k] == Completion(ConnectWait, true, false)
    && forall i :: 0 <= i <= k ==> s.posted[i].ok
  }

  lemma {:induction false} PromisingSucceeds(s: Session, k: nat) returns (steps: seq<Step>)
    requires PromisingAt(s, k)
    ensures Going(steps) && Succeeding(Run(s, steps))
    decreases k
  {
    if Succeeding(s) {
      steps := [];
    } else {
      CompletedOk(s.life);
      var more := PromisingSucceeds(Next(s, RunNext([])), k - 1);
      steps := [RunNext([])] + more;
      assert steps[1..] == more;
    }
  }

  lemma DoomedCannot(s: Session)
    requires Doomed(s)
    ensures !CanSucceed(s)
  {
    forall steps: seq<Step> | Going(steps) ensures !Succeeding(Run(s, steps)) {
      DoomedStays(s, steps);
    }
  }

  lemma AttemptSucceeds(s: Session, answer: Answer)
    requires !s.life.thrown && s.watched == [] && forall i :: 0 <= i < |s.posted| ==> s.posted[i].ok
    requires answer.InProgress? || answer == Settled(true)
    ensures CanSucceed(Next(s, Connect(answer)))
  {
    var c := Next(s, Connect(answer));
    ConnectLeaves(s, true);
    if answer.InProgress? {
      assert c.watched == [ConnectWait];
      var steps := PromisingSucceeds(Next(c, Ready(0, true)), |s.posted|);
      var all := [Ready(0, true)] + steps;
      assert all[1..] == steps;
      assert Going(all) && Succeeding(Run(c, all));
    } else {
      var steps := PromisingSucceeds(c, |s.posted|);
    }
  }

  lemma AttemptFails(s: Session, answer: Answer)
    requires !s.life.thrown
    requires s.watched != [] || (exists i :: 0 <= i < |s.posted| && !s.posted[i].ok)
             || !(answer.InProgress? || answer == Settled(true))
    ensures !CanSucceed(Next(s, Connect(answer)))
  {
    var c := Next(s, Connect(answer));
    ConnectLeaves(s, !answer.OpenFails?);
    if s.watched != [] {
      assert DoomedAt(c, |s.posted|);
    } else if i :| 0 <= i < |s.posted| && !s.posted[i].ok {
      assert DoomedAt(c, i);
    } else {
      assert Over(c);
    }
    DoomedCannot(c);
  }

  /** An attempt to connect can succeed if and only if it was begun with no wait
      still watched and no handler about to run that has failed: then nothing left
      over from before closes the socket under it. */
  lemma CanSucceedIff(s: Session, answer: Answer)
    requires !s.life.thrown
    ensures CanSucceed(Next(s, Connect(answer))) <==>
            && s.watched == [] && (forall i :: 0 <= i < |s.posted| ==> s.posted[i].ok)
            && (answer.InProgress? || answer == Settled(true))
  {
    if s.watched == [] && (forall i :: 0 <= i < |s.posted| ==> s.posted[i].ok)
       && (answer.InProgress? || answer == Settled(true)) {
      AttemptSucceeds(s, answer);
    } else {
      AttemptFails(s, answer);
    }
  }

  /** `connect` on a connected connection that has nothing to read: the attempt never
      succeeds, because the cancelled read wait closes the socket under it. */
  lemma ConnectedCannotReconnect(steps: seq<Step>, answer: Answer)
    requires var s := Run(NEW, steps); s.life.state == CONNECTED && s.life.open
    requires var s := Run(NEW, steps); forall i :: 0 <= i < |s.posted| ==> s.posted[i].wait != ReadWait
    ensures !CanSucceed(Next(Run(NEW, steps), Connect(answer)))
  {
    RunKept(NEW, steps);
    CanSucceedIff(Run(NEW, steps), answer);
  }
}
