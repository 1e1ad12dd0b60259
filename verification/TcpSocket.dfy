/** `tcp::socket`: the write side with its SENDING flag and its write waits, and
    the read loop.  The operating system answers each call with a byte count and
    an error code; when the listed answers run out it answers "would block". */
module TcpSocket {
  import opened Bytes
  import opened ReactorBuffer
  import opened Framing

  datatype ErrorCode = NoError | WouldBlock | Fatal

  /** The answer to one `send` or `receive`. */
  datatype Transfer = Transfer(count: nat, ec: ErrorCode)

  // ---------- the write side as a state machine ----------

  /** `waits` are the write waits of the current epoch, `stale` those left behind
      by a `close`; `flushed` and `transmitted` are the bytes of this epoch handed
      to the socket and taken by the operating system. */
  datatype Sender = Sender(
    sending: bool,
    sendBuff: seq<byte>,
    waits: nat,
    stale: nat,
    flushed: seq<byte>,
    transmitted: seq<byte>)

  const IDLE := Sender(false, [], 0, 0, [], [])

  function Armed(s: Sender): Sender {
    if !s.sending && |s.sendBuff| > 0 then s.(sending := true, waits := s.waits + 1) else s
  }

  function Shut(s: Sender): Sender {
    Sender(false, [], 0, s.stale + s.waits, [], [])
  }

  datatype Drained = Drained(sent: seq<byte>, rest: seq<byte>, failed: bool)

  /** The `send` loop of the write handler. */
  function Drain(buf: seq<byte>, answers: seq<Transfer>): Drained
    decreases |answers|
  {
    if answers == [] then
      Drained([], buf, false)
    else
      var n := Min(answers[0].count, |buf|);
      if answers[0].ec != NoError || n == |buf| then
        Drained(buf[..n], buf[n..], answers[0].ec == Fatal)
      else
        var d := Drain(buf[n..], answers[1..]);
        Drained(buf[..n] + d.sent, d.rest, d.failed)
  }

  /** The write handler, its own wait already taken off the count. */
  function Handle(s: Sender, error: bool, answers: seq<Transfer>): Sender {
    var d := Drain(s.sendBuff, answers);
    if error || d.failed then
      Shut(s)
    else
      Armed(s.(sending := false, sendBuff := d.rest, transmitted := s.transmitted + d.sent))
  }

  datatype Event =
    | Flush(bytes: seq<byte>)
    | Open
    | Fired(error: bool, answers: seq<Transfer>)
    | StaleFired(error: bool, answers: seq<Transfer>)
    | Closed

  function Step(s: Sender, e: Event): Sender {
    match e
    case Flush(bytes) => Armed(s.(sendBuff := s.sendBuff + bytes, flushed := s.flushed + bytes))
    case Open => Armed(s)
    case Fired(error, answers) =>
      if s.waits == 0 then s else Handle(s.(waits := s.waits - 1), error, answers)
    case StaleFired(error, answers) =>
      if s.stale == 0 then s else Handle(s.(stale := s.stale - 1), error, answers)
    case Closed => Shut(s)
  }

  /** A completion that runs the write handler in this state. */
  predicate Fires(s: Sender, e: Event) {
    (e.Fired? && s.waits > 0) || (e.StaleFired? && s.stale > 0)
  }

  /** The bytes the operating system takes during a step. */
  function Output(s: Sender, e: Event): seq<byte> {
    if Fires(s, e) && !e.error then Drain(s.sendBuff, e.answers).sent else []
  }

  /** The step closes the socket. */
  predicate Ends(s: Sender, e: Event) {
    e.Closed? || (Fires(s, e) && (e.error || Drain(s.sendBuff, e.answers).failed))
  }

  function Run(s: Sender, events: seq<Event>): Sender
    decreases |events|
  {
    if events == [] then s else Run(Step(s, events[0]), events[1..])
  }

  /** No byte lost or reordered, and bytes queued always have a wait to send
      them. */
  predicate Sound(s: Sender) {
    && s.transmitted + s.sendBuff == s.flushed
    && (s.sendBuff != [] ==> s.sending)
    && (s.sending ==> s.waits > 0)
  }

  /** SENDING is set exactly when a wait is live, and never two are. */
  predicate OneWait(s: Sender) {
    s.waits == if s.sending then 1 else 0
  }

  lemma {:induction false} DrainSplits(buf: seq<byte>, answers: seq<Transfer>)
    ensures Drain(buf, answers).sent + Drain(buf, answers).rest == buf
    decreases |answers|
  {
    if answers != [] {
      var n := Min(answers[0].count, |buf|);
      if answers[0].ec == NoError && n != |buf| {
        DrainSplits(buf[n..], answers[1..]);
      }
    }
  }

  function Sum(answers: seq<Transfer>): nat {
    if answers == [] then 0 else answers[0].count + Sum(answers[1..])
  }

  /** The answers before the `j`-th report no error, and the `j`-th, if there is one,
      does. */
  predicate FirstError(answers: seq<Transfer>, j: nat) {
    && j <= |answers| && (j < |answers| ==> answers[j].ec != NoError)
    && forall i :: 0 <= i < j ==> answers[i].ec == NoError
  }

  /** The send loop takes as many bytes as the answers up to the first error allow, and
      fails exactly when it reaches an error other than "would block": with bytes
      left, or at the first send. */
  lemma {:induction false} DrainAmount(buf: seq<byte>, answers: seq<Transfer>, j: nat)
    requires FirstError(answers, j)
    ensures |Drain(buf, answers).sent| == Min(|buf|, Sum(answers[..Min(j + 1, |answers|)]))
    ensures Drain(buf, answers).failed <==>
            j < |answers| && answers[j].ec == Fatal && (j == 0 || Sum(answers[..j]) < |buf|)
    decreases |answers|
  {
    if answers != [] {
      SumFirst(answers, Min(j + 1, |answers|));
      if j > 0 {
        SumFirst(answers, j);
        var n := Min(answers[0].count, |buf|);
        if n < |buf| {
          DrainAmount(buf[n..], answers[1..], j - 1);
        }
      } else {
        assert answers[..1][1..] == [];
      }
    }
  }

  lemma SumFirst(answers: seq<Transfer>, n: nat)
    requires 0 < n <= |answers|
    ensures Sum(answers[..n]) == answers[0].count + Sum(answers[1..][..n - 1])
  {
    assert answers[..n][1..] == answers[1..][..n - 1];
  }

  /** A removal of what was sent; nothing is done where nothing was. */
  function Take(n: nat): seq<Action> {
    if n > 0 then [Remove(n)] else []
  }

  /** The removals of the send loop. */
  function Takes(buf: seq<byte>, answers: seq<Transfer>): seq<Action>
    decreases |answers|
  {
    if answers == [] then []
    else
      var n := Min(answers[0].count, |buf|);
      Take(n) + if answers[0].ec != NoError || n == |buf| then [] else Takes(buf[n..], answers[1..])
  }

  lemma TakesStep(buf: seq<byte>, answers: seq<Transfer>, i: nat, before: seq<Action>)
    requires i < |answers|
    ensures var n := Min(answers[i].count, |buf|);
            before + Takes(buf, answers[i..]) ==
            before + Take(n) + if answers[i].ec != NoError || n == |buf| then [] else Takes(buf[n..], answers[i + 1..])
  {
    assert answers[i..][1..] == answers[i + 1..];
    var n := Min(answers[i].count, |buf|);
    ConcatAssoc(before, Take(n),
                if answers[i].ec != NoError || n == |buf| then [] else Takes(buf[n..], answers[i + 1..]));
  }

  /** One turn of the send loop, seen from the bytes sent before it. */
  lemma DrainStep(buf: seq<byte>, answers: seq<Transfer>, i: nat, sent: seq<byte>)
    requires i < |answers|
    ensures var n := Min(answers[i].count, |buf|);
            var d, later := Drain(buf, answers[i..]), Drain(buf[n..], answers[i + 1..]);
            if answers[i].ec != NoError || n == |buf| then
              d == Drained(buf[..n], buf[n..], answers[i].ec == Fatal)
            else
              sent + d.sent == sent + buf[..n] + later.sent && d.rest == later.rest && d.failed == later.failed
  {
    assert answers[i..][1..] == answers[i + 1..];
    var n := Min(answers[i].count, |buf|);
    ConcatAssoc(sent, buf[..n], Drain(buf[n..], answers[i + 1..]).sent);
  }

  lemma StepSound(s: Sender, e: Event)
    requires Sound(s)
    ensures Sound(Step(s, e))
  {
    match e
    case Flush(bytes) =>
      assert s.transmitted + (s.sendBuff + bytes) == s.flushed + bytes;
    case Fired(_, answers) => DrainKeeps(s, answers);
    case StaleFired(_, answers) => DrainKeeps(s, answers);
    case Open =>
    case Closed =>
  }

  lemma DrainKeeps(s: Sender, answers: seq<Transfer>)
    requires Sound(s)
    ensures var d := Drain(s.sendBuff, answers);
            s.transmitted + d.sent + d.rest == s.flushed
  {
    var d := Drain(s.sendBuff, answers);
    DrainSplits(s.sendBuff, answers);
    assert s.transmitted + d.sent + d.rest == s.transmitted + (d.sent + d.rest);
  }

  /** What a step puts on the wire is the next stretch of the bytes flushed, and
      the socket's own account of it agrees unless the step closes it. */
  lemma StepOutput(s: Sender, e: Event)
    requires Sound(s) && !e.Flush?
    ensures s.transmitted + Output(s, e) <= s.flushed
    ensures !Ends(s, e) ==> Step(s, e).transmitted == s.transmitted + Output(s, e)
    ensures !Ends(s, e) ==> Step(s, e).flushed == s.flushed
  {
    if Fires(s, e) {
      DrainKeeps(s, e.answers);
    }
    assert s.transmitted + [] == s.transmitted;
  }

  /** Over every run, stale completions included: bytes transmitted followed by
      bytes queued are the bytes flushed, and a non-empty queue has a wait. */
  lemma {:induction false} RunSound(s: Sender, events: seq<Event>)
    requires Sound(s)
    ensures Sound(Run(s, events))
    decreases |events|
  {
    if events != [] {
      StepSound(s, events[0]);
      RunSound(Step(s, events[0]), events[1..]);
    }
  }

  /** A completion of an earlier epoch that reports success while this epoch is
      sending, and whose sends do not fail. */
  predicate Intrudes(s: Sender, e: Event) {
    e.StaleFired? && s.stale > 0 && !e.error && s.sending && !Drain(s.sendBuff, e.answers).failed
  }

  /** The single-wait discipline survives a step exactly when the step is not an
      intruding completion. */
  lemma OneWaitKeptIff(s: Sender, e: Event)
    requires Sound(s) && OneWait(s)
    ensures OneWait(Step(s, e)) <==> !Intrudes(s, e)
  {
    if e.StaleFired? {
      DrainSplits(s.sendBuff, e.answers);
    }
  }

  predicate NoIntrusion(s: Sender, events: seq<Event>)
    decreases |events|
  {
    events == [] || (!Intrudes(s, events[0]) && NoIntrusion(Step(s, events[0]), events[1..]))
  }

  /** Within every run without intruding completions at most one write wait is
      live, and SENDING says whether it is. */
  lemma {:induction false} RunOneWait(s: Sender, events: seq<Event>)
    requires Sound(s) && OneWait(s) && NoIntrusion(s, events)
    ensures OneWait(Run(s, events))
    decreases |events|
  {
    if events != [] {
      StepSound(s, events[0]);
      OneWaitKeptIff(s, events[0]);
      RunOneWait(Step(s, events[0]), events[1..]);
    }
  }

  /** A reconnect before the old completion runs: two waits are then live. */
  lemma TwoWaitsWitness()
    ensures var events := [Flush([1, 2]), Closed, Flush([3, 4]), StaleFired(false, [Transfer(1, NoError)])];
            !NoIntrusion(IDLE, events) && Run(IDLE, events).waits == 2
  {
    var s1 := Step(IDLE, Flush([1, 2]));
    var s2 := Step(s1, Closed);
    var s3 := Step(s2, Flush([3, 4]));
    assert s3 == Sender(true, [3, 4], 1, 1, [3, 4], []);
    var e := StaleFired(false, [Transfer(1, NoError)]);
    assert Drain([4], []) == Drained([], [4], false);
    assert Drain([3, 4], e.answers).rest == [4];
    var s4 := Step(s3, e);
    assert Run(s3, [e]) == Run(s4, []) == s4;
    assert Run(s2, [Flush([3, 4]), e]) == s4;
    assert Run(s1, [Closed, Flush([3, 4]), e]) == s4;
  }

  // ---------- the read loop ----------

  datatype Received = Received(packets: seq<Packet>, recvBuff: seq<byte>, wire: seq<byte>, failed: bool, stuck: bool)

  /** `receive` and `on_read` in turn, until the socket would block, fails, or a
      framing loop hangs.  `wire` is what the operating system holds. */
  function ReadLoop(recv: seq<byte>, wire: seq<byte>, answers: seq<Transfer>): Received
    decreases |answers|
  {
    if answers == [] then
      Received([], recv, wire, false, false)
    else
      var n := Min(answers[0].count, |wire|);
      var p := ReceiveOnce(recv, wire, answers[0].count);
      if p.stuck then
        Received(p.packets, p.rest, wire[n..], false, true)
      else if answers[0].ec == Fatal then
        Received(p.packets, [], wire[n..], true, false)
      else if answers[0].ec == WouldBlock then
        Received(p.packets, p.rest, wire[n..], false, false)
      else
        var r := ReadLoop(p.rest, wire[n..], answers[1..]);
        r.(packets := p.packets + r.packets)
  }

  /** What one `receive` and the `on_read` after it leave. */
  function ReceiveOnce(recv: seq<byte>, wire: seq<byte>, count: nat): Parsed {
    var n := Min(count, |wire|);
    if n > 0 then Parse(recv + wire[..n]) else Parsed([], recv, false)
  }

  /** The read loop takes as many bytes as the answers up to the first error allow,
      unless a framing loop hangs before. */
  lemma {:induction false} ReadAmount(recv: seq<byte>, wire: seq<byte>, answers: seq<Transfer>, j: nat)
    requires FirstError(answers, j) && !ReadLoop(recv, wire, answers).stuck
    ensures |wire| - |ReadLoop(recv, wire, answers).wire| == Min(|wire|, Sum(answers[..Min(j + 1, |answers|)]))
    ensures ReadLoop(recv, wire, answers).failed <==> j < |answers| && answers[j].ec == Fatal
    decreases |answers|
  {
    if answers != [] {
      SumFirst(answers, Min(j + 1, |answers|));
      if j > 0 {
        var n := Min(answers[0].count, |wire|);
        ReadAmount(ReceiveOnce(recv, wire, answers[0].count).rest, wire[n..], answers[1..], j - 1);
      } else {
        assert answers[..1][1..] == [];
      }
    }
  }

  /** One turn of the read loop, seen from the packets delivered before it. */
  lemma ReadLoopStep(recv: seq<byte>, wire: seq<byte>, answers: seq<Transfer>, i: nat, before: seq<Packet>)
    requires i < |answers|
    ensures var p, n := ReceiveOnce(recv, wire, answers[i].count), Min(answers[i].count, |wire|);
            var r, later := ReadLoop(recv, wire, answers[i..]), ReadLoop(p.rest, wire[n..], answers[i + 1..]);
            if p.stuck || answers[i].ec != NoError then
              r == Received(p.packets, if !p.stuck && answers[i].ec == Fatal then [] else p.rest, wire[n..],
                            !p.stuck && answers[i].ec == Fatal, p.stuck)
            else
              r.(packets := before + r.packets) == later.(packets := before + p.packets + later.packets)
  {
    assert answers[i..][1..] == answers[i + 1..];
    var p, n := ReceiveOnce(recv, wire, answers[i].count), Min(answers[i].count, |wire|);
    ConcatAssoc(before, p.packets, ReadLoop(p.rest, wire[n..], answers[i + 1..]).packets);
  }

  /** `r` delivered what one `on_read` on the bytes taken would deliver. */
  ghost predicate Explains(recv: seq<byte>, taken: seq<byte>, r: Received) {
    var p := Parse(recv + taken);
    r.packets == p.packets && r.stuck == p.stuck && r.recvBuff == if r.failed then [] else p.rest
  }

  lemma ExplainsJoin(recv: seq<byte>, a: seq<byte>, b: seq<byte>, r: Received)
    requires !Parse(recv + a).stuck
    requires Explains(Parse(recv + a).rest, b, r)
    ensures Explains(recv, a + b, r.(packets := Parse(recv + a).packets + r.packets))
  {
    ConcatAssoc(recv, a, b);
    ParseConcat(recv + a, b);
  }

  /** The read loop, however the receives are cut, takes a stretch off the wire
      and delivers what one `on_read` on all of it would. */
  lemma {:induction false} ReadLoopParses(recv: seq<byte>, wire: seq<byte>, answers: seq<Transfer>)
    returns (taken: seq<byte>)
    requires !Ready(recv)
    ensures wire == taken + ReadLoop(recv, wire, answers).wire
    ensures Explains(recv, taken, ReadLoop(recv, wire, answers))
    decreases |answers|
  {
    if answers == [] {
      taken := [];
      assert recv + taken == recv;
    } else {
      var n := Min(answers[0].count, |wire|);
      taken := wire[..n];
      var p := Parse(recv + taken);
      assert ReceiveOnce(recv, wire, answers[0].count) == p by {
        if n == 0 {
          assert recv + taken == recv;
        }
      }
      if !p.stuck && answers[0].ec == NoError {
        RestNotReady(recv + taken);
        var more := ReadLoopParses(p.rest, wire[n..], answers[1..]);
        var later := ReadLoop(p.rest, wire[n..], answers[1..]);
        ExplainsJoin(recv, taken, more, later);
        SplitAt(wire, n);
        ConcatAssoc(taken, more, later.wire);
        taken := taken + more;
      }
    }
  }

  // ---------- the socket ----------

  class Socket {
    var sending: bool
    const sendBuff: ByteBuffer
    const recvBuff: ByteBuffer
    ghost var waits: nat
    ghost var stale: nat
    ghost var flushed: seq<byte>
    ghost var transmitted: seq<byte>

    ghost function View(): Sender
      reads this, sendBuff
    {
      Sender(sending, sendBuff.contents, waits, stale, flushed, transmitted)
    }

    ghost predicate Separate() {
      sendBuff != recvBuff
    }

    constructor ()
      ensures View() == IDLE && recvBuff.contents == [] && Separate()
      ensures fresh(sendBuff) && fresh(recvBuff)
    {
      sending := false;
      sendBuff := new ByteBuffer();
      recvBuff := new ByteBuffer();
      waits, stale, flushed, transmitted := 0, 0, [], [];
    }

    method DoWrite()
      modifies this
      ensures View() == Armed(old(View()))
      ensures sending == (old(sending) || sendBuff.contents != [])
      ensures waits == old(waits) + if !old(sending) && sendBuff.contents != [] then 1 else 0
    {
      if !sending {
        if sendBuff.Count() > 0 {
          sending := true;
          waits := waits + 1;
        }
      }
    }

    method Close()
      requires Separate()
      modifies this, sendBuff, recvBuff
      ensures View() == Shut(old(View())) && recvBuff.contents == []
      ensures !sending && sendBuff.contents == [] && waits == 0 && stale == old(stale + waits)
      ensures sendBuff.done == old(sendBuff.done) + [Reset]
    {
      sending := false;
      recvBuff.Reset();
      sendBuff.Reset();
      stale, waits := stale + waits, 0;
      flushed, transmitted := [], [];
    }

    method RemoveSent(n: nat)
      requires n <= |sendBuff.contents|
      modifies sendBuff
      ensures sendBuff.contents == old(sendBuff.contents)[n..] && sendBuff.done == old(sendBuff.done) + Take(n)
    {
      if n > 0 {
        sendBuff.Remove(n);
      } else {
        AppendNothing(sendBuff.done);
      }
    }

    /** The body of the write handler. */
    method OnWritable(error: bool, answers: seq<Transfer>) returns (sent: seq<byte>, closed: bool)
      requires Separate()
      modifies this, sendBuff, recvBuff
      ensures View() == Handle(old(View()), error, answers)
      ensures sent == if error then [] else Drain(old(sendBuff.contents), answers).sent
      ensures closed == (error || Drain(old(sendBuff.contents), answers).failed)
      ensures closed ==> !sending && sendBuff.contents == [] && waits == 0 && stale == old(stale + waits)
      ensures !closed ==> (sending <==> sendBuff.contents != []) && stale == old(stale)
      ensures !closed ==> waits == old(waits) + if sending then 1 else 0
      ensures sendBuff.done == old(sendBuff.done) + (if error then [] else Takes(old(sendBuff.contents), answers))
                               + if closed then [Reset] else []
      ensures recvBuff.contents ==
              if error || Drain(old(sendBuff.contents), answers).failed then [] else old(recvBuff.contents)
    {
      sent, closed := [], error;
      AppendNothing(sendBuff.done);
      if error {
        Close();
        return;
      }
      var i := 0;
      while i < |answers|
        invariant i <= |answers| && !closed
        invariant var d := Drain(sendBuff.contents, answers[i..]);
                  Drain(old(sendBuff.contents), answers) == Drained(sent + d.sent, d.rest, d.failed)
        invariant View() == old(View()).(sendBuff := sendBuff.contents)
        invariant sendBuff.done + Takes(sendBuff.contents, answers[i..])
                  == old(sendBuff.done) + Takes(old(sendBuff.contents), answers)
        invariant recvBuff.contents == old(recvBuff.contents)
      {
        var n := Min(answers[i].count, sendBuff.Count());
        DrainStep(sendBuff.contents, answers, i, sent);
        TakesStep(sendBuff.contents, answers, i, sendBuff.done);
        sent := sent + sendBuff.contents[..n];
        RemoveSent(n);
        if answers[i].ec == Fatal {
          Close();
          closed := true;
          return;
        }
        i := if answers[i].ec == WouldBlock || sendBuff.Count() == 0 then |answers| else i + 1;
      }
      transmitted := transmitted + sent;
      sending := false;
      DoWrite();
    }

    /** A write wait completes: one of this epoch, or a stale one. */
    method WaitFired(late: bool, error: bool, answers: seq<Transfer>) returns (sent: seq<byte>, closed: bool)
      requires Separate() && (if late then stale > 0 else waits > 0)
      modifies this, sendBuff, recvBuff
      ensures var e := if late then StaleFired(error, answers) else Fired(error, answers);
              View() == Step(old(View()), e) && sent == Output(old(View()), e) && closed == Ends(old(View()), e)
      ensures sent == if error then [] else Drain(old(sendBuff.contents), answers).sent
      ensures closed == (error || Drain(old(sendBuff.contents), answers).failed)
      ensures closed ==> !sending && sendBuff.contents == [] && waits == 0 && stale == old(stale + waits) - 1
      ensures !closed ==> sendBuff.contents == Drain(old(sendBuff.contents), answers).rest
      ensures !closed ==> (sending <==> sendBuff.contents != [])
    {
      if late {
        stale := stale - 1;
      } else {
        waits := waits - 1;
      }
      sent, closed := OnWritable(error, answers);
    }

    method ReceiveThenRead(incoming: seq<byte>, count: nat)
      returns (packets: seq<Packet>, wire: seq<byte>, stuck: bool)
      modifies recvBuff
      ensures Parsed(packets, recvBuff.contents, stuck) == ReceiveOnce(old(recvBuff.contents), incoming, count)
      ensures wire == incoming[Min(count, |incoming|)..]
    {
      var n := Min(count, |incoming|);
      packets, wire, stuck := [], incoming[n..], false;
      if n > 0 {
        recvBuff.Receive(incoming[..n]);
        packets, stuck := OnRead(recvBuff);
      }
    }

    /** The body of the read handler. */
    method OnReadable(error: bool, incoming: seq<byte>, answers: seq<Transfer>)
      returns (packets: seq<Packet>, wire: seq<byte>, closed: bool, stuck: bool)
      requires Separate()
      modifies this, sendBuff, recvBuff
      ensures error ==> packets == [] && wire == incoming && closed && !stuck && recvBuff.contents == []
      ensures !error ==>
                Received(packets, recvBuff.contents, wire, closed, stuck)
                == ReadLoop(old(recvBuff.contents), incoming, answers)
      ensures View() == if closed then Shut(old(View())) else old(View())
      ensures closed ==> !sending && sendBuff.contents == [] && recvBuff.contents == [] && waits == 0
    {
      packets, wire, closed, stuck := [], incoming, false, false;
      if error {
        Close();
        closed := true;
        return;
      }
      var i := 0;
      while i < |answers|
        invariant i <= |answers| && !closed && !stuck
        invariant var r := ReadLoop(recvBuff.contents, wire, answers[i..]);
                  ReadLoop(old(recvBuff.contents), incoming, answers) == r.(packets := packets + r.packets)
        invariant View() == old(View())
      {
        ReadLoopStep(recvBuff.contents, wire, answers, i, packets);
        var more;
        more, wire, stuck := ReceiveThenRead(wire, answers[i].count);
        packets := packets + more;
        if stuck {
          return;
        }
        if answers[i].ec == Fatal {
          Close();
          closed := true;
          return;
        }
        i := if answers[i].ec == WouldBlock then |answers| else i + 1;
      }
    }
  }
}
