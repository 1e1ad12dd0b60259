/** Packets and the sends of a connection on the ring: which operations of the buffer
    they are, and which runs of them the ring carries. */
module RingPackets {
  import opened Bytes
  import opened Framing
  import P = Packets
  import opened ReactorBuffer
  import opened RingRuns

  /** What is claimed of a program: it keeps the rule, and a ring that carries it
      gains `image`. */
  ghost predicate Gains(s: State, max: nat, steps: seq<Action>, image: seq<byte>)
    requires s.Valid()
  {
    && AllowedRun(s, max, steps)
    && (RunResult(s, max, steps).Done? ==> RunState(s, max, steps).bytes == s.bytes + image)
  }

  lemma GainsJoin(s: State, max: nat, a: seq<Action>, x: seq<byte>, b: seq<Action>, y: seq<byte>)
    requires s.Valid() && Gains(s, max, a, x)
    requires RunResult(s, max, a).Done? ==> Gains(RunState(s, max, a), max, b, y)
    ensures Gains(s, max, a + b, x + y)
  {
    RunJoin(s, max, a, b);
    ConcatAssoc(s.bytes, x, y);
  }

  lemma GainsAppend(s: State, max: nat, data: seq<byte>)
    requires s.Valid()
    ensures Gains(s, max, [Append(data)], data)
  {
    RunOne(s, max, Append(data));
  }

  /** The last step of a nested writer turns placeholder and body into a frame, or
      takes them back. */
  lemma FinishGains(s: State, max: nat, before: seq<byte>, body: seq<byte>, kept: bool)
    requires s.Valid() && s.bytes == before + (Encode32(P.UNFLUSHED) + body)
    requires |before| + HEADER + |body| < TWO_TO_THE_32
    ensures var op := P.Finish(|before|, |body|, kept);
            && AllowedRun(s, max, [op])
            && (RunResult(s, max, [op]).Done? ==>
                RunState(s, max, [op]).bytes == before + P.Packed(body, kept))
  {
    var op := P.Finish(|before|, |body|, kept);
    ConcatAssoc(before, Encode32(P.UNFLUSHED), body);
    P.FrameInPlace(before, Encode32(P.UNFLUSHED), body);
    RunOne(s, max, op);
    if kept {
      ConcatAssoc(before, Encode32(|body|), body);
    } else {
      AppendNothing(before);
    }
  }

  lemma {:induction false} StepsGain(s: State, max: nat, ops: seq<P.Op>)
    requires s.Valid() && |s.bytes| + P.Volume(ops) < TWO_TO_THE_32
    ensures Gains(s, max, P.Steps(|s.bytes|, ops), P.Body(ops))
    decreases ops, 0
  {
    if ops == [] {
      AppendNothing(s.bytes);
    } else {
      P.BodyFits(ops);
      StepGains(s, max, ops[0]);
      var a := P.StepsOf(|s.bytes|, ops[0]);
      if RunResult(s, max, a).Done? {
        StepsGain(RunState(s, max, a), max, ops[1..]);
      }
      GainsJoin(s, max, a, P.Image(ops[0]), P.Steps(|s.bytes| + |P.Image(ops[0])|, ops[1..]), P.Body(ops[1..]));
    }
  }

  /** Whatever a program puts, flushes and abandons inside a writer, a ring that
      carries it gains the bytes it leaves. */
  lemma {:induction false} StepGains(s: State, max: nat, op: P.Op)
    requires s.Valid() && |s.bytes| + P.OpVolume(op) < TWO_TO_THE_32
    ensures Gains(s, max, P.StepsOf(|s.bytes|, op), P.Image(op))
    decreases op, 1
  {
    match op
    case Put(bytes) => GainsAppend(s, max, bytes);
    case Child(inner, kept) =>
      var body, hold := P.Body(inner), Encode32(P.UNFLUSHED);
      P.BodyFits(inner);
      GainsAppend(s, max, hold);
      var a := [Append(hold)];
      if RunResult(s, max, a).Done? {
        StepsGain(RunState(s, max, a), max, inner);
      }
      var b := a + P.Steps(|s.bytes| + HEADER, inner);
      GainsJoin(s, max, a, hold, P.Steps(|s.bytes| + HEADER, inner), body);
      var c := [P.Finish(|s.bytes|, |body|, kept)];
      if RunResult(s, max, b).Done? {
        FinishGains(RunState(s, max, b), max, s.bytes, body, kept);
      }
      RunJoin(s, max, b, c);
  }

  // ---------- the send buffer of a connection ----------

  /** A packet is written by a program and flushed, or the operating system takes
      bytes from the front. */
  datatype Event = Packet(ops: seq<P.Op>) | Taken(count: nat)

  function EventSteps(total: nat, e: Event): seq<Action> {
    match e
    case Packet(ops) => P.ChildSteps(total, ops, true)
    case Taken(count) => [Remove(count)]
  }

  /** No more is taken than there is, and lengths fit 32 bits. */
  predicate Plausible(s: State, e: Event) {
    match e
    case Packet(ops) => |s.bytes| + HEADER + P.Volume(ops) < TWO_TO_THE_32
    case Taken(count) => count <= |s.bytes|
  }

  ghost predicate PlausibleRun(s: State, max: nat, events: seq<Event>)
    requires s.Valid()
    decreases |events|
  {
    events == [] ||
    (&& Plausible(s, events[0])
     && var steps := EventSteps(|s.bytes|, events[0]);
        AllowedRun(s, max, steps) &&
        (RunResult(s, max, steps).Done? ==> PlausibleRun(RunState(s, max, steps), max, events[1..])))
  }

  /** All operations of a run of sends, as far as it gets. */
  ghost function AllSteps(s: State, max: nat, events: seq<Event>): seq<Action>
    requires s.Valid() && PlausibleRun(s, max, events)
    decreases |events|
  {
    if events == [] then []
    else
      var steps := EventSteps(|s.bytes|, events[0]);
      steps + if RunResult(s, max, steps).Done? then AllSteps(RunState(s, max, steps), max, events[1..]) else []
  }

  /** The bytes the operating system has taken. */
  ghost function AllTaken(s: State, max: nat, events: seq<Event>): seq<byte>
    requires s.Valid() && PlausibleRun(s, max, events)
    decreases |events|
  {
    if events == [] then []
    else
      var steps := EventSteps(|s.bytes|, events[0]);
      (if events[0].Taken? then s.bytes[..events[0].count] else [])
      + if RunResult(s, max, steps).Done? then AllTaken(RunState(s, max, steps), max, events[1..]) else []
  }

  function Bodies(events: seq<Event>): seq<seq<byte>> {
    if events == [] then []
    else (if events[0].Packet? then [P.Body(events[0].ops)] else []) + Bodies(events[1..])
  }

  /** A run of sends keeps the rule; if the ring carries it, the bytes taken followed
      by the bytes held are what was held and the frames of the packets, in order. */
  lemma {:induction false} SendsKept(s: State, max: nat, events: seq<Event>)
    requires s.Valid() && PlausibleRun(s, max, events)
    ensures var steps := AllSteps(s, max, events);
            && AllowedRun(s, max, steps)
            && (RunResult(s, max, steps).Done? ==>
                AllTaken(s, max, events) + RunState(s, max, steps).bytes == s.bytes + Frames(Bodies(events)))
    decreases |events|
  {
    if events == [] {
      AppendNothing(s.bytes);
    } else {
      var steps := EventSteps(|s.bytes|, events[0]);
      if RunResult(s, max, steps).Done? {
        SendsOnward(s, max, events);
      } else {
        RunJoin(s, max, steps, []);
      }
    }
  }

  lemma {:induction false} SendsOnward(s: State, max: nat, events: seq<Event>)
    requires s.Valid() && events != [] && PlausibleRun(s, max, events)
    requires RunResult(s, max, EventSteps(|s.bytes|, events[0])).Done?
    ensures var steps := AllSteps(s, max, events);
            && AllowedRun(s, max, steps)
            && (RunResult(s, max, steps).Done? ==>
                AllTaken(s, max, events) + RunState(s, max, steps).bytes == s.bytes + Frames(Bodies(events)))
    decreases |events|, 0
  {
    var steps := EventSteps(|s.bytes|, events[0]);
    var t := RunState(s, max, steps);
    SendsKept(t, max, events[1..]);
    RunJoin(s, max, steps, AllSteps(t, max, events[1..]));
    var later, last := AllTaken(t, max, events[1..]), RunState(s, max, AllSteps(s, max, events)).bytes;
    var frames := Frames(Bodies(events[1..]));
    if events[0].Packet? {
      StepGains(s, max, P.Child(events[0].ops, true));
      assert [] + later == later;
      FramesConcat([P.Body(events[0].ops)], Bodies(events[1..]));
      ConcatAssoc(s.bytes, Frame(P.Body(events[0].ops)), frames);
    } else {
      var n := events[0].count;
      RunOne(s, max, Remove(n));
      assert [] + Bodies(events[1..]) == Bodies(events[1..]);
      SplitAt(s.bytes, n);
      ConcatAssoc(s.bytes[..n], later, last);
      ConcatAssoc(s.bytes[..n], t.bytes, frames);
    }
  }

  lemma {:induction false} BodiesFramable(s: State, max: nat, events: seq<Event>)
    requires s.Valid() && PlausibleRun(s, max, events)
    requires var steps := AllSteps(s, max, events); AllowedRun(s, max, steps) && RunResult(s, max, steps).Done?
    ensures AllFramable(Bodies(events))
    decreases |events|
  {
    if events != [] {
      var steps := EventSteps(|s.bytes|, events[0]);
      if RunResult(s, max, steps).Done? {
        var t := RunState(s, max, steps);
        SendsKept(t, max, events[1..]);
        RunJoin(s, max, steps, AllSteps(t, max, events[1..]));
        BodiesFramable(t, max, events[1..]);
        if events[0].Packet? {
          P.BodyFits(events[0].ops);
        }
      } else {
        RunJoin(s, max, steps, []);
      }
    }
  }

  /** A run of sends that the ring carries, from an empty ring: whatever part of the
      bytes taken has arrived, the packets cut from it are the first ones sent. */
  lemma CarriedInOrder(s: State, max: nat, events: seq<Event>, arrived: seq<byte>) returns (n: nat)
    requires s.Valid() && s.bytes == [] && PlausibleRun(s, max, events)
    requires var steps := AllSteps(s, max, events); AllowedRun(s, max, steps) && RunResult(s, max, steps).Done?
    requires arrived <= AllTaken(s, max, events)
    ensures n <= |Bodies(events)| && Carries(Parse(arrived).packets, Bodies(events)[..n])
  {
    SendsKept(s, max, events);
    BodiesFramable(s, max, events);
    var frames, taken := Frames(Bodies(events)), AllTaken(s, max, events);
    assert [] + frames == frames;
    assert taken <= taken + RunState(s, max, AllSteps(s, max, events)).bytes;
    n := ParsePrefix(Bodies(events), arrived);
  }
}
