/** Runs of the ring, beside the byte sequence that packets and sockets take it for. */
module RingRuns {
  import opened Bytes
  import opened ReactorBuffer
  import opened RingArithmetic
  import opened Ring

  /** A ring by its shape, and the bytes in it. */
  datatype State = State(v: Shape, bytes: seq<byte>) {
    ghost predicate Valid() {
      v.Valid() && v.total == |bytes|
    }
  }

  /** The rule on callers: no more is removed than there is, and what `receive` is
      given lies in the array. */
  predicate Allowed(s: State, op: Action) {
    match op
    case Remove(count) => count <= |s.bytes|
    case RemoveFromBack(count) => count % TWO_TO_THE_32 <= |s.bytes|
    case Receive(_) => s.v.tail < s.v.size
    case _ => true
  }

  /** How an operation comes out, which depends on counts alone. */
  function Result(s: State, max: nat, op: Action): Outcome
    requires s.Valid() && Allowed(s, op)
  {
    match op
    case Append(data) => Appending(s.v, max, |data|)
    case Overwrite(data, offset) => Overwriting(s.v, offset, |data|)
    case Read(count, offset) => if offset + count <= |s.bytes| then Done else InvalidOffset
    case ReadFront(count) => if count <= |s.bytes| then Done else InvalidOffset
    case Receive(_) => if Reaches(s.v.size, max, s.v.total + 1) then Done else NoSpace
    case _ => Done
  }

  /** The bytes of the sequence after an operation that returns; `taken` is what a
      `receive` takes. */
  function BytesAfter(bytes: seq<byte>, op: Action, taken: nat): seq<byte>
    requires op.Overwrite? ==> op.offset + |op.data| <= |bytes|
    requires op.ReadFront? || op.Remove? ==> op.count <= |bytes|
    requires op.RemoveFromBack? ==> op.count % TWO_TO_THE_32 <= |bytes|
    requires op.Receive? ==> taken <= |op.available|
  {
    match op
    case Append(data) => bytes + data
    case Overwrite(data, offset) => Overwritten(bytes, offset, data)
    case Read(_, _) => bytes
    case ReadFront(count) => bytes[count..]
    case Remove(count) => bytes[count..]
    case RemoveFromBack(count) => bytes[..|bytes| - count % TWO_TO_THE_32]
    case Receive(available) => bytes + available[..taken]
    case Reset => []
  }

  function Taken(s: State, max: nat, op: Action): nat
    requires s.Valid() && Allowed(s, op) && Result(s, max, op).Done?
  {
    if op.Receive? then Receiving(s.v, max, |op.available|) else 0
  }

  function ShapeAfter(s: State, max: nat, op: Action): Shape
    requires s.Valid() && Allowed(s, op) && Result(s, max, op).Done?
  {
    match op
    case Append(data) => Appended(s.v, max, |data|)
    case Overwrite(_, _) => s.v
    case Read(_, _) => s.v
    case ReadFront(count) => s.v.(head := At(s.v.head, count, s.v.size), total := s.v.total - count)
    case Remove(count) => s.v.(head := At(s.v.head, count, s.v.size), total := s.v.total - count)
    case RemoveFromBack(count) =>
      s.v.(tail := (s.v.tail - count) % TWO_TO_THE_64, total := s.v.total - count % TWO_TO_THE_32)
    case Receive(available) => Received(s.v, max, |available|)
    case Reset => Shape(0, 0, 0, s.v.size)
  }

  function After(s: State, max: nat, op: Action): (r: State)
    requires s.Valid() && Allowed(s, op) && Result(s, max, op).Done?
    ensures r.Valid()
  {
    State(ShapeAfter(s, max, op), BytesAfter(s.bytes, op, Taken(s, max, op)))
  }

  /** What an operation shows. */
  function Shown(bytes: seq<byte>, op: Action): seq<byte>
    requires op.Read? ==> op.offset + op.count <= |bytes|
    requires op.ReadFront? ==> op.count <= |bytes|
  {
    match op
    case Read(count, offset) => bytes[offset..offset + count]
    case ReadFront(count) => bytes[..count]
    case _ => []
  }

  /** Every operation performed follows the rule. */
  predicate AllowedRun(s: State, max: nat, ops: seq<Action>)
    requires s.Valid()
    decreases |ops|
  {
    ops == [] ||
    (Allowed(s, ops[0]) && (Result(s, max, ops[0]).Done? ==> AllowedRun(After(s, max, ops[0]), max, ops[1..])))
  }

  /** How a run comes out: the first outcome that is not `Done`. */
  function RunResult(s: State, max: nat, ops: seq<Action>): Outcome
    requires s.Valid() && AllowedRun(s, max, ops)
    decreases |ops|
  {
    if ops == [] then Done
    else if !Result(s, max, ops[0]).Done? then Result(s, max, ops[0])
    else RunResult(After(s, max, ops[0]), max, ops[1..])
  }

  /** The state in which a run ends. */
  function RunState(s: State, max: nat, ops: seq<Action>): (r: State)
    requires s.Valid() && AllowedRun(s, max, ops)
    ensures r.Valid()
    decreases |ops|
  {
    if ops == [] || !Result(s, max, ops[0]).Done? then s
    else RunState(After(s, max, ops[0]), max, ops[1..])
  }

  lemma {:induction false} RunJoin(s: State, max: nat, a: seq<Action>, b: seq<Action>)
    requires s.Valid() && AllowedRun(s, max, a)
    requires RunResult(s, max, a).Done? ==> AllowedRun(RunState(s, max, a), max, b)
    ensures AllowedRun(s, max, a + b)
    ensures RunResult(s, max, a).Done? ==>
              && RunResult(s, max, a + b) == RunResult(RunState(s, max, a), max, b)
              && RunState(s, max, a + b) == RunState(RunState(s, max, a), max, b)
    ensures !RunResult(s, max, a).Done? ==> RunResult(s, max, a + b) == RunResult(s, max, a)
    decreases |a|
  {
    if a == [] {
      assert a + b == b;
    } else {
      assert (a + b)[1..] == a[1..] + b;
      if Result(s, max, a[0]).Done? {
        RunJoin(After(s, max, a[0]), max, a[1..], b);
      }
    }
  }

  /** One operation as a run. */
  lemma RunOne(s: State, max: nat, op: Action)
    requires s.Valid() && Allowed(s, op)
    ensures AllowedRun(s, max, [op]) && RunResult(s, max, [op]) == Result(s, max, op)
    ensures Result(s, max, op).Done? ==> RunState(s, max, [op]) == After(s, max, op)
  {
    if Result(s, max, op).Done? {
      assert [op][1..] == [];
      assert AllowedRun(After(s, max, op), max, []);
    }
  }

  /** A range of another ring is written as one or two runs of bytes are. */
  lemma RangeAsRun(s: State, max: nat, first: seq<byte>, rest: seq<byte>)
    requires s.Valid() && first != []
    ensures var ops := [Append(first)] + if rest == [] then [] else [Append(rest)];
            AllowedRun(s, max, ops) && RunResult(s, max, ops) == Ranging(s.v, max, |first|, |first| + |rest|)
  {
    RunOne(s, max, Append(first));
    var t := RunState(s, max, [Append(first)]);
    RunOne(t, max, Append(rest));
    RunJoin(s, max, [Append(first)], if rest == [] then [] else [Append(rest)]);
  }

  /** The bytes a run may put in. */
  function Entering(ops: seq<Action>): nat {
    if ops == [] then 0
    else
      (match ops[0]
       case Append(data) => |data|
       case Receive(available) => |available|
       case _ => 0) + Entering(ops[1..])
  }

  /** Until the bytes that have been in the ring reach the end of its array, nothing
      fails but a read or a write at a wrong offset. */
  lemma {:induction false} FirstLap(s: State, max: nat, ops: seq<Action>)
    requires s.Valid() && AllowedRun(s, max, ops)
    requires s.v.head + s.v.total + Entering(ops) + 2 <= s.v.size
    ensures RunResult(s, max, ops).Done? || RunResult(s, max, ops).InvalidOffset?
    decreases |ops|
  {
    if ops != [] {
      FirstLapOne(s, max, ops[0], Entering(ops) - Entering(ops[1..]));
      if Result(s, max, ops[0]).Done? {
        FirstLap(After(s, max, ops[0]), max, ops[1..]);
      }
    }
  }

  lemma FirstLapOne(s: State, max: nat, op: Action, entering: nat)
    requires s.Valid() && Allowed(s, op) && s.v.head + s.v.total + entering + 2 <= s.v.size
    requires op.Append? ==> entering == |op.data|
    requires op.Receive? ==> entering == |op.available|
    ensures Result(s, max, op).Done? || Result(s, max, op).InvalidOffset?
    ensures Result(s, max, op).Done? ==>
              var v := After(s, max, op).v;
              v.size == s.v.size && v.head + v.total <= s.v.head + s.v.total + entering
  {
  }

  method OnRing(c: Circle, op: Action, ghost s: State) returns (outcome: Outcome, shown: seq<byte>, taken: nat)
    requires c.Valid() && s == State(c.View(), c.contents) && Allowed(s, op)
    modifies c, c.mem
    ensures outcome == Result(s, c.maxSize, op)
    ensures outcome.Done? ==> c.Valid() && State(c.View(), c.contents) == After(s, c.maxSize, op)
    ensures outcome.Done? ==> shown == Shown(s.bytes, op) && taken == Taken(s, c.maxSize, op)
    ensures c.mem == old(c.mem) || fresh(c.mem)
  {
    outcome, shown, taken := Done, [], 0;
    var ok;
    if op.Append? {
      outcome := c.Append(op.data);
    } else if op.Overwrite? {
      outcome := c.Overwrite(op.data, op.offset);
    } else if op.Read? {
      ok, shown := c.Read(op.count, op.offset);
      outcome := if ok then Done else InvalidOffset;
    } else if op.ReadFront? {
      ok, shown := c.ReadFront(op.count);
      outcome := if ok then Done else InvalidOffset;
    } else if op.Remove? {
      c.Remove(op.count);
    } else if op.RemoveFromBack? {
      c.RemoveFromBack(op.count);
    } else if op.Receive? {
      ok, taken := c.Receive(op.available);
      outcome := if ok then Done else NoSpace;
    } else {
      c.Reset();
    }
  }

  method OnBuffer(b: ByteBuffer, op: Action, taken: nat) returns (shown: seq<byte>)
    requires op.Overwrite? ==> op.offset + |op.data| <= |b.contents|
    requires op.Read? ==> op.offset + op.count <= |b.contents|
    requires op.ReadFront? || op.Remove? ==> op.count <= |b.contents|
    requires op.RemoveFromBack? ==> op.count % TWO_TO_THE_32 <= |b.contents|
    requires op.Receive? ==> taken <= |op.available|
    modifies b
    ensures b.contents == BytesAfter(old(b.contents), op, taken) && shown == Shown(old(b.contents), op)
  {
    shown := [];
    if op.Append? {
      b.Append(op.data);
    } else if op.Overwrite? {
      b.Overwrite(op.offset, op.data);
    } else if op.Read? {
      shown := b.Read(op.offset, op.count);
    } else if op.ReadFront? {
      shown := b.Read(0, op.count);
      b.Remove(op.count);
    } else if op.Remove? {
      b.Remove(op.count);
    } else if op.RemoveFromBack? {
      b.RemoveFromBack(op.count);
    } else if op.Receive? {
      b.Receive(op.available[..taken]);
    } else {
      b.Reset();
    }
  }

  /** A run comes out as its counts say; up to its end the ring shows what the byte
      sequence shows, and when all operations return it holds the same bytes. */
  method RunBoth(c: Circle, b: ByteBuffer, ops: seq<Action>, ghost s: State)
    returns (outcome: Outcome, onRing: seq<seq<byte>>, onBuffer: seq<seq<byte>>)
    requires c.Valid() && s == State(c.View(), c.contents) && b.contents == c.contents
    requires AllowedRun(s, c.maxSize, ops)
    modifies c, c.mem, b
    ensures outcome == RunResult(s, c.maxSize, ops) && onRing == onBuffer
    ensures outcome.Done? ==>
              && c.Valid() && c.contents == b.contents
              && State(c.View(), c.contents) == RunState(s, c.maxSize, ops)
    decreases |ops|
  {
    if ops == [] {
      return Done, [], [];
    }
    var shown, taken;
    outcome, shown, taken := OnRing(c, ops[0], s);
    onRing, onBuffer := [], [];
    if outcome.Done? {
      var alike := OnBuffer(b, ops[0], taken);
      outcome, onRing, onBuffer := RunBoth(c, b, ops[1..], After(s, c.maxSize, ops[0]));
      onRing, onBuffer := [shown] + onRing, [alike] + onBuffer;
    }
  }

  lemma SizeOfDefault()
    ensures RingSize(1024)
  {
    assert Pow2(10) == 1024;
  }

  /** A buffer as connections have it: 1022 bytes written and taken, then a header
      written, of which the array holds two bytes before its end. */
  method OverrunWitness() returns (outcome: Outcome)
    ensures outcome == Overrun
  {
    SizeOfDefault();
    var c := new Circle(409600, 1024);
    var first := c.Append(seq(1022, _ => 0));
    c.Remove(1022);
    ShortWrapFails(1024, 1022, HEADER, HEADER);
    outcome := c.Append([0, 0, 0, 0]);
  }

  /** Exactly as many bytes as the empty buffer has free places. */
  method EndlessWitness() returns (outcome: Outcome)
    ensures outcome == Endless
  {
    SizeOfDefault();
    var c := new Circle(409600, 1024);
    outcome := c.Append(seq(1023, _ => 0));
  }
}
