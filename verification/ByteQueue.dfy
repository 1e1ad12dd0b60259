/** The bounded byte queue that all dynamic buffers of asio stand for
    ([buffer.reqmts.dynamicbuffer] of ISO/IEC TS 19216:2018). */
module ByteQueue {
  import opened Bytes

  /** A byte of the queue.  A byte committed without having been written is
      whatever the buffer's memory held. */
  datatype Cell = Written(value: byte) | Unwritten

  /** `prepared` is the output sequence of the last `prepare`, as long as nothing
      else intervened. */
  datatype Queue = Queue(contents: seq<Cell>, max: nat, prepared: seq<Cell>)

  datatype Op =
    | Prepare(n: nat, written: seq<byte>)   // prepare(n), then the user writes
    | Commit(n: nat)
    | Consume(n: nat)
    | Put(c: byte)                          // streambuf: sputc
    | Get                                   // streambuf: sbumpc
    | Peek                                  // streambuf: sgetc

  /** The output sequence of `prepare(n)` with its first bytes written. */
  function Cells(n: nat, written: seq<byte>): (s: seq<Cell>)
    ensures |s| == n
  {
    seq(n, i requires 0 <= i < n => if i < |written| then Written(written[i]) else Unwritten)
  }

  /** Bytes that agree with the cells wherever these were written. */
  predicate Fills(bytes: seq<byte>, cells: seq<Cell>) {
    |bytes| == |cells| && forall i :: 0 <= i < |cells| && cells[i].Written? ==> bytes[i] == cells[i].value
  }

  predicate AllWritten(cells: seq<Cell>) {
    forall i :: 0 <= i < |cells| ==> cells[i].Written?
  }

  /** What a caller sees of one operation: whether it threw, the character it
      returned, and the input sequence afterwards. */
  datatype Observation = Observation(ok: bool, result: seq<byte>, contents: seq<byte>)

  /** The same with cells for bytes. */
  datatype Expected = Expected(ok: bool, result: seq<Cell>, contents: seq<Cell>)

  predicate Meets(o: Observation, e: Expected) {
    o.ok == e.ok && Fills(o.result, e.result) && Fills(o.contents, e.contents)
  }

  predicate AllMeet(seen: seq<Observation>, es: seq<Expected>) {
    |seen| == |es| && forall i :: 0 <= i < |es| ==> Meets(seen[i], es[i])
  }

  /** The rule on callers: no more is committed than was prepared, and no more is
      written than was prepared. */
  predicate Lawful(q: Queue, op: Op) {
    match op
    case Prepare(n, written) => |written| <= n
    case Commit(n) => n <= |q.prepared|
    case _ => true
  }

  /** Whether the operation fits: the only cause of failure. */
  predicate Fits(q: Queue, op: Op) {
    match op
    case Prepare(n, _) => |q.contents| + n <= q.max
    case Put(_) => |q.contents| < q.max
    case _ => true
  }

  function Step(q: Queue, op: Op): Queue {
    match op
    case Prepare(n, written) => q.(prepared := Cells(n, written))
    case Commit(n) =>
      q.(contents := q.contents + q.prepared[..Min(n, |q.prepared|)], prepared := [])
    case Consume(n) => q.(contents := q.contents[Min(n, |q.contents|)..], prepared := [])
    case Put(c) => q.(contents := q.contents + [Written(c)], prepared := [])
    case Get => if q.contents == [] then q.(prepared := []) else q.(contents := q.contents[1..], prepared := [])
    case Peek => q
  }

  function Char(q: Queue, op: Op): seq<Cell> {
    if (op.Get? || op.Peek?) && q.contents != [] then [q.contents[0]] else []
  }

  function Expect(q: Queue, op: Op): Expected {
    if Fits(q, op) then Expected(true, Char(q, op), Step(q, op).contents)
    else Expected(false, [], [])
  }

  /** All that is seen of a run, up to and including the first failure. */
  function Expectations(q: Queue, ops: seq<Op>): seq<Expected>
    decreases |ops|
  {
    if ops == [] then []
    else
      [Expect(q, ops[0])] +
      if Fits(q, ops[0]) then Expectations(Step(q, ops[0]), ops[1..]) else []
  }

  /** Every operation performed in the run follows the rule. */
  predicate LawfulRun(q: Queue, ops: seq<Op>)
    decreases |ops|
  {
    ops == [] ||
    (Lawful(q, ops[0]) && (Fits(q, ops[0]) ==> LawfulRun(Step(q, ops[0]), ops[1..])))
  }

  /** Every commit of the run covers written bytes only. */
  predicate WrittenRun(q: Queue, ops: seq<Op>)
    decreases |ops|
  {
    ops == [] ||
    (&& (ops[0].Commit? ==> AllWritten(q.prepared[..Min(ops[0].n, |q.prepared|)]))
     && (Fits(q, ops[0]) ==> WrittenRun(Step(q, ops[0]), ops[1..])))
  }

  /** Then nothing indeterminate is ever seen. */
  lemma {:induction false} WrittenRunExpects(q: Queue, ops: seq<Op>, i: nat)
    requires AllWritten(q.contents) && WrittenRun(q, ops) && i < |Expectations(q, ops)|
    ensures var e := Expectations(q, ops)[i]; AllWritten(e.result) && AllWritten(e.contents)
    decreases |ops|
  {
    if i > 0 {
      WrittenRunExpects(Step(q, ops[0]), ops[1..], i - 1);
    }
  }

  lemma FilledAlike(a: seq<byte>, b: seq<byte>, cells: seq<Cell>)
    requires Fills(a, cells) && Fills(b, cells) && AllWritten(cells)
    ensures a == b
  {
  }

  lemma SeenAlike(q: Queue, ops: seq<Op>, a: seq<Observation>, b: seq<Observation>)
    requires AllWritten(q.contents) && WrittenRun(q, ops)
    requires AllMeet(a, Expectations(q, ops)) && AllMeet(b, Expectations(q, ops))
    ensures a == b
  {
    var es := Expectations(q, ops);
    forall i | 0 <= i < |es| ensures a[i] == b[i] {
      WrittenRunExpects(q, ops, i);
      assert Meets(a[i], es[i]) && Meets(b[i], es[i]);
      FilledAlike(a[i].result, b[i].result, es[i].result);
      FilledAlike(a[i].contents, b[i].contents, es[i].contents);
    }
  }

  /** Bytes that went in and out of a run. */
  function Entered(q: Queue, op: Op): seq<Cell> {
    if !Fits(q, op) then []
    else match op
      case Commit(n) => q.prepared[..Min(n, |q.prepared|)]
      case Put(c) => [Written(c)]
      case _ => []
  }

  function Left(q: Queue, op: Op): seq<Cell> {
    match op
    case Consume(n) => q.contents[..Min(n, |q.contents|)]
    case Get => Char(q, op)
    case _ => []
  }

  function AllEntered(q: Queue, ops: seq<Op>): seq<Cell>
    decreases |ops|
  {
    if ops == [] || !Fits(q, ops[0]) then []
    else Entered(q, ops[0]) + AllEntered(Step(q, ops[0]), ops[1..])
  }

  function AllLeft(q: Queue, ops: seq<Op>): seq<Cell>
    decreases |ops|
  {
    if ops == [] || !Fits(q, ops[0]) then []
    else Left(q, ops[0]) + AllLeft(Step(q, ops[0]), ops[1..])
  }

  function Final(q: Queue, ops: seq<Op>): Queue
    decreases |ops|
  {
    if ops == [] || !Fits(q, ops[0]) then q else Final(Step(q, ops[0]), ops[1..])
  }

  lemma StepConserves(q: Queue, op: Op)
    requires Fits(q, op)
    ensures q.contents + Entered(q, op) == Left(q, op) + Step(q, op).contents
  {
  }

  /** First in, first out, nothing lost: what was there and what entered is what
      left and what is there, in order. */
  lemma {:induction false} RunConserves(q: Queue, ops: seq<Op>)
    ensures q.contents + AllEntered(q, ops) == AllLeft(q, ops) + Final(q, ops).contents
    decreases |ops|
  {
    if ops != [] && Fits(q, ops[0]) {
      var r := Step(q, ops[0]);
      StepConserves(q, ops[0]);
      RunConserves(r, ops[1..]);
      ConcatAssoc(q.contents, Entered(q, ops[0]), AllEntered(r, ops[1..]));
      ConcatAssoc(Left(q, ops[0]), r.contents, AllEntered(r, ops[1..]));
      ConcatAssoc(Left(q, ops[0]), AllLeft(r, ops[1..]), Final(r, ops[1..]).contents);
    } else {
      AppendNothing(q.contents);
    }
  }

  /** No run takes the queue over its maximum. */
  predicate Bounded(q: Queue) {
    |q.contents| + |q.prepared| <= q.max
  }

  lemma {:induction false} RunBounded(q: Queue, ops: seq<Op>)
    requires Bounded(q)
    ensures Bounded(Final(q, ops))
    decreases |ops|
  {
    if ops != [] && Fits(q, ops[0]) {
      RunBounded(Step(q, ops[0]), ops[1..]);
    }
  }
}
