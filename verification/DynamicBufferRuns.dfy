/** Whole runs of operations on the dynamic buffers, seen by their callers. */
module DynamicBufferRuns {
  import opened Bytes
  import opened ByteQueue
  import S = StreamBuf
  import D = DynamicBuffer

  /** The queue with which a run starts. */
  function Empty(max: nat): Queue {
    Queue([], max, [])
  }

  // ---------- basic_streambuf ----------

  /** The stream buffer stands for the queue, and what was prepared lies at the put
      pointer. */
  ghost predicate StreamStandsFor(b: S.StreamBuf, q: Queue)
    reads b, b.buffer
  {
    && b.Valid() && b.maxSize == q.max && Fills(b.Contents(), q.contents)
    && |q.prepared| <= b.epptr - b.pptr
    && forall i :: 0 <= i < |q.prepared| && q.prepared[i].Written? ==> b.buffer[b.pptr + i] == q.prepared[i].value
  }

  /** The counts that `pbump` and `gbump` are given fit an `int`. */
  predicate IntSized(q: Queue, op: Op) {
    match op
    case Commit(n) => n <= INT_MAX
    case Consume(n) => Min(n, |q.contents|) <= INT_MAX
    case _ => true
  }

  predicate IntSizedRun(q: Queue, ops: seq<Op>)
    decreases |ops|
  {
    ops == [] || (IntSized(q, ops[0]) && (Fits(q, ops[0]) ==> IntSizedRun(Step(q, ops[0]), ops[1..])))
  }

  method StreamPrepare(b: S.StreamBuf, n: nat, written: seq<byte>, ghost q: Queue) returns (ok: bool)
    requires StreamStandsFor(b, q) && |written| <= n
    modifies b, b.buffer
    ensures ok <==> |q.contents| + n <= q.max
    ensures ok ==> StreamStandsFor(b, Step(q, Prepare(n, written)))
    ensures b.Valid() && (b.buffer == old(b.buffer) || fresh(b.buffer))
  {
    ok := b.Prepare(n);
    if ok {
      b.Fill(written);
    }
  }

  lemma FillsAppend(a: seq<byte>, b: seq<byte>, c: seq<Cell>, d: seq<Cell>)
    requires Fills(a, c) && Fills(b, d)
    ensures Fills(a + b, c + d)
  {
  }

  lemma FillsDrop(a: seq<byte>, c: seq<Cell>, n: nat)
    requires Fills(a, c) && n <= |a|
    ensures Fills(a[n..], c[n..])
  {
  }

  method StreamCommit(b: S.StreamBuf, n: nat, ghost q: Queue)
    requires StreamStandsFor(b, q) && n <= |q.prepared| && n <= INT_MAX
    modifies b
    ensures StreamStandsFor(b, Step(q, Commit(n)))
    ensures b.buffer == old(b.buffer)
  {
    FillsAppend(b.Contents(), b.buffer[b.pptr..b.pptr + n], q.contents, q.prepared[..n]);
    b.Commit(n);
  }

  method StreamConsume(b: S.StreamBuf, n: nat, ghost q: Queue)
    requires StreamStandsFor(b, q) && Min(n, |q.contents|) <= INT_MAX
    modifies b
    ensures StreamStandsFor(b, Step(q, Consume(n)))
    ensures b.buffer == old(b.buffer)
  {
    FillsDrop(b.Contents(), q.contents, Min(n, |q.contents|));
    b.Consume(n);
  }

  method StreamPut(b: S.StreamBuf, c: byte, ghost q: Queue) returns (ok: bool)
    requires StreamStandsFor(b, q)
    modifies b, b.buffer
    ensures ok <==> |q.contents| < q.max
    ensures ok ==> StreamStandsFor(b, Step(q, Put(c)))
    ensures b.buffer == old(b.buffer) || fresh(b.buffer)
  {
    FillsAppend(b.Contents(), [c], q.contents, [Written(c)]);
    ok := b.Put(c);
  }

  method StreamGet(b: S.StreamBuf, ghost q: Queue) returns (c: seq<byte>)
    requires StreamStandsFor(b, q)
    modifies b
    ensures Fills(c, Char(q, Get)) && StreamStandsFor(b, Step(q, Get))
    ensures b.buffer == old(b.buffer)
  {
    if q.contents != [] {
      FillsDrop(b.Contents(), q.contents, 1);
    }
    c := b.Get();
  }

  /** Reading without consuming leaves what was prepared, too. */
  method StreamPeek(b: S.StreamBuf, ghost q: Queue) returns (c: seq<byte>)
    requires StreamStandsFor(b, q)
    modifies b
    ensures Fills(c, Char(q, Peek)) && StreamStandsFor(b, q)
    ensures b.buffer == old(b.buffer)
  {
    c := b.Peek();
  }

  method PerformStream(b: S.StreamBuf, op: Op, ghost q: Queue) returns (o: Observation)
    requires StreamStandsFor(b, q) && Lawful(q, op) && IntSized(q, op)
    modifies b, b.buffer
    ensures Meets(o, Expect(q, op))
    ensures Fits(q, op) ==> StreamStandsFor(b, Step(q, op))
    ensures b.buffer == old(b.buffer) || fresh(b.buffer)
  {
    var ok, result := true, [];
    if op.Prepare? {
      ok := StreamPrepare(b, op.n, op.written, q);
    } else if op.Commit? {
      StreamCommit(b, op.n, q);
    } else if op.Consume? {
      StreamConsume(b, op.n, q);
    } else if op.Put? {
      ok := StreamPut(b, op.c, q);
    } else if op.Get? {
      result := StreamGet(b, q);
    } else {
      result := StreamPeek(b, q);
    }
    if ok {
      o := Observation(true, result, b.Contents());
    } else {
      o := Observation(false, [], []);
    }
  }

  /** Every lawful run of a stream buffer, up to its first failure, shows what the
      bounded queue shows. */
  method RunStream(max: nat, ops: seq<Op>) returns (seen: seq<Observation>)
    requires LawfulRun(Empty(max), ops) && IntSizedRun(Empty(max), ops)
    ensures AllMeet(seen, Expectations(Empty(max), ops))
  {
    var b := new S.StreamBuf(max);
    ghost var q, done := Empty(max), [];
    seen := [];
    var i := 0;
    while i < |ops|
      invariant i <= |ops| && fresh(b) && fresh(b.buffer) && StreamStandsFor(b, q)
      invariant LawfulRun(q, ops[i..]) && IntSizedRun(q, ops[i..]) && AllMeet(seen, done)
      invariant Expectations(Empty(max), ops) == done + Expectations(q, ops[i..])
    {
      UnfoldRun(q, ops, i, done);
      var o := PerformStream(b, ops[i], q);
      MeetOneMore(seen, o, done, Expect(q, ops[i]));
      seen, done := seen + [o], done + [Expect(q, ops[i])];
      if !o.ok {
        AppendNothing(done);
        return;
      }
      q := Step(q, ops[i]);
      i := i + 1;
    }
    AppendNothing(done);
  }

  lemma MeetOneMore(seen: seq<Observation>, o: Observation, done: seq<Expected>, e: Expected)
    requires AllMeet(seen, done) && Meets(o, e)
    ensures AllMeet(seen + [o], done + [e])
  {
  }

  /** The first operation of the rest of a run. */
  lemma UnfoldRun(q: Queue, ops: seq<Op>, i: nat, done: seq<Expected>)
    requires i < |ops|
    ensures LawfulRun(q, ops[i..]) ==>
              Lawful(q, ops[i]) && (Fits(q, ops[i]) ==> LawfulRun(Step(q, ops[i]), ops[i + 1..]))
    ensures IntSizedRun(q, ops[i..]) ==>
              IntSized(q, ops[i]) && (Fits(q, ops[i]) ==> IntSizedRun(Step(q, ops[i]), ops[i + 1..]))
    ensures done + Expectations(q, ops[i..]) ==
            done + [Expect(q, ops[i])]
            + if Fits(q, ops[i]) then Expectations(Step(q, ops[i]), ops[i + 1..]) else []
  {
    assert ops[i..][1..] == ops[i + 1..];
  }

  // ---------- dynamic_string_buffer and dynamic_vector_buffer ----------

  ghost predicate DynamicStandsFor(b: D.DynamicBuffer, q: Queue)
    reads b
  {
    && b.Valid() && b.maxSize == q.max && Fills(b.Contents(), q.contents)
    && |q.prepared| <= |b.store| - b.size
    && forall i :: 0 <= i < |q.prepared| && q.prepared[i].Written? ==> b.store[b.size + i] == q.prepared[i].value
  }

  predicate Common(op: Op) {
    op.Prepare? || op.Commit? || op.Consume?
  }

  predicate AllCommon(ops: seq<Op>) {
    forall i :: 0 <= i < |ops| ==> Common(ops[i])
  }

  method DynamicCommit(b: D.DynamicBuffer, n: nat, ghost q: Queue)
    requires DynamicStandsFor(b, q) && n <= |q.prepared|
    modifies b
    ensures DynamicStandsFor(b, Step(q, Commit(n)))
  {
    FillsAppend(b.Contents(), b.store[b.size..b.size + n], q.contents, q.prepared[..n]);
    b.Commit(n);
  }

  method PerformDynamic(b: D.DynamicBuffer, op: Op, ghost q: Queue) returns (o: Observation)
    requires DynamicStandsFor(b, q) && Lawful(q, op) && Common(op)
    modifies b
    ensures Meets(o, Expect(q, op))
    ensures Fits(q, op) ==> DynamicStandsFor(b, Step(q, op))
  {
    var ok := true;
    if op.Prepare? {
      ok := b.Prepare(op.n);
      if ok {
        b.Fill(op.written);
      }
    } else if op.Commit? {
      DynamicCommit(b, op.n, q);
    } else {
      FillsDrop(b.Contents(), q.contents, Min(op.n, |q.contents|));
      b.Consume(op.n);
    }
    if ok {
      o := Observation(true, [], b.Contents());
    } else {
      o := Observation(false, [], []);
    }
  }

  /** Every lawful run of a string or vector buffer, up to its first failure, shows
      what the bounded queue shows. */
  method RunDynamic(max: nat, ops: seq<Op>) returns (seen: seq<Observation>)
    requires LawfulRun(Empty(max), ops) && AllCommon(ops)
    ensures AllMeet(seen, Expectations(Empty(max), ops))
  {
    var b := new D.DynamicBuffer([], max);
    ghost var q, done := Empty(max), [];
    seen := [];
    var i := 0;
    while i < |ops|
      invariant i <= |ops| && fresh(b) && DynamicStandsFor(b, q)
      invariant LawfulRun(q, ops[i..]) && AllMeet(seen, done)
      invariant Expectations(Empty(max), ops) == done + Expectations(q, ops[i..])
    {
      UnfoldRun(q, ops, i, done);
      var o := PerformDynamic(b, ops[i], q);
      MeetOneMore(seen, o, done, Expect(q, ops[i]));
      seen, done := seen + [o], done + [Expect(q, ops[i])];
      if !o.ok {
        AppendNothing(done);
        return;
      }
      q := Step(q, ops[i]);
      i := i + 1;
    }
    AppendNothing(done);
  }

  /** Started empty with one maximum and given one lawful run, the stream buffer and
      the string or vector buffer fail at the same call, have the same sizes and
      agree on every byte that was written; if only written bytes are committed
      they show their caller the same. */
  method SameObservations(max: nat, ops: seq<Op>) returns (stream: seq<Observation>, dynamic: seq<Observation>)
    requires LawfulRun(Empty(max), ops) && IntSizedRun(Empty(max), ops) && AllCommon(ops)
    ensures AllMeet(stream, Expectations(Empty(max), ops)) && AllMeet(dynamic, Expectations(Empty(max), ops))
    ensures |stream| == |dynamic|
    ensures forall i :: 0 <= i < |stream| ==>
              stream[i].ok == dynamic[i].ok && |stream[i].contents| == |dynamic[i].contents|
    ensures WrittenRun(Empty(max), ops) ==> stream == dynamic
  {
    stream := RunStream(max, ops);
    dynamic := RunDynamic(max, ops);
    ghost var es := Expectations(Empty(max), ops);
    forall i | 0 <= i < |stream|
      ensures stream[i].ok == dynamic[i].ok && |stream[i].contents| == |dynamic[i].contents|
    {
      assert Meets(stream[i], es[i]) && Meets(dynamic[i], es[i]);
    }
    if WrittenRun(Empty(max), ops) {
      SeenAlike(Empty(max), ops, stream, dynamic);
    }
  }

  /** `prepare` of what `read_size_helper` suggests never fails. */
  method PrepareSuggested(b: S.StreamBuf, capacity: nat, limit: nat) returns (n: nat, ok: bool)
    requires b.Valid() && capacity >= b.buffer.Length
    modifies b, b.buffer
    ensures ok && b.Valid() && b.Contents() == old(b.Contents()) && n <= b.epptr - b.pptr
    ensures old(b.Readable(capacity, limit, n))
    ensures n == 0 <==> limit == 0 || old(b.Size()) == b.maxSize
  {
    n := b.ReadSizeHelper(capacity, limit);
    ok := b.Prepare(n);
  }
}
