/** `packet::writer` and `packet::reader`: length-prefixed packets nested inside
    one byte buffer, with a placeholder for the length of a packet still open. */
module Packets {
  import opened Bytes
  import opened ReactorBuffer
  import opened Framing

  /** `uint32(-1)`, the length of a packet that has not been flushed. */
  const UNFLUSHED: uint32 := TWO_TO_THE_32 - 1

  function Truncate(n: nat): uint32 {
    n % TWO_TO_THE_32
  }

  class Writer {
    const buffer: ByteBuffer
    const parent: Writer?
    var head: uint32
    var length: uint32

    /** The writer is open and its packet is the last thing in the buffer. */
    ghost predicate AtBack()
      reads this, buffer
    {
      && |buffer.contents| < TWO_TO_THE_32
      && head + HEADER + length == |buffer.contents|
      && buffer.contents[head..head + HEADER] == Encode32(UNFLUSHED)
    }

    constructor Root(buffer: ByteBuffer)
      modifies buffer
      ensures this.buffer == buffer && parent == null && length == 0
      ensures head == Truncate(|old(buffer.contents)|)
      ensures buffer.contents == old(buffer.contents) + Encode32(UNFLUSHED)
      ensures buffer.done == old(buffer.done) + [Append(Encode32(UNFLUSHED))]
    {
      this.buffer := buffer;
      parent := null;
      head := Truncate(buffer.Count());
      length := 0;
      new;
      buffer.Append(Encode32(UNFLUSHED));
    }

    constructor Nested(parent: Writer)
      modifies parent.buffer
      ensures this.buffer == parent.buffer && this.parent == parent && length == 0
      ensures head == Truncate(parent.head + parent.length + HEADER)
      ensures buffer.contents == old(parent.buffer.contents) + Encode32(UNFLUSHED)
      ensures buffer.done == old(parent.buffer.done) + [Append(Encode32(UNFLUSHED))]
    {
      this.buffer := parent.buffer;
      this.parent := parent;
      head := Truncate(parent.head + parent.length + HEADER);
      length := 0;
      new;
      parent.buffer.Append(Encode32(UNFLUSHED));
    }

    method Put(s: seq<byte>)
      modifies this`length, buffer
      ensures buffer.contents == old(buffer.contents) + s
      ensures buffer.done == old(buffer.done) + [Append(s)]
      ensures length == Truncate(old(length) + |s|)
    {
      var before := buffer.Count();
      buffer.Append(s);
      length := Truncate(length + (buffer.Count() - before));
    }

    /** `writer << reader`: the length grows by what was asked for, even where the
        buffer had less to give. */
    method PutReader(reader: Reader)
      requires reader.buffer != buffer && reader.tail <= |reader.buffer.contents|
      modifies this`length, buffer
      ensures buffer.contents == old(buffer.contents) + reader.Forwarded()
      ensures length == Truncate(old(length) + reader.ForwardLength())
    {
      var count := reader.ForwardLength();
      buffer.AppendRange(reader.buffer, reader.tail, count);
      length := Truncate(length + count);
    }

    method Flush()
      requires buffer.Covers(head, HEADER) && parent != this
      modifies buffer, (if parent == null then {} else {parent})`length
      ensures buffer.contents == old(buffer.contents)[..head] + Encode32(length) + old(buffer.contents)[head + HEADER..]
      ensures buffer.done == old(buffer.done) + [Overwrite(Encode32(length), head)]
      ensures parent != null ==> parent.length == Truncate(old(parent.length) + length + HEADER)
    {
      buffer.Overwrite(head, Encode32(length));
      if parent != null {
        parent.length := Truncate(parent.length + length + HEADER);
      }
    }

    /** The destructor: a packet never flushed is taken back. */
    method Destroy()
      requires |buffer.contents| > head ==>
                 && buffer.Covers(head, HEADER)
                 && (buffer.Read(head, HEADER) == Encode32(UNFLUSHED) ==>
                     Truncate(HEADER + length) <= |buffer.contents|)
      modifies buffer
      ensures buffer.contents ==
              if |old(buffer.contents)| > head && old(buffer.Read(head, HEADER)) == Encode32(UNFLUSHED)
              then old(buffer.contents)[..|old(buffer.contents)| - Truncate(HEADER + length)]
              else old(buffer.contents)
      ensures buffer.done ==
              if |old(buffer.contents)| > head && old(buffer.Read(head, HEADER)) == Encode32(UNFLUSHED)
              then old(buffer.done) + [RemoveFromBack(HEADER + length)]
              else old(buffer.done)
    {
      if buffer.Count() > head {
        var written := Decode32(buffer.Read(head, HEADER));
        EncodeDecode32(buffer.Read(head, HEADER));
        DecodeEncode32(UNFLUSHED);
        if written == UNFLUSHED {
          buffer.RemoveFromBack(HEADER + length);
        }
      }
    }
  }

  class Reader {
    const buffer: ByteBuffer
    var head: uint32
    var tail: uint32
    var length: uint32

    /** The frame at `head` lies inside the buffer and its header is `length`. */
    ghost predicate OnFrame()
      reads this, buffer
    {
      && head + HEADER + length <= |buffer.contents| < TWO_TO_THE_32
      && Decode32(buffer.Read(head, HEADER)) == length
    }

    constructor At(buffer: ByteBuffer, start: uint32)
      requires buffer.Covers(start, HEADER)
      ensures this.buffer == buffer && head == start && tail == Truncate(start + HEADER)
      ensures length == Decode32(buffer.Read(start, HEADER))
    {
      this.buffer := buffer;
      head := start;
      tail := Truncate(start + HEADER);
      length := Decode32(buffer.Read(start, HEADER));
    }

    /** `operator>>` for a value of `count` bytes: the read is at an offset, so the
        count of the buffer does not change and neither does `tail`. */
    method Extract(count: nat) returns (s: seq<byte>)
      requires buffer.Covers(tail, count)
      modifies this`tail
      ensures tail == old(tail) && s == buffer.Read(tail, count)
    {
      var before := buffer.Count();
      s := buffer.Read(tail, count);
      tail := Truncate(tail + (buffer.Count() - before));
    }

    /** The number of bytes `writer << reader` asks for, computed in `size_t`. */
    function ForwardLength(): nat
      reads this
    {
      (length + HEADER - tail) % TWO_TO_THE_64
    }

    /** The bytes that `writer << reader` copies. */
    function Forwarded(): seq<byte>
      requires tail <= |buffer.contents|
      reads this, buffer
    {
      buffer.Available(tail, ForwardLength())
    }

    /** The bytes of the frame not read yet. */
    ghost function Unread(): seq<byte>
      requires OnFrame() && head + HEADER <= tail <= head + HEADER + length
      reads this, buffer
    {
      buffer.contents[tail..head + HEADER + length]
    }
  }

  /** `reader(buffer)`; null where the read of the length throws. */
  method OpenReader(buffer: ByteBuffer) returns (r: Reader?)
    ensures r == null <==> |buffer.contents| < HEADER
    ensures r != null ==>
              && fresh(r) && r.buffer == buffer && r.head == 0 && r.tail == HEADER
              && r.length == Decode32(buffer.contents[..HEADER])
  {
    r := null;
    if buffer.Covers(0, HEADER) {
      r := new Reader.At(buffer, 0);
    }
  }

  /** `reader(reader&)`: a reader on the next sub-packet; the outer reader steps
      over it.  Null, and the outer reader untouched, where the read throws. */
  method OpenNested(outer: Reader) returns (r: Reader?)
    modifies outer`tail
    ensures r == null <==> !outer.buffer.Covers(old(outer.tail), HEADER)
    ensures r == null ==> outer.tail == old(outer.tail)
    ensures r != null ==>
              && fresh(r) && r.buffer == outer.buffer && r.head == old(outer.tail)
              && r.tail == Truncate(r.head + HEADER)
              && r.length == Decode32(outer.buffer.Read(r.head, HEADER))
              && outer.tail == Truncate(old(outer.tail) + r.length + HEADER)
  {
    r := null;
    if outer.buffer.Covers(outer.tail, HEADER) {
      r := new Reader.At(outer.buffer, outer.tail);
      outer.tail := Truncate(outer.tail + r.length + HEADER);
    }
  }

  // ---------- programs over nested writers ----------

  /** What a handler does with an open writer: put bytes, or run a nested writer
      and then flush it (`kept`) or abandon it. */
  datatype Op = Put(bytes: seq<byte>) | Child(ops: seq<Op>, kept: bool)

  /** What a finished packet leaves in the buffer. */
  function Packed(body: seq<byte>, kept: bool): seq<byte> {
    if kept then Frame(body) else []
  }

  /** The bytes an operation leaves in the enclosing packet. */
  function Image(op: Op): seq<byte>
    decreases op
  {
    match op
    case Put(s) => s
    case Child(ops, kept) => Packed(Body(ops), kept)
  }

  function Body(ops: seq<Op>): seq<byte>
    decreases ops
  {
    if ops == [] then [] else Image(ops[0]) + Body(ops[1..])
  }

  /** The operations that a program performs on a buffer of `start` bytes: a nested
      writer appends a placeholder, and in the end overwrites it or takes it back. */
  function Steps(start: nat, ops: seq<Op>): seq<Action>
    decreases ops, 0
  {
    if ops == [] then []
    else StepsOf(start, ops[0]) + Steps(start + |Image(ops[0])|, ops[1..])
  }

  function StepsOf(start: nat, op: Op): seq<Action>
    decreases op, 1
  {
    match op
    case Put(bytes) => [Append(bytes)]
    case Child(inner, kept) => ChildSteps(start, inner, kept)
  }

  function ChildSteps(start: nat, inner: seq<Op>, kept: bool): seq<Action>
    decreases inner, 1
  {
    [Append(Encode32(UNFLUSHED))] + Steps(start + HEADER, inner) + [Finish(start, |Body(inner)|, kept)]
  }

  /** `flush` at the head of the packet, or its destructor. */
  function Finish(start: nat, length: nat, kept: bool): Action {
    if kept then Overwrite(Encode32(length), start) else RemoveFromBack(HEADER + length)
  }

  /** All bytes ever appended, abandoned ones included. */
  function OpVolume(op: Op): nat
    decreases op
  {
    match op
    case Put(s) => |s|
    case Child(inner, _) => HEADER + Volume(inner)
  }

  function Volume(ops: seq<Op>): nat
    decreases ops
  {
    if ops == [] then 0 else OpVolume(ops[0]) + Volume(ops[1..])
  }

  lemma {:induction false} BodyFits(ops: seq<Op>)
    ensures |Body(ops)| <= Volume(ops)
    ensures ops != [] ==> |Image(ops[0])| <= OpVolume(ops[0])
    decreases ops
  {
    if ops != [] {
      BodyFits(ops[1..]);
      if ops[0].Child? {
        BodyFits(ops[0].ops);
      }
    }
  }

  /** Whatever is put, flushed and abandoned inside an open writer, the buffer
      gains exactly the bytes kept and the writer's length stays exact. */
  method Write(w: Writer, ops: seq<Op>)
    requires w.AtBack() && |w.buffer.contents| + Volume(ops) < TWO_TO_THE_32
    modifies w`length, w.buffer
    ensures w.AtBack()
    ensures w.buffer.contents == old(w.buffer.contents) + Body(ops)
    ensures w.buffer.done == old(w.buffer.done) + Steps(|old(w.buffer.contents)|, ops)
    decreases ops, 0
  {
    if ops != [] {
      BodyFits(ops);
      WriteOne(w, ops[0]);
      Write(w, ops[1..]);
      ConcatAssoc(old(w.buffer.contents), Image(ops[0]), Body(ops[1..]));
      var start := |old(w.buffer.contents)|;
      ConcatAssoc(old(w.buffer.done), StepsOf(start, ops[0]), Steps(start + |Image(ops[0])|, ops[1..]));
    } else {
      AppendNothing(w.buffer.contents);
      AppendNothing(w.buffer.done);
    }
  }

  method WriteOne(w: Writer, op: Op)
    requires w.AtBack() && |w.buffer.contents| + OpVolume(op) < TWO_TO_THE_32
    modifies w`length, w.buffer
    ensures w.AtBack()
    ensures w.buffer.contents == old(w.buffer.contents) + Image(op)
    ensures w.buffer.done == old(w.buffer.done) + StepsOf(|old(w.buffer.contents)|, op)
    decreases op, 0
  {
    if op.Put? {
      SliceOfPrefix(w.buffer.contents, op.bytes, w.head, w.head + HEADER);
      w.Put(op.bytes);
    } else {
      WriteChild(w, op.ops, op.kept);
    }
  }

  method WriteChild(w: Writer, inner: seq<Op>, kept: bool)
    requires w.AtBack() && |w.buffer.contents| + HEADER + Volume(inner) < TWO_TO_THE_32
    modifies w`length, w.buffer
    ensures w.AtBack()
    ensures w.buffer.contents == old(w.buffer.contents) + Packed(Body(inner), kept)
    ensures !kept ==> w.buffer.contents == old(w.buffer.contents) && w.length == old(w.length)
    ensures w.buffer.done == old(w.buffer.done) + ChildSteps(|old(w.buffer.contents)|, inner, kept)
    decreases inner, 1
  {
    BodyFits(inner);
    ghost var before := w.buffer.contents;
    var c := new Writer.Nested(w);
    JustOpened(before);
    Write(c, inner);
    FinishBody(c, kept, before, Body(inner));
    ThreeParts(old(w.buffer.done), [Append(Encode32(UNFLUSHED))], Steps(|before| + HEADER, inner),
               [Finish(|before|, |Body(inner)|, kept)]);
    SliceOfPrefix(before, Packed(Body(inner), kept), w.head, w.head + HEADER);
    AppendNothing(before);
  }

  lemma ThreeParts<T>(s: seq<T>, a: seq<T>, b: seq<T>, c: seq<T>)
    ensures s + a + b + c == s + (a + b + c)
  {
  }

  lemma JustOpened(before: seq<byte>)
    ensures (before + Encode32(UNFLUSHED))[|before|..|before| + HEADER] == Encode32(UNFLUSHED)
  {
  }

  lemma FrameInPlace(before: seq<byte>, header: seq<byte>, body: seq<byte>)
    requires |header| == HEADER
    ensures (before + header + body)[..|before|] == before
    ensures (before + header + body)[|before|..|before| + HEADER] == header
    ensures (before + header + body)[|before| + HEADER..] == body
  {
  }

  /** Flush or not, then destroy: a writer that wrote `body` after `before`. */
  method FinishBody(w: Writer, kept: bool, ghost before: seq<byte>, ghost body: seq<byte>)
    requires w.AtBack() && w.parent != w && w.head == |before| && w.length == |body| != UNFLUSHED
    requires w.buffer.contents == before + Encode32(UNFLUSHED) + body
    modifies w.buffer, (if w.parent == null then {} else {w.parent})`length
    ensures w.buffer.contents == before + Packed(body, kept)
    ensures w.parent != null ==>
              w.parent.length == if kept then Truncate(old(w.parent.length) + |body| + HEADER)
                                 else old(w.parent.length)
    ensures w.buffer.done == old(w.buffer.done) + [Finish(|before|, |body|, kept)]
  {
    if kept {
      FlushAndDestroy(w, before, body);
    } else {
      FrameInPlace(before, Encode32(UNFLUSHED), body);
      w.Destroy();
      AppendNothing(before);
    }
  }

  /** After a flush the destructor finds another length and leaves the frame. */
  method FlushAndDestroy(w: Writer, ghost before: seq<byte>, ghost body: seq<byte>)
    requires w.AtBack() && w.parent != w && w.head == |before| && w.length == |body| != UNFLUSHED
    requires w.buffer.contents == before + Encode32(UNFLUSHED) + body
    modifies w.buffer, (if w.parent == null then {} else {w.parent})`length
    ensures w.buffer.contents == before + Frame(body)
    ensures w.buffer.done == old(w.buffer.done) + [Finish(|before|, |body|, true)]
    ensures w.parent != null ==> w.parent.length == Truncate(old(w.parent.length) + |body| + HEADER)
  {
    FrameInPlace(before, Encode32(UNFLUSHED), body);
    w.Flush();
    FrameInPlace(before, Encode32(|body|), body);
    OtherHeader(|body|);
    w.Destroy();
    ConcatAssoc(before, Encode32(|body|), body);
  }

  lemma OtherHeader(n: uint32)
    requires n != UNFLUSHED
    ensures Encode32(n) != Encode32(UNFLUSHED)
  {
    DecodeEncode32(n);
    DecodeEncode32(UNFLUSHED);
  }

  method OpenWriter(buffer: ByteBuffer) returns (w: Writer)
    requires |buffer.contents| + HEADER < TWO_TO_THE_32
    modifies buffer
    ensures fresh(w) && w.buffer == buffer && w.parent == null
    ensures w.AtBack() && w.head == |old(buffer.contents)| && w.length == 0
    ensures buffer.contents == old(buffer.contents) + Encode32(UNFLUSHED)
    ensures buffer.done == old(buffer.done) + [Append(Encode32(UNFLUSHED))]
  {
    JustOpened(buffer.contents);
    w := new Writer.Root(buffer);
  }

  /** A whole top-level packet.  Kept, it is one frame around its body; not kept,
      the buffer is as if it had never been opened. */
  method WritePacket(buffer: ByteBuffer, ops: seq<Op>, kept: bool)
    requires |buffer.contents| + HEADER + Volume(ops) < TWO_TO_THE_32
    modifies buffer
    ensures buffer.contents == old(buffer.contents) + Packed(Body(ops), kept)
    ensures !kept ==> buffer.contents == old(buffer.contents)
    ensures buffer.done == old(buffer.done) + ChildSteps(|old(buffer.contents)|, ops, kept)
  {
    BodyFits(ops);
    var w := OpenWriter(buffer);
    Write(w, ops);
    FinishBody(w, kept, old(buffer.contents), Body(ops));
    ThreeParts(old(buffer.done), [Append(Encode32(UNFLUSHED))], Steps(|old(buffer.contents)| + HEADER, ops),
               [Finish(|old(buffer.contents)|, |Body(ops)|, kept)]);
    AppendNothing(old(buffer.contents));
  }

  /** The program without its abandoned children, at every depth. */
  function Pruned(ops: seq<Op>): seq<Op>
    decreases ops
  {
    if ops == [] then []
    else
      (match ops[0]
       case Put(s) => [Put(s)]
       case Child(inner, kept) => if kept then [Child(Pruned(inner), true)] else [])
      + Pruned(ops[1..])
  }

  lemma BodyConcat(a: seq<Op>, b: seq<Op>)
    ensures Body(a + b) == Body(a) + Body(b)
    decreases |a|
  {
    if a == [] {
      assert a + b == b;
    } else {
      assert (a + b)[0] == a[0] && (a + b)[1..] == a[1..] + b;
      BodyConcat(a[1..], b);
    }
  }

  lemma BodyOne(op: Op)
    ensures Body([op]) == Image(op)
  {
    assert [op][1..] == [];
    assert Body([op]) == Image(op) + Body([]);
  }

  /** Abandoned writers leave no trace, wherever they were opened. */
  lemma {:induction false} AbandonedLeaveNoTrace(ops: seq<Op>)
    ensures Body(Pruned(ops)) == Body(ops)
    decreases ops
  {
    if ops != [] {
      AbandonedLeaveNoTrace(ops[1..]);
      var tail := Pruned(ops[1..]);
      if ops[0].Put? {
        BodyConcat([ops[0]], tail);
        BodyOne(ops[0]);
      } else if ops[0].kept {
        AbandonedLeaveNoTrace(ops[0].ops);
        var child := Child(Pruned(ops[0].ops), true);
        BodyConcat([child], tail);
        BodyOne(child);
      } else {
        assert Pruned(ops) == tail;
      }
    }
  }
}
