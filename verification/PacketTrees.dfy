/** Trees of nested packets, written with nested writers and walked with nested
    readers, and the forwarding of a partly read packet. */
module PacketTrees {
  import opened Bytes
  import opened ReactorBuffer
  import opened Packets
  import opened Framing

  datatype Tree = Leaf(bytes: seq<byte>) | Node(children: seq<Tree>)

  /** What the receiving program knows of a packet beforehand: whether it holds
      bytes or sub-packets. */
  datatype Shape = Raw | Compound(parts: seq<Shape>)

  function ShapeOf(t: Tree): Shape
    decreases t
  {
    match t
    case Leaf(_) => Raw
    case Node(children) => Compound(seq(|children|, i requires 0 <= i < |children| => ShapeOf(children[i])))
  }

  /** The writer program for the inside of a tree's packet. */
  function TreeOps(t: Tree): seq<Op>
    decreases t
  {
    match t
    case Leaf(s) => [Put(s)]
    case Node(children) => ForestOps(children)
  }

  function ForestOps(ts: seq<Tree>): seq<Op>
    decreases ts
  {
    if ts == [] then [] else [Child(TreeOps(ts[0]), true)] + ForestOps(ts[1..])
  }

  function Inside(t: Tree): seq<byte> {
    Body(TreeOps(t))
  }

  lemma LeafInside(s: seq<byte>)
    ensures Inside(Leaf(s)) == s
  {
    assert [Put(s)][1..] == [];
    assert Body([Put(s)]) == s + Body([]);
  }

  /** The packets of a forest stand one after the other. */
  lemma ForestInside(ts: seq<Tree>)
    requires ts != []
    ensures Body(ForestOps(ts))
            == Frame(Inside(ts[0])) + Body(ForestOps(ts[1..]))
  {
    var ops := ForestOps(ts);
    assert ops[0] == Child(TreeOps(ts[0]), true) && ops[1..] == ForestOps(ts[1..]);
  }

  lemma {:induction false} TreeVolume(t: Tree)
    ensures Volume(TreeOps(t)) == |Inside(t)|
    decreases t
  {
    match t
    case Leaf(s) => LeafInside(s); assert [Put(s)][1..] == [];
    case Node(children) => ForestVolume(children);
  }

  lemma {:induction false} ForestVolume(ts: seq<Tree>)
    ensures Volume(ForestOps(ts)) == |Body(ForestOps(ts))|
    decreases ts
  {
    if ts != [] {
      TreeVolume(ts[0]);
      ForestVolume(ts[1..]);
      ForestInside(ts);
      assert ForestOps(ts)[1..] == ForestOps(ts[1..]);
    }
  }

  ghost predicate Holds(contents: seq<byte>, start: nat, s: seq<byte>) {
    start + |s| <= |contents| && contents[start..start + |s|] == s
  }

  lemma HoldsSplit(contents: seq<byte>, start: nat, a: seq<byte>, b: seq<byte>)
    requires Holds(contents, start, a + b)
    ensures Holds(contents, start, a) && Holds(contents, start + |a|, b)
  {
    var end := start + |a| + |b|;
    SliceOfSlice(contents, start, end, 0, |a|);
    SliceOfSlice(contents, start, end, |a|, |a| + |b|);
    assert (a + b)[0..|a|] == a && (a + b)[|a|..|a| + |b|] == b;
  }

  /** One frame and what follows it, found in a buffer. */
  lemma HoldsFrame(contents: seq<byte>, start: nat, body: seq<byte>, rest: seq<byte>)
    requires |body| < TWO_TO_THE_32
    requires Holds(contents, start, Frame(body) + rest)
    ensures start + HEADER <= |contents| && Decode32(contents[start..start + HEADER]) == |body|
    ensures Holds(contents, start + HEADER, body)
    ensures Holds(contents, start + HEADER + |body|, rest)
  {
    HoldsSplit(contents, start, Frame(body), rest);
    HoldsSplit(contents, start, Encode32(|body|), body);
    DecodeEncode32(|body|);
  }

  /** The reader has just been opened on a packet that holds `t`. */
  ghost predicate OpenedOn(r: Reader, t: Tree)
    reads r, r.buffer
  {
    && |r.buffer.contents| < TWO_TO_THE_32
    && r.tail == r.head + HEADER
    && r.length == |Inside(t)|
    && Holds(r.buffer.contents, r.tail, Inside(t))
  }

  /** Walking a packet with nested readers gives back the tree that was written,
      and the reader of a compound packet ends exactly at the end of its frame. */
  method Walk(r: Reader, shape: Shape, ghost t: Tree) returns (u: Tree)
    requires shape == ShapeOf(t) && OpenedOn(r, t)
    modifies r`tail
    ensures u == t
    ensures shape.Compound? ==> r.tail == r.head + HEADER + r.length
    decreases shape, 0
  {
    if shape.Raw? {
      LeafInside(t.bytes);
      var s := r.Extract(r.length);
      return Leaf(s);
    }
    ghost var ts := t.children;
    var end := r.head + HEADER + r.length;
    var i, us := 0, [];
    while r.tail < end
      invariant i <= |ts| && us == ts[..i]
      invariant Holds(r.buffer.contents, r.tail, Body(ForestOps(ts[i..])))
      invariant r.tail + |Body(ForestOps(ts[i..]))| == end
      decreases |ts| - i
    {
      assert ts[i..] != [] && ts[i..][1..] == ts[i + 1..];
      ForestInside(ts[i..]);
      var child := WalkNext(r, shape.parts[i], ts[i], Body(ForestOps(ts[i + 1..])));
      us := us + [child];
      i := i + 1;
    }
    assert i == |ts| by {
      if i < |ts| {
        ForestInside(ts[i..]);
      }
    }
    return Node(us);
  }

  /** Opening the next sub-packet, walking it, and stepping over it. */
  method WalkNext(r: Reader, shape: Shape, ghost t: Tree, ghost rest: seq<byte>) returns (u: Tree)
    requires shape == ShapeOf(t) && |r.buffer.contents| < TWO_TO_THE_32
    requires Holds(r.buffer.contents, r.tail, Frame(Inside(t)) + rest)
    modifies r`tail
    ensures u == t
    ensures r.tail == old(r.tail) + HEADER + |Inside(t)| && Holds(r.buffer.contents, r.tail, rest)
    decreases shape, 1
  {
    HoldsFrame(r.buffer.contents, r.tail, Inside(t), rest);
    var c := OpenNested(r);
    u := Walk(c, shape, t);
  }

  /** Writing a tree and reading it back, through the buffer. */
  method WriteThenWalk(buffer: ByteBuffer, t: Tree) returns (u: Tree)
    requires buffer.contents == [] && HEADER + |Inside(t)| < TWO_TO_THE_32
    modifies buffer
    ensures u == t
  {
    TreeVolume(t);
    WritePacket(buffer, TreeOps(t), true);
    ghost var header := Encode32(|Inside(t)|);
    assert buffer.contents == header + Inside(t);
    assert buffer.contents[..HEADER] == header && buffer.contents[HEADER..] == Inside(t);
    DecodeEncode32(|Inside(t)|);
    var r := OpenReader(buffer);
    u := Walk(r, ShapeOf(t), t);
  }

  lemma FirstFrameDetermined(a: seq<byte>, p: seq<byte>, b: seq<byte>, q: seq<byte>)
    requires |a| < TWO_TO_THE_32 && |b| < TWO_TO_THE_32
    requires Frame(a) + p == Frame(b) + q
    ensures a == b && p == q
  {
    ConcatAssoc(Encode32(|a|), a, p);
    ConcatAssoc(Encode32(|b|), b, q);
    ConcatCancel(Encode32(|a|), a + p, Encode32(|b|), b + q);
    DecodeEncode32(|a|);
    DecodeEncode32(|b|);
    ConcatCancel(a, p, b, q);
  }

  /** Two trees of one shape with the same bytes are the same tree. */
  lemma {:induction false} BytesDetermineTree(t: Tree, u: Tree)
    requires ShapeOf(t) == ShapeOf(u) && Inside(t) == Inside(u)
    requires |Inside(t)| < TWO_TO_THE_32
    ensures t == u
    decreases t
  {
    if t.Leaf? {
      LeafInside(t.bytes);
      LeafInside(u.bytes);
    } else {
      forall i | 0 <= i < |t.children| ensures ShapeOf(t.children[i]) == ShapeOf(u.children[i]) {
        assert ShapeOf(t).parts[i] == ShapeOf(u).parts[i];
      }
      BytesDetermineForest(t.children, u.children);
    }
  }

  lemma {:induction false} BytesDetermineForest(ts: seq<Tree>, us: seq<Tree>)
    requires |ts| == |us|
    requires forall i :: 0 <= i < |ts| ==> ShapeOf(ts[i]) == ShapeOf(us[i])
    requires Body(ForestOps(ts)) == Body(ForestOps(us)) && |Body(ForestOps(ts))| < TWO_TO_THE_32
    ensures ts == us
    decreases ts
  {
    if ts != [] {
      FirstPacketsAgree(ts, us);
      BytesDetermineTree(ts[0], us[0]);
      BytesDetermineForest(ts[1..], us[1..]);
      assert ts == [ts[0]] + ts[1..] && us == [us[0]] + us[1..];
    }
  }

  lemma FirstPacketsAgree(ts: seq<Tree>, us: seq<Tree>)
    requires ts != [] && us != []
    requires Body(ForestOps(ts)) == Body(ForestOps(us)) && |Body(ForestOps(ts))| < TWO_TO_THE_32
    ensures Inside(ts[0]) == Inside(us[0]) && |Inside(ts[0])| < TWO_TO_THE_32
    ensures Body(ForestOps(ts[1..])) == Body(ForestOps(us[1..]))
    ensures |Body(ForestOps(ts[1..]))| < TWO_TO_THE_32
  {
    ForestInside(ts);
    ForestInside(us);
    FirstFrameDetermined(Inside(ts[0]), Body(ForestOps(ts[1..])), Inside(us[0]), Body(ForestOps(us[1..])));
  }

  // ---------- values ----------

  /** Two values written one after the other: `>>` reads at an offset, which
      consumes nothing, so the second `>>` starts again at the first value and is
      right exactly when the second value is how the two begin. */
  method ExtractTwo(r: Reader, ghost a: seq<byte>, ghost b: seq<byte>, m: nat, n: nat)
    returns (x: seq<byte>, y: seq<byte>)
    requires |a| == m && |b| == n && Holds(r.buffer.contents, r.tail, a + b)
    modifies r`tail
    ensures x == a && y == (a + b)[..n] && (y == b <==> b <= a + b)
  {
    HoldsSplit(r.buffer.contents, r.tail, a, b);
    x := r.Extract(m);
    y := r.Extract(n);
    SliceOfSlice(r.buffer.contents, r.tail, r.tail + m + n, 0, n);
  }

  // ---------- forwarding ----------

  /** A reader inside the frame it was opened on, wherever that frame starts. */
  ghost predicate Reading(r: Reader)
    reads r, r.buffer
  {
    r.OnFrame() && r.head + HEADER <= r.tail <= r.head + HEADER + r.length
  }

  /** The length that `writer << reader` computes falls short of the unread rest by
      the reader's head, and wraps around where the head is larger. */
  lemma ForwardLengthIs(r: Reader)
    requires Reading(r)
    ensures var n := |r.Unread()|;
            r.ForwardLength() == if r.head <= n then n - r.head else TWO_TO_THE_64 - (r.head - n)
  {
    var n := r.length + HEADER - r.tail;
    assert n == |r.Unread()| - r.head;
    if n >= 0 {
      assert n % TWO_TO_THE_64 == n;
    } else {
      assert n % TWO_TO_THE_64 == n + TWO_TO_THE_64;
    }
  }

  /** It is the unread rest exactly for a reader whose packet starts the buffer. */
  lemma ForwardsUnreadIff(r: Reader)
    requires Reading(r)
    ensures r.ForwardLength() == |r.Unread()| <==> r.head == 0
  {
    ForwardLengthIs(r);
  }

  /** What `send(packet::reader&)` puts into the send buffer. */
  ghost function Relayed(r: Reader): seq<byte>
    requires Reading(r)
    reads r, r.buffer
  {
    Encode32(r.ForwardLength()) + r.Forwarded()
  }

  lemma EncodeTruncated(n: nat)
    ensures Encode32(Truncate(n)) == Encode32(n)
  {
    var m := Truncate(n);
    LowByte(n, m, n / TWO_TO_THE_32 * 0x100_0000);
    LowByte(n / 256, m / 256, n / TWO_TO_THE_32 * 0x1_0000);
    LowByte(n / 256 / 256, m / 256 / 256, n / TWO_TO_THE_32 * 0x100);
    LowByte(n / 256 / 256 / 256, m / 256 / 256 / 256, n / TWO_TO_THE_32);
    forall i | 0 <= i < HEADER ensures Encode32(m)[i] == Encode32(n)[i] {
      assert Digit(m, i) == Digit(n, i);
    }
    Pointwise(Encode32(m), Encode32(n));
  }

  lemma LowByte(n: nat, m: nat, k: nat)
    requires n == m + 256 * k
    ensures n % 256 == m % 256 && n / 256 == m / 256 + k
  {
  }

  /** A packet opened, filled from a reader and flushed. */
  method Relay(r: Reader, sendBuff: ByteBuffer) returns (w: Writer)
    requires r.buffer != sendBuff && |sendBuff.contents| + |r.buffer.contents| + HEADER < TWO_TO_THE_32
    requires Reading(r)
    modifies sendBuff
    ensures fresh(w) && w.buffer == sendBuff && w.head == |old(sendBuff.contents)|
    ensures w.length == Truncate(r.ForwardLength())
    ensures sendBuff.contents == old(sendBuff.contents) + Relayed(r)
  {
    ghost var before := sendBuff.contents;
    w := OpenWriter(sendBuff);
    w.PutReader(r);
    FrameInPlace(before, Encode32(UNFLUSHED), r.Forwarded());
    w.Flush();
    EncodeTruncated(r.ForwardLength());
    ConcatAssoc(before, Encode32(w.length), r.Forwarded());
  }

  /** What is left of it when the writer has been destroyed.  A length that wraps to
      `uint32(-1)` makes the destructor take the packet for an abandoned one; it then
      takes off `HEADER` bytes and that length, which is three bytes modulo 2^32. */
  ghost function Sent(r: Reader): seq<byte>
    requires Reading(r)
    reads r, r.buffer
  {
    var s := Relayed(r);
    if Truncate(r.ForwardLength()) == UNFLUSHED then s[..|s| - (HEADER - 1)] else s
  }

  /** `connection::send(reader&)`: one frame around what is unread, exactly for the
      reader of a whole received packet. */
  method Forward(r: Reader, sendBuff: ByteBuffer)
    requires r.buffer != sendBuff && |sendBuff.contents| + |r.buffer.contents| + HEADER < TWO_TO_THE_32
    requires Reading(r)
    modifies sendBuff
    ensures sendBuff.contents == old(sendBuff.contents) + Sent(r)
    ensures Sent(r) == Frame(r.Unread()) <==> r.head == 0
  {
    SentIff(r);
    ghost var before := sendBuff.contents;
    var w := Relay(r, sendBuff);
    EncodeTruncated(r.ForwardLength());
    DestroyFlushed(w, before, r.Forwarded());
  }

  /** The destructor of a writer that has been flushed. */
  method DestroyFlushed(w: Writer, ghost before: seq<byte>, ghost bytes: seq<byte>)
    requires w.head == |before| && w.buffer.contents == before + (Encode32(w.length) + bytes)
    modifies w.buffer
    ensures var s := Encode32(w.length) + bytes;
            w.buffer.contents == before + if w.length == UNFLUSHED then s[..|s| - (HEADER - 1)] else s
  {
    FrameInPlace(before, Encode32(w.length), bytes);
    ConcatAssoc(before, Encode32(w.length), bytes);
    if w.length == UNFLUSHED {
      TakenOff(before, Encode32(w.length) + bytes, HEADER - 1);
    } else {
      OtherHeader(w.length);
    }
    w.Destroy();
  }

  lemma TakenOff(a: seq<byte>, b: seq<byte>, n: nat)
    requires n <= |b|
    ensures (a + b)[..|a + b| - n] == a + b[..|b| - n]
  {
  }

  /** It is one frame around the unread rest if and only if the reader's packet
      starts the buffer. */
  lemma SentIff(r: Reader)
    requires Reading(r)
    ensures Sent(r) == Frame(r.Unread()) <==> r.head == 0
  {
    RelayedIff(r);
    ForwardLengthIs(r);
    var n := |r.Unread()|;
    if Truncate(r.ForwardLength()) == UNFLUSHED {
      assert n < r.head;
      var s, f := Relayed(r), Frame(r.Unread());
      if |Sent(r)| == |f| {
        EncodeTruncated(r.ForwardLength());
        assert Sent(r)[..HEADER] == Encode32(UNFLUSHED) && f[..HEADER] == Encode32(n);
        DecodeEncode32(UNFLUSHED);
        DecodeEncode32(n);
      }
    }
  }


  /** The bytes sent are one frame around the unread rest if and only if the
      reader's packet starts the buffer. */
  lemma RelayedIff(r: Reader)
    requires Reading(r)
    ensures Relayed(r) == Frame(r.Unread()) <==> r.head == 0
  {
    ForwardLengthIs(r);
    var n := |r.Unread()|;
    if r.head == 0 {
      assert r.Forwarded() == r.Unread();
    } else if r.head <= n {
      assert |r.Forwarded()| == n - r.head;
    } else {
      var wrapped := TWO_TO_THE_32 - (r.head - n);
      WrappedIs(r.head - n);
      EncodeTruncated(r.ForwardLength());
      assert Relayed(r)[..HEADER] == Encode32(wrapped) && Frame(r.Unread())[..HEADER] == Encode32(n);
      DecodeEncode32(wrapped);
      DecodeEncode32(n);
    }
  }

  lemma WrappedIs(d: nat)
    requires 0 < d < TWO_TO_THE_32
    ensures Truncate(TWO_TO_THE_64 - d) == TWO_TO_THE_32 - d
  {
    assert TWO_TO_THE_64 - d == TWO_TO_THE_32 * (TWO_TO_THE_32 - 1) + (TWO_TO_THE_32 - d);
  }

  /** Where a packet holds one sub-packet and nothing else. */
  ghost predicate OnFirstChild(r: Reader, body: seq<byte>)
    reads r, r.buffer
  {
    && Reading(r) && r.head == HEADER && r.tail == 2 * HEADER && r.length == |body|
    && |r.buffer.contents| == 2 * HEADER + |body| && r.buffer.contents[2 * HEADER..] == body
  }

  method OpenFirstChild(received: ByteBuffer, ghost body: seq<byte>) returns (r: Reader)
    requires |body| < TWO_TO_THE_32 - 4 * HEADER && received.contents == Frame(Frame(body))
    ensures fresh(r) && r.buffer == received && OnFirstChild(r, body)
  {
    ghost var s := received.contents;
    FrameInside(body);
    var outer := OpenReader(received);
    r := OpenNested(outer);
    OpenedOnFirstChild(r, s, body);
  }

  lemma OpenedOnFirstChild(r: Reader, s: seq<byte>, body: seq<byte>)
    requires |body| < TWO_TO_THE_32 - 4 * HEADER
    requires r.buffer.contents == s && |s| == 2 * HEADER + |body| && s[2 * HEADER..] == body
    requires r.head == HEADER && r.tail == 2 * HEADER
    requires r.length == |body| == Decode32(s[HEADER..2 * HEADER])
    ensures OnFirstChild(r, body)
  {
    assert r.buffer.Read(r.head, HEADER) == s[HEADER..2 * HEADER];
  }

  lemma FirstChildLength(r: Reader, body: seq<byte>)
    requires OnFirstChild(r, body)
    ensures |body| >= HEADER ==> r.ForwardLength() == Truncate(r.ForwardLength()) == |body| - HEADER
    ensures |body| < HEADER ==> Truncate(r.ForwardLength()) == TWO_TO_THE_32 - (HEADER - |body|)
  {
    ForwardLengthIs(r);
    if |body| < HEADER {
      WrappedIs(HEADER - |body|);
    } else {
      SmallTruncate(|body| - HEADER);
    }
  }

  lemma SmallTruncate(n: nat)
    requires n < TWO_TO_THE_32
    ensures Truncate(n) == n
  {
  }

  lemma FirstChildRelayed(r: Reader, body: seq<byte>)
    requires OnFirstChild(r, body)
    ensures Relayed(r) == if |body| >= HEADER then Frame(body[..|body| - HEADER])
                          else Encode32(TWO_TO_THE_32 - (HEADER - |body|)) + body
    ensures Truncate(r.ForwardLength()) == UNFLUSHED <==> |body| == HEADER - 1
  {
    FirstChildLength(r, body);
    FirstChildForwarded(r, body);
    EncodeTruncated(r.ForwardLength());
  }

  lemma FirstChildForwarded(r: Reader, body: seq<byte>)
    requires OnFirstChild(r, body)
    ensures r.Forwarded() == if |body| >= HEADER then body[..|body| - HEADER] else body
  {
    FirstChildLength(r, body);
    ForwardLengthIs(r);
    var s := r.buffer.contents;
    if |body| >= HEADER {
      SliceOfSlice(s, 2 * HEADER, |s|, 0, |body| - HEADER);
    }
  }

  /** The first sub-packet of a received packet, forwarded: the last four bytes are
      missing from the frame, and where there are not four, the length wraps; of
      three bytes only the header remains. */
  method ForwardFirstChild(body: seq<byte>) returns (out: seq<byte>)
    requires |body| < TWO_TO_THE_32 - 4 * HEADER
    ensures |body| >= HEADER ==> out == Frame(body[..|body| - HEADER])
    ensures |body| < HEADER ==>
              out == Encode32(TWO_TO_THE_32 - (HEADER - |body|)) + if |body| == HEADER - 1 then [] else body
  {
    var received := new ByteBuffer();
    received.Append(Frame(Frame(body)));
    var inner := OpenFirstChild(received, body);
    FirstChildRelayed(inner, body);
    out := ForwardAlone(inner);
  }

  /** A reader forwarded into an empty send buffer. */
  method ForwardAlone(r: Reader) returns (out: seq<byte>)
    requires Reading(r) && |r.buffer.contents| + HEADER < TWO_TO_THE_32
    ensures out == Sent(r)
  {
    var sendBuff := new ByteBuffer();
    Forward(r, sendBuff);
    out := sendBuff.contents;
  }

  lemma FrameInside(body: seq<byte>)
    requires |body| < TWO_TO_THE_32 - 4 * HEADER
    ensures var s := Frame(Frame(body));
            && |s| == 2 * HEADER + |body|
            && Decode32(s[..HEADER]) == HEADER + |body|
            && Decode32(s[HEADER..2 * HEADER]) == |body|
            && s[2 * HEADER..] == body
  {
    var s := Frame(Frame(body));
    assert s[..HEADER] == Encode32(HEADER + |body|) && s[HEADER..2 * HEADER] == Encode32(|body|);
    DecodeEncode32(HEADER + |body|);
    DecodeEncode32(|body|);
  }

  /** Five bytes lose four, and two go out under a length of 2^32 - 2. */
  method NestedForwardWitness() returns (cut: seq<byte>, wrapped: seq<byte>)
    ensures cut == Frame([1]) && wrapped == Encode32(TWO_TO_THE_32 - 2) + [7, 8]
  {
    cut := ForwardFirstChild([1, 2, 3, 4, 5]);
    wrapped := ForwardFirstChild([7, 8]);
    assert [1, 2, 3, 4, 5][..1] == [1];
  }

  /** A reader just opened on a received frame forwards that frame unchanged. */
  lemma FreshReaderForwardsFrame(r: Reader)
    requires r.OnFrame() && r.head == 0 && r.tail == HEADER
    ensures Frame(r.Unread()) == r.buffer.contents[..HEADER + r.length]
  {
    var s := r.buffer.contents;
    EncodeDecode32(s[..HEADER]);
    assert s[..HEADER + r.length] == s[..HEADER] + s[HEADER..HEADER + r.length];
  }
}
