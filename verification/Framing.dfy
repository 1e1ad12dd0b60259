/** `connection::on_read`: cutting the received byte stream into packets. */
module Framing {
  import opened Bytes
  import opened ReactorBuffer

  /** What `on_recv` is handed: the length field of the frame and the bytes
      between the header and the end of the frame. */
  datatype Packet = Packet(length: uint32, body: seq<byte>)

  datatype Parsed = Parsed(packets: seq<Packet>, rest: seq<byte>, stuck: bool)

  /** The largest body whose frame size does not wrap. */
  const MAX_BODY: nat := TWO_TO_THE_32 - HEADER - 1

  /** `uint32 size = length + sizeof(uint32)`, with the wrap-around of uint32. */
  function FrameSize(length: uint32): uint32 {
    (length + HEADER) % TWO_TO_THE_32
  }

  function HeaderOf(buf: seq<byte>): uint32
    requires |buf| >= HEADER
  {
    Decode32(buf[..HEADER])
  }

  /** The loop in `on_read` handles one more frame. */
  predicate Ready(buf: seq<byte>) {
    |buf| >= HEADER && FrameSize(HeaderOf(buf)) <= |buf|
  }

  function FirstSize(buf: seq<byte>): (size: nat)
    requires Ready(buf)
    ensures size <= |buf|
  {
    FrameSize(HeaderOf(buf))
  }

  function FirstPacket(buf: seq<byte>): Packet
    requires Ready(buf)
  {
    var size := FirstSize(buf);
    Packet(HeaderOf(buf), if size < HEADER then [] else buf[HEADER..size])
  }

  /** The packets in a buffer and the bytes left over.  A frame of wrapped size
      zero removes nothing: the loop then never ends, recorded as `stuck`. */
  function Parse(buf: seq<byte>): Parsed
    decreases |buf|
  {
    if !Ready(buf) then
      Parsed([], buf, false)
    else if FirstSize(buf) == 0 then
      Parsed([], buf, true)
    else
      var p := Parse(buf[FirstSize(buf)..]);
      Parsed([FirstPacket(buf)] + p.packets, p.rest, p.stuck)
  }

  /** `packets`, delivered before, and what `buf` still yields make up `whole`. */
  ghost predicate Remaining(whole: Parsed, packets: seq<Packet>, buf: seq<byte>) {
    var p := Parse(buf);
    whole.packets == packets + p.packets && whole.rest == p.rest && whole.stuck == p.stuck
  }

  lemma RemainingStep(whole: Parsed, packets: seq<Packet>, buf: seq<byte>)
    requires Remaining(whole, packets, buf) && Ready(buf) && FirstSize(buf) != 0
    ensures Remaining(whole, packets + [FirstPacket(buf)], buf[FirstSize(buf)..])
  {
    ConcatAssoc(packets, [FirstPacket(buf)], Parse(buf[FirstSize(buf)..]).packets);
  }

  /** One turn of the loop on a ready buffer, taken off `recv`. */
  method TakeFrame(recv: ByteBuffer, length: uint32) returns (packet: Packet)
    requires Ready(recv.contents) && length == HeaderOf(recv.contents)
    modifies recv
    ensures packet == FirstPacket(old(recv.contents))
    ensures recv.contents == old(recv.contents)[FirstSize(old(recv.contents))..]
  {
    var size := FrameSize(length);
    packet := Packet(length, if size < HEADER then [] else recv.Read(HEADER, size - HEADER));
    recv.Remove(size);
  }

  /** The framing loop.  Where the original loops forever the model leaves the
      loop with `stuck`. */
  method OnRead(recv: ByteBuffer) returns (packets: seq<Packet>, stuck: bool)
    modifies recv
    ensures Parsed(packets, recv.contents, stuck) == Parse(old(recv.contents))
    ensures !stuck ==> !Ready(recv.contents)
  {
    ghost var whole := Parse(recv.contents);
    packets, stuck := [], false;
    while true
      invariant !stuck && Remaining(whole, packets, recv.contents)
      decreases |recv.contents|
    {
      if recv.Count() < HEADER {
        break;
      }
      var length := Decode32(recv.Read(0, HEADER));
      var size := FrameSize(length);
      if size > recv.Count() {
        break;
      }
      if size == 0 {
        stuck := true;
        break;
      }
      RemainingStep(whole, packets, recv.contents);
      var packet := TakeFrame(recv, length);
      packets := packets + [packet];
      if recv.Count() == 0 {
        break;
      }
    }
  }

  // ---------- termination ----------

  /** The loop, started on `buf`, has left by its `n`-th iteration. */
  predicate StoppedWithin(buf: seq<byte>, n: nat) {
    !Ready(buf) || (n > 0 && StoppedWithin(buf[FirstSize(buf)..], n - 1))
  }

  /** Complete frames, one after another, fill the first `k` bytes. */
  predicate FrameBoundary(buf: seq<byte>, k: nat)
    decreases k
  {
    k == 0 ||
    (Ready(buf) && 0 < FirstSize(buf) <= k && FrameBoundary(buf[FirstSize(buf)..], k - FirstSize(buf)))
  }

  /** A frame that starts at `k` announces 2^32 - 4 bytes. */
  predicate HangsAt(buf: seq<byte>, k: nat) {
    FrameBoundary(buf, k) && k + HEADER <= |buf| && HeaderOf(buf[k..]) == TWO_TO_THE_32 - HEADER
  }

  /** The parser is stuck exactly when some frame announces 2^32 - 4 bytes. */
  lemma {:induction false} StuckIff(buf: seq<byte>)
    ensures Parse(buf).stuck <==> exists k: nat :: HangsAt(buf, k)
    decreases |buf|
  {
    if Parse(buf).stuck {
      var k := StuckHangs(buf);
    }
    forall k: nat | HangsAt(buf, k) ensures Parse(buf).stuck {
      HangIsStuck(buf, k);
    }
  }

  lemma {:induction false} StuckHangs(buf: seq<byte>) returns (k: nat)
    requires Parse(buf).stuck
    ensures HangsAt(buf, k) && Parse(buf).rest == buf[k..]
    decreases |buf|
  {
    var size := FirstSize(buf);
    if size == 0 {
      k := 0;
      assert buf[0..] == buf;
    } else {
      var j := StuckHangs(buf[size..]);
      k := size + j;
      assert buf[size..][j..] == buf[k..];
    }
  }

  lemma {:induction false} HangIsStuck(buf: seq<byte>, k: nat)
    requires HangsAt(buf, k)
    ensures Parse(buf).stuck
    decreases k
  {
    if k == 0 {
      assert buf[0..] == buf;
    } else {
      var size := FirstSize(buf);
      assert buf[size..][k - size..] == buf[k..];
      HangIsStuck(buf[size..], k - size);
    }
  }

  /** `on_read` terminates exactly on the buffers in which no frame announces
      2^32 - 4 bytes. */
  lemma TerminatesIffNoHang(buf: seq<byte>)
    ensures (exists n: nat :: StoppedWithin(buf, n)) <==> !(exists k: nat :: HangsAt(buf, k))
  {
    StuckIff(buf);
    if Parse(buf).stuck {
      forall n: nat ensures !StoppedWithin(buf, n) {
        StuckNeverStops(buf, n);
      }
    } else {
      StopsWithinLength(buf);
      assert exists n: nat :: StoppedWithin(buf, n);
    }
  }

  /** Four bytes on which `on_read` never returns. */
  lemma HangWitness()
    ensures var buf := Encode32(TWO_TO_THE_32 - HEADER);
            HangsAt(buf, 0) && forall n: nat :: !StoppedWithin(buf, n)
  {
    var buf := Encode32(TWO_TO_THE_32 - HEADER);
    DecodeEncode32(TWO_TO_THE_32 - HEADER);
    assert buf[0..] == buf && buf[..HEADER] == buf;
    HangIsStuck(buf, 0);
    forall n: nat ensures !StoppedWithin(buf, n) {
      StuckNeverStops(buf, n);
    }
  }

  lemma {:induction false} StuckNeverStops(buf: seq<byte>, n: nat)
    requires Parse(buf).stuck
    ensures !StoppedWithin(buf, n)
    decreases n
  {
    assert Ready(buf);
    if n > 0 {
      if FirstSize(buf) == 0 {
        assert buf[FirstSize(buf)..] == buf;
      }
      StuckNeverStops(buf[FirstSize(buf)..], n - 1);
    }
  }

  lemma {:induction false} StopsWithinLength(buf: seq<byte>)
    requires !Parse(buf).stuck
    ensures StoppedWithin(buf, |buf|)
    decreases |buf|
  {
    if Ready(buf) {
      var rest := buf[FirstSize(buf)..];
      StopsWithinLength(rest);
      StoppedMonotone(rest, |rest|, |buf| - 1);
    }
  }

  lemma {:induction false} StoppedMonotone(buf: seq<byte>, m: nat, n: nat)
    requires m <= n && StoppedWithin(buf, m)
    ensures StoppedWithin(buf, n)
    decreases m
  {
    if Ready(buf) {
      StoppedMonotone(buf[FirstSize(buf)..], m - 1, n - 1);
    }
  }

  /** The header that hangs the loop: exactly 2^32 - 4. */
  lemma ZeroSizeIff(length: uint32)
    ensures FrameSize(length) == 0 <==> length == TWO_TO_THE_32 - HEADER
    ensures FrameSize(length) == length + HEADER <==> length <= MAX_BODY
  {
  }

  // ---------- chunking ----------

  /** Bytes that follow a ready buffer change neither its first frame nor
      its size. */
  lemma ReadyExtends(a: seq<byte>, b: seq<byte>)
    requires Ready(a)
    ensures Ready(a + b)
    ensures FirstSize(a + b) == FirstSize(a) && FirstPacket(a + b) == FirstPacket(a)
    ensures (a + b)[FirstSize(a)..] == a[FirstSize(a)..] + b
  {
    assert (a + b)[..HEADER] == a[..HEADER];
    var size := FirstSize(a);
    if size >= HEADER {
      assert (a + b)[HEADER..size] == a[HEADER..size];
    }
  }

  /** Parsing two stretches one after the other is parsing them together. */
  lemma {:induction false} ParseConcat(a: seq<byte>, b: seq<byte>)
    ensures Parse(a).stuck ==> Parse(a + b).stuck && Parse(a + b).packets == Parse(a).packets
    ensures !Parse(a).stuck ==>
              var p, q := Parse(a), Parse(Parse(a).rest + b);
              Parse(a + b) == Parsed(p.packets + q.packets, q.rest, q.stuck)
    decreases |a|
  {
    if Ready(a) {
      ReadyExtends(a, b);
      if FirstSize(a) > 0 {
        var tail := a[FirstSize(a)..];
        ParseConcat(tail, b);
        ConcatAssoc([FirstPacket(a)], Parse(tail).packets, Parse(Parse(tail).rest + b).packets);
      }
    }
  }

  function Flatten(chunks: seq<seq<byte>>): seq<byte> {
    if chunks == [] then [] else chunks[0] + Flatten(chunks[1..])
  }

  /** `on_read` called once after each chunk arrives; a call that hangs is the
      last one. */
  function Feed(left: seq<byte>, chunks: seq<seq<byte>>): Parsed
    decreases |chunks|
  {
    if chunks == [] then
      Parsed([], left, false)
    else
      var p := Parse(left + chunks[0]);
      if p.stuck then p
      else
        var q := Feed(p.rest, chunks[1..]);
        Parsed(p.packets + q.packets, q.rest, q.stuck)
  }

  predicate SameOutcome(p: Parsed, q: Parsed) {
    p.packets == q.packets && p.stuck == q.stuck && (!p.stuck ==> p.rest == q.rest)
  }

  /** Any split of a byte stream yields the packets, the leftover and the
      termination of the whole stream delivered at once. */
  lemma {:induction false} ChunkingIndependence(left: seq<byte>, chunks: seq<seq<byte>>)
    requires !Ready(left)
    ensures SameOutcome(Feed(left, chunks), Parse(left + Flatten(chunks)))
    decreases |chunks|
  {
    if chunks == [] {
      assert left + Flatten(chunks) == left;
    } else {
      var a, b := left + chunks[0], Flatten(chunks[1..]);
      assert left + Flatten(chunks) == a + b;
      ParseConcat(a, b);
      if !Parse(a).stuck {
        RestNotReady(a);
        ChunkingIndependence(Parse(a).rest, chunks[1..]);
      }
    }
  }

  lemma {:induction false} RestNotReady(a: seq<byte>)
    requires !Parse(a).stuck
    ensures !Ready(Parse(a).rest)
    decreases |a|
  {
    if Ready(a) {
      RestNotReady(a[FirstSize(a)..]);
    }
  }

  // ---------- well-formed streams ----------

  predicate Framable(body: seq<byte>) {
    |body| <= MAX_BODY
  }

  /** One frame: its length, then its body. */
  function Frame(body: seq<byte>): seq<byte> {
    Encode32(|body|) + body
  }

  predicate AllFramable(bodies: seq<seq<byte>>) {
    forall i :: 0 <= i < |bodies| ==> Framable(bodies[i])
  }

  function Frames(bodies: seq<seq<byte>>): seq<byte> {
    if bodies == [] then [] else Frame(bodies[0]) + Frames(bodies[1..])
  }

  predicate Carries(packets: seq<Packet>, bodies: seq<seq<byte>>) {
    |packets| == |bodies| &&
    forall i :: 0 <= i < |packets| ==> packets[i].body == bodies[i] && packets[i].length == |bodies[i]|
  }

  lemma FrameIsReady(body: seq<byte>, more: seq<byte>)
    requires Framable(body)
    ensures Ready(Frame(body) + more)
    ensures FirstSize(Frame(body) + more) == |Frame(body)| == HEADER + |body|
    ensures FirstPacket(Frame(body) + more) == Packet(|body|, body)
    ensures (Frame(body) + more)[HEADER + |body|..] == more
  {
    DecodeEncode32(|body|);
    var buf := Frame(body) + more;
    assert buf[..HEADER] == Encode32(|body|);
    assert buf[HEADER..HEADER + |body|] == body;
  }

  lemma FramesConcat(a: seq<seq<byte>>, b: seq<seq<byte>>)
    ensures Frames(a + b) == Frames(a) + Frames(b)
  {
    if a == [] {
      assert a + b == b;
    } else {
      assert (a + b)[0] == a[0] && (a + b)[1..] == a[1..] + b;
      FramesConcat(a[1..], b);
    }
  }

  /** A proper prefix of one frame holds no complete frame. */
  lemma PartialFrameNotReady(body: seq<byte>, part: seq<byte>)
    requires Framable(body) && part < Frame(body)
    ensures !Ready(part)
  {
    if |part| >= HEADER {
      assert part[..HEADER] == Encode32(|body|);
      DecodeEncode32(|body|);
    }
  }

  /** `buf`, cut by `on_read`, is exactly the first `n` frames and then less
      than one frame. */
  ghost predicate CutAfter(bodies: seq<seq<byte>>, buf: seq<byte>, n: nat) {
    var p := Parse(buf);
    && n <= |bodies|
    && !p.stuck
    && Carries(p.packets, bodies[..n])
    && buf == Frames(bodies[..n]) + p.rest
    && (if n < |bodies| then p.rest < Frame(bodies[n]) else p.rest == [])
  }

  lemma CutOneMore(bodies: seq<seq<byte>>, more: seq<byte>, n: nat)
    requires AllFramable(bodies) && bodies != [] && CutAfter(bodies[1..], more, n)
    ensures CutAfter(bodies, Frame(bodies[0]) + more, n + 1)
  {
    FrameIsReady(bodies[0], more);
    var tail := bodies[1..];
    assert bodies[..n + 1][1..] == tail[..n];
    assert Frames(bodies[..n + 1]) == Frame(bodies[0]) + Frames(tail[..n]);
    ConcatAssoc(Frame(bodies[0]), Frames(tail[..n]), Parse(more).rest);
    assert n < |tail| ==> tail[n] == bodies[n + 1];
  }

  /** Parsing any prefix of a stream of frames gives a prefix of its packets and
      leaves less than one frame. */
  lemma {:induction false} ParsePrefix(bodies: seq<seq<byte>>, buf: seq<byte>) returns (n: nat)
    requires AllFramable(bodies) && buf <= Frames(bodies)
    ensures CutAfter(bodies, buf, n)
    decreases |bodies|
  {
    n := 0;
    if bodies != [] {
      var first := Frame(bodies[0]);
      if |buf| < |first| {
        assert buf == Frames(bodies)[..|buf|] == first[..|buf|];
        PartialFrameNotReady(bodies[0], buf);
      } else {
        var more := buf[|first|..];
        assert buf == first + more;
        assert more <= Frames(bodies[1..]);
        var k := ParsePrefix(bodies[1..], more);
        CutOneMore(bodies, more, k);
        n := k + 1;
      }
    }
  }
}
