/** One TCP connection end to end: packets flushed at one side, partial sends, a
    network that hands bytes over in any pieces, partial receives and the framing
    loop at the other side. */
module Delivery {
  import opened Bytes
  import opened Framing
  import Tcp = TcpSocket

  type Body = b: seq<byte> | |b| <= MAX_BODY witness []

  datatype World = World(
    sender: Tcp.Sender,
    senderGone: bool,
    wire: seq<byte>,
    recvBuff: seq<byte>,
    receiverGone: bool,
    sent: seq<seq<byte>>,
    delivered: seq<Packet>)

  datatype Event =
    | Send(body: Body)
    | Open
    | Writable(stale: bool, error: bool, answers: seq<Tcp.Transfer>)
    | SenderClose
    | Readable(error: bool, answers: seq<Tcp.Transfer>)
    | ReceiverClose

  /** A new epoch: nothing flushed yet, any number of stale write waits. */
  predicate Fresh(w: World) {
    && w == World(Tcp.IDLE.(stale := w.sender.stale), false, [], [], false, [], [])
  }

  /** A step of the sending socket; bytes the operating system takes enter the
      wire, and a close ends the sender's part. */
  function SenderStep(w: World, e: Tcp.Event): World {
    w.(sender := Tcp.Step(w.sender, e),
       senderGone := Tcp.Ends(w.sender, e),
       wire := w.wire + Tcp.Output(w.sender, e))
  }

  function Step(w: World, e: Event): World {
    match e
    case Send(body) =>
      if w.senderGone then w else SenderStep(w, Tcp.Flush(Frame(body))).(sent := w.sent + [body])
    case Open => if w.senderGone then w else SenderStep(w, Tcp.Open)
    case Writable(stale, error, answers) =>
      if w.senderGone then w
      else SenderStep(w, if stale then Tcp.StaleFired(error, answers) else Tcp.Fired(error, answers))
    case SenderClose => if w.senderGone then w else SenderStep(w, Tcp.Closed)
    case Readable(error, answers) =>
      if w.receiverGone then w
      else if error then w.(recvBuff := [], receiverGone := true)
      else
        var r := Tcp.ReadLoop(w.recvBuff, w.wire, answers);
        w.(recvBuff := r.recvBuff, wire := r.wire, receiverGone := r.failed || r.stuck,
           delivered := w.delivered + r.packets)
    case ReceiverClose => w.(recvBuff := [], receiverGone := true)
  }

  function Run(w: World, events: seq<Event>): World
    decreases |events|
  {
    if events == [] then w else Run(Step(w, events[0]), events[1..])
  }

  /** The packets delivered are the first packets sent. */
  predicate DeliveredPrefix(w: World) {
    |w.delivered| <= |w.sent| && Carries(w.delivered, w.sent[..|w.delivered|])
  }

  /** The bytes that have left the sender: frames delivered, bytes received and
      not yet framed, bytes in flight. */
  function Carried(w: World): seq<byte>
    requires |w.delivered| <= |w.sent|
  {
    Frames(w.sent[..|w.delivered|]) + (w.recvBuff + w.wire)
  }

  predicate SenderInv(w: World) {
    && AllFramable(w.sent)
    && Tcp.Sound(w.sender)
    && (!w.senderGone ==> w.sender.flushed == Frames(w.sent))
  }

  predicate CarriedInv(w: World)
    requires |w.delivered| <= |w.sent|
  {
    !w.receiverGone ==>
      && !Ready(w.recvBuff)
      && Carried(w) <= Frames(w.sent)
      && (!w.senderGone ==> Carried(w) == w.sender.transmitted)
  }

  predicate Inv(w: World) {
    SenderInv(w) && DeliveredPrefix(w) && CarriedInv(w)
  }

  lemma CarriedExtends(w: World, v: World, out: seq<byte>)
    requires |w.delivered| <= |w.sent|
    requires v.sent == w.sent && v.delivered == w.delivered && v.recvBuff == w.recvBuff
    requires v.wire == w.wire + out
    ensures Carried(v) == Carried(w) + out
  {
    ConcatAssoc(w.recvBuff, w.wire, out);
    ConcatAssoc(Frames(w.sent[..|w.delivered|]), w.recvBuff + w.wire, out);
  }

  lemma SenderStepInv(w: World, e: Tcp.Event)
    requires Inv(w) && !w.senderGone && !e.Flush?
    ensures Inv(SenderStep(w, e))
  {
    Tcp.StepSound(w.sender, e);
    Tcp.StepOutput(w.sender, e);
    CarriedExtends(w, SenderStep(w, e), Tcp.Output(w.sender, e));
  }

  lemma SendInv(w: World, body: Body)
    requires Inv(w) && !w.senderGone
    ensures Inv(Step(w, Send(body)))
  {
    Tcp.StepSound(w.sender, Tcp.Flush(Frame(body)));
    FramesSnoc(w.sent, body);
    SliceOfPrefix(w.sent, [body], 0, |w.delivered|);
    SendCarried(w, body);
  }

  lemma SendCarried(w: World, body: Body)
    requires Inv(w) && !w.senderGone
    ensures CarriedInv(Step(w, Send(body)))
  {
    FramesSnoc(w.sent, body);
    SliceOfPrefix(w.sent, [body], 0, |w.delivered|);
    AppendNothing(w.wire);
    if !w.receiverGone {
      PrefixLonger(Carried(w), Frames(w.sent), Frame(body));
    }
  }

  lemma PrefixLonger(a: seq<byte>, b: seq<byte>, c: seq<byte>)
    requires a <= b
    ensures a <= b + c
  {
  }

  lemma FramesSnoc(sent: seq<seq<byte>>, body: Body)
    ensures Frames(sent + [body]) == Frames(sent) + Frame(body)
  {
    FramesConcat(sent, [body]);
    assert Frames([body]) == Frame(body) + Frames([]);
  }

  /** Framing the bytes that follow the delivered packets delivers the packets
      that follow them. */
  lemma DeliverMore(sent: seq<seq<byte>>, delivered: seq<Packet>, buf: seq<byte>) returns (n: nat)
    requires AllFramable(sent) && |delivered| <= |sent| && Carries(delivered, sent[..|delivered|])
    requires Frames(sent[..|delivered|]) + buf <= Frames(sent)
    ensures !Parse(buf).stuck
    ensures n == |delivered + Parse(buf).packets| <= |sent|
    ensures Carries(delivered + Parse(buf).packets, sent[..n])
    ensures Frames(sent[..n]) + Parse(buf).rest == Frames(sent[..|delivered|]) + buf
  {
    var m := |delivered|;
    var todo := sent[m..];
    SplitAt(sent, m);
    FramesConcat(sent[..m], todo);
    PrefixCancel(Frames(sent[..m]), buf, Frames(todo));
    var k := ParsePrefix(todo, buf);
    n := m + k;
    assert sent[..n] == sent[..m] + todo[..k];
    FramesConcat(sent[..m], todo[..k]);
    ConcatAssoc(Frames(sent[..m]), Frames(todo[..k]), Parse(buf).rest);
  }

  lemma PrefixCancel(a: seq<byte>, b: seq<byte>, c: seq<byte>)
    requires a + b <= a + c
    ensures b <= c
  {
    assert b == (a + b)[|a|..];
    assert (a + c)[|a|..|a| + |b|] == c[..|b|];
  }

  lemma ReadInv(w: World, answers: seq<Tcp.Transfer>)
    requires Inv(w) && !w.receiverGone
    ensures Inv(Step(w, Readable(false, answers)))
    ensures Step(w, Readable(false, answers)).receiverGone
            == Tcp.ReadLoop(w.recvBuff, w.wire, answers).failed
  {
    var r := Tcp.ReadLoop(w.recvBuff, w.wire, answers);
    var taken := Tcp.ReadLoopParses(w.recvBuff, w.wire, answers);
    var buf, head := w.recvBuff + taken, Frames(w.sent[..|w.delivered|]);
    Regroup(head, w.recvBuff, taken, r.wire);
    PrefixShorter(head + buf, r.wire, Frames(w.sent));
    var n := DeliverMore(w.sent, w.delivered, buf);
    if !r.failed {
      RestNotReady(buf);
      ConcatAssoc(Frames(w.sent[..n]), r.recvBuff, r.wire);
    }
  }

  lemma Regroup(a: seq<byte>, b: seq<byte>, c: seq<byte>, d: seq<byte>)
    ensures a + (b + (c + d)) == (a + (b + c)) + d
  {
  }

  lemma PrefixShorter(a: seq<byte>, b: seq<byte>, c: seq<byte>)
    requires a + b <= c
    ensures a <= c
  {
    assert a == (a + b)[..|a|];
  }

  lemma StepInv(w: World, e: Event)
    requires Inv(w)
    ensures Inv(Step(w, e))
  {
    match e
    case Send(body) => if !w.senderGone { SendInv(w, body); }
    case Open => if !w.senderGone { SenderStepInv(w, Tcp.Open); }
    case Writable(stale, error, answers) =>
      if !w.senderGone {
        SenderStepInv(w, if stale then Tcp.StaleFired(error, answers) else Tcp.Fired(error, answers));
      }
    case SenderClose => if !w.senderGone { SenderStepInv(w, Tcp.Closed); }
    case Readable(error, answers) => if !w.receiverGone && !error { ReadInv(w, answers); }
    case ReceiverClose =>
  }

  lemma {:induction false} RunInv(w: World, events: seq<Event>)
    requires Inv(w)
    ensures Inv(Run(w, events))
    decreases |events|
  {
    if events != [] {
      StepInv(w, events[0]);
      RunInv(Step(w, events[0]), events[1..]);
    }
  }

  lemma FreshInv(w: World)
    requires Fresh(w)
    ensures Inv(w)
  {
    assert Frames([]) == [];
  }

  /** In every run, closes and stale completions included, the packets delivered
      are a prefix of the packets sent: in order, none split, none duplicated. */
  lemma DeliveredInOrder(w: World, events: seq<Event>)
    requires Fresh(w)
    ensures DeliveredPrefix(Run(w, events))
  {
    FreshInv(w);
    RunInv(w, events);
  }

  predicate Quiet(w: World) {
    !w.senderGone && !w.receiverGone && w.sender.sendBuff == [] && w.wire == []
  }

  /** Nothing is lost: while both sides stay open, once the send buffer and the
      wire are empty every packet sent has been delivered and no byte is left. */
  lemma NothingLost(w: World, events: seq<Event>)
    requires Fresh(w) && Quiet(Run(w, events))
    ensures var v := Run(w, events);
            Carries(v.delivered, v.sent) && v.recvBuff == []
  {
    FreshInv(w);
    RunInv(w, events);
    QuietComplete(Run(w, events));
  }

  lemma QuietComplete(v: World)
    requires Inv(v) && Quiet(v)
    ensures Carries(v.delivered, v.sent) && v.recvBuff == []
  {
    var m := |v.delivered|;
    SplitAt(v.sent, m);
    FramesConcat(v.sent[..m], v.sent[m..]);
    var head := Frames(v.sent[..m]);
    assert v.sender.transmitted + [] == v.sender.transmitted;
    assert v.recvBuff + [] == v.recvBuff;
    assert head + v.recvBuff == head + Frames(v.sent[m..]);
    PrefixCancel(head, v.recvBuff, Frames(v.sent[m..]));
    assert v.recvBuff == Frames(v.sent[m..]);
    if m < |v.sent| {
      FrameIsReady(v.sent[m], Frames(v.sent[m..][1..]));
      assert false;
    }
    assert v.sent[..m] == v.sent;
  }

  /** A write completion that takes the whole send buffer. */
  lemma WriteAll(w: World) returns (write: seq<Tcp.Transfer>)
    requires Inv(w) && !w.senderGone
    ensures var a := Step(w, Writable(false, false, write));
            Inv(a) && a.sender.sendBuff == [] && !a.senderGone && a.receiverGone == w.receiverGone && a.sent == w.sent
  {
    write := [Tcp.Transfer(|w.sender.sendBuff|, Tcp.NoError)];
    StepInv(w, Writable(false, false, write));
  }

  /** A read completion that takes the whole wire. */
  lemma ReadAll(w: World) returns (read: seq<Tcp.Transfer>)
    requires Inv(w) && !w.receiverGone
    ensures var a := Step(w, Readable(false, read));
            Inv(a) && a.wire == [] && !a.receiverGone && a.sender == w.sender
            && a.senderGone == w.senderGone && a.sent == w.sent
  {
    read := [Tcp.Transfer(|w.wire|, Tcp.NoError)];
    assert read[1..] == [];
    ReadInv(w, read);
  }

  /** Progress: from every state of an open run there is a write completion and a
      read completion after which everything sent has been delivered. */
  lemma CanFinish(w: World) returns (write: seq<Tcp.Transfer>, read: seq<Tcp.Transfer>)
    requires Inv(w) && !w.senderGone && !w.receiverGone
    ensures var v := Step(Step(w, Writable(false, false, write)), Readable(false, read));
            v.sent == w.sent && Carries(v.delivered, v.sent)
  {
    write := WriteAll(w);
    var a := Step(w, Writable(false, false, write));
    read := ReadAll(a);
    QuietComplete(Step(a, Readable(false, read)));
  }
}
