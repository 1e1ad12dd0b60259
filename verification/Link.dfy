/** Two sockets and the network between them, driven step by step: the code of the
    handlers performs the steps of the delivery protocol. */
module Link {
  import opened Bytes
  import opened Framing
  import opened Packets
  import opened Delivery
  import Connection

  class Link {
    const sender: Tcp.Socket
    const receiver: Tcp.Socket
    var wire: seq<byte>
    var senderGone: bool
    var receiverGone: bool
    var sent: seq<seq<byte>>
    var delivered: seq<Packet>

    ghost function Parts(): set<object> {
      {this, sender, sender.sendBuff, sender.recvBuff, receiver, receiver.sendBuff, receiver.recvBuff}
    }

    ghost predicate Separate() {
      && sender != receiver && sender.Separate() && receiver.Separate()
      && {sender.sendBuff, sender.recvBuff} !! {receiver.sendBuff, receiver.recvBuff}
    }

    ghost function View(): World
      reads Parts()
    {
      World(sender.View(), senderGone, wire, receiver.recvBuff.contents, receiverGone, sent, delivered)
    }

    constructor ()
      ensures Separate() && Fresh(View()) && Inv(View()) && fresh(Parts())
    {
      sender := new Tcp.Socket();
      receiver := new Tcp.Socket();
      wire, senderGone, receiverGone, sent, delivered := [], false, false, [], [];
      new;
      FreshInv(View());
    }

    /** The operating system completes only waits that exist, and the send buffer
        stays below 2^32 bytes. */
    ghost predicate Possible(e: Event)
      reads Parts()
    {
      match e
      case Send(body) => |sender.sendBuff.contents| + HEADER + |body| < TWO_TO_THE_32
      case Writable(stale, _, _) => if stale then sender.stale > 0 else sender.waits > 0
      case _ => true
    }

    /** One event, handled by the code of the sockets, is one step of the protocol;
        so whatever is performed, the packets delivered are the first ones sent. */
    method Perform(e: Event)
      requires Separate() && Possible(e) && Inv(View())
      modifies Parts()
      ensures View() == Step(old(View()), e)
      ensures Inv(View()) && DeliveredPrefix(View())
      ensures e.Send? && !old(senderGone) ==> sent == old(sent) + [e.body] && sender.sending
      ensures e.SenderClose? || (e.Writable? && e.error) ==> senderGone
      ensures e.ReceiverClose? || (e.Readable? && e.error) ==> receiverGone
      ensures e.Readable? && !old(receiverGone) && !e.error ==>
                old(delivered) <= delivered && |wire| <= |old(wire)| && wire == old(wire)[|old(wire)| - |wire|..]
    {
      StepInv(View(), e);
      if e.Readable? && !receiverGone {
        ghost var taken := Tcp.ReadLoopParses(receiver.recvBuff.contents, wire, e.answers);
      }
      if e.Readable? || e.ReceiverClose? {
        PerformReceiver(e);
      } else if !senderGone {
        PerformSender(e);
      }
    }

    method PerformSender(e: Event)
      requires Separate() && Possible(e) && !senderGone && !e.Readable? && !e.ReceiverClose?
      modifies this, sender, sender.sendBuff, sender.recvBuff
      ensures View() == Step(old(View()), e)
    {
      AppendNothing(wire);
      if e.Send? {
        PutBody(e.body);
        Connection.SendPacket(sender, [Put(e.body)]);
        sent := sent + [e.body];
      } else if e.Open? {
        sender.DoWrite();
      } else if e.Writable? {
        var out, closed := sender.WaitFired(e.stale, e.error, e.answers);
        wire, senderGone := wire + out, closed;
      } else {
        sender.Close();
        senderGone := true;
      }
    }

    method PerformReceiver(e: Event)
      requires Separate() && (e.Readable? || e.ReceiverClose?)
      modifies this, receiver, receiver.sendBuff, receiver.recvBuff
      ensures View() == Step(old(View()), e)
    {
      if e.ReceiverClose? {
        receiver.Close();
        receiverGone := true;
      } else if !receiverGone {
        var packets, rest, closed, stuck := receiver.OnReadable(e.error, wire, e.answers);
        assert delivered + [] == delivered;
        wire, receiverGone, delivered := rest, closed || stuck, delivered + packets;
      }
    }
  }

  lemma PutBody(body: seq<byte>)
    ensures Packets.Body([Put(body)]) == body && Volume([Put(body)]) == |body|
  {
    BodyOne(Put(body));
    assert [Put(body)][1..] == [];
  }
}
