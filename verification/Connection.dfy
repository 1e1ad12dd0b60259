/** `connection::send`: packets written into the send buffer of a socket. */
module Connection {
  import opened Bytes
  import opened Framing
  import opened Packets
  import opened PacketTrees
  import Tcp = TcpSocket

  /** A packet filled by `ops` and passed to `send(packet::writer&)`: in the write
      protocol, one flush of one frame.  (`do_write` leaves the buffer alone, so
      the writer is destroyed before it here.) */
  method SendPacket(socket: Tcp.Socket, ops: seq<Op>)
    requires |socket.sendBuff.contents| + HEADER + Volume(ops) < TWO_TO_THE_32
    modifies socket, socket.sendBuff
    ensures socket.View() == Tcp.Step(old(socket.View()), Tcp.Flush(Frame(Body(ops))))
    ensures socket.sendBuff.contents == old(socket.sendBuff.contents) + Frame(Body(ops)) && socket.sending
    ensures socket.sendBuff.done ==
            old(socket.sendBuff.done) + ChildSteps(|old(socket.sendBuff.contents)|, ops, true)
  {
    WritePacket(socket.sendBuff, ops, true);
    socket.flushed := socket.flushed + Frame(Body(ops));
    socket.DoWrite();
  }

  /** A packet opened, filled and abandoned: nothing happens to the protocol. */
  method AbandonPacket(socket: Tcp.Socket, ops: seq<Op>)
    requires |socket.sendBuff.contents| + HEADER + Volume(ops) < TWO_TO_THE_32
    modifies socket.sendBuff
    ensures socket.View() == old(socket.View())
    ensures socket.sendBuff.done ==
            old(socket.sendBuff.done) + ChildSteps(|old(socket.sendBuff.contents)|, ops, false)
  {
    WritePacket(socket.sendBuff, ops, false);
  }

  /** `send(packet::reader&)`: the unread rest of a received packet. */
  method SendReader(socket: Tcp.Socket, r: Reader)
    requires r.buffer != socket.sendBuff && r.OnFrame() && r.head == 0 && HEADER <= r.tail <= HEADER + r.length
    requires |socket.sendBuff.contents| + |r.buffer.contents| + HEADER < TWO_TO_THE_32
    modifies socket, socket.sendBuff
    ensures socket.View() == Tcp.Step(old(socket.View()), Tcp.Flush(Frame(old(r.Unread()))))
  {
    Forward(r, socket.sendBuff);
    socket.flushed := socket.flushed + Frame(r.Unread());
    socket.DoWrite();
  }
}
