/** `tcp::connector` as it is made of its connection and its socket: its handlers and
    calls are the steps of `TcpSession`. */
module TcpConnector {
  import opened Bytes
  import opened Lifecycle
  import opened TcpSession

  class Connector {
    const connection: Connection
    const socket: Tcp.Socket
    var watched: seq<Wait>
    var posted: seq<Completion>

    ghost function View(): Session
      reads this, connection, socket, socket.sendBuff
    {
      Session(connection.View(), socket.View(), watched, posted)
    }

    constructor ()
      ensures View() == NEW && socket.Separate()
      ensures fresh(connection) && fresh(socket) && fresh(socket.sendBuff) && fresh(socket.recvBuff)
    {
      connection := new Connection();
      socket := new Tcp.Socket();
      watched, posted := [], [];
    }

    method Cancel()
      modifies this
      ensures watched == [] && posted == AllStale(old(posted)) + Aborted(old(watched))
      ensures |posted| == |old(posted)| + |old(watched)|
      ensures forall i :: 0 <= i < |posted| ==>
                posted[i] == if i < |old(posted)| then old(posted)[i].(stale := true)
                             else Completion(old(watched)[i - |old(posted)|], false, true)
    {
      watched, posted := [], AllStale(posted) + Aborted(watched);
    }

    /** `socket::close` */
    method CloseSocket()
      requires socket.Separate()
      modifies this, connection, socket, socket.sendBuff, socket.recvBuff
      ensures View() == CloseAll(old(View()))
      ensures !connection.open && watched == [] && !socket.sending && socket.sendBuff.contents == []
      ensures connection.state == if old(connection.state) == CONNECTED then DISCONNECTED else old(connection.state)
    {
      socket.Close();
      Cancel();
      connection.CloseSocket([]);
    }

    method Start(wait: Wait)
      modifies this
      ensures View() == Watch(old(View()), wait)
      ensures if connection.open then watched == old(watched) + [wait] && posted == old(posted)
              else posted == old(posted) + [Completion(wait, false, false)] && watched == old(watched)
    {
      if connection.open {
        watched := watched + [wait];
      } else {
        posted := posted + [Completion(wait, false, false)];
      }
    }

    /** `connection::send`, the bytes already in the send buffer counted as flushed. */
    method Send(bytes: seq<byte>)
      requires socket.Separate()
      modifies this, socket, socket.sendBuff
      ensures View() == Next(old(View()), Step.Send(bytes))
      ensures socket.sendBuff.contents == old(socket.sendBuff.contents) + bytes
      ensures connection.open ==>
                watched == old(watched) + if socket.sending && !old(socket.sending) then [WriteWait] else []
    {
      var was := socket.sending;
      socket.sendBuff.Append(bytes);
      socket.flushed := socket.flushed + bytes;
      socket.DoWrite();
      if socket.sending && !was {
        Start(WriteWait);
      }
    }

    /** `connector::connect` */
    method Connect(answer: Answer)
      requires socket.Separate() && !connection.thrown
      modifies this, connection, socket, socket.sendBuff, socket.recvBuff
      ensures View() == Next(old(View()), Step.Connect(answer))
      ensures connection.state == CONNECTING && connection.open == !answer.OpenFails?
      ensures watched == if answer.InProgress? then [ConnectWait] else []
      ensures !answer.InProgress? ==>
                posted != [] && posted[|posted| - 1] == Completion(ConnectWait, answer.Settled? && answer.ok, false)
      ensures socket.sendBuff.contents == [] && !socket.sending
    {
      socket.Close();
      Cancel();
      connection.TcpConnect([], !answer.OpenFails?);
      if answer.InProgress? {
        watched := watched + [ConnectWait];
      } else {
        posted := posted + [Completion(ConnectWait, answer.Settled? && answer.ok, false)];
      }
    }

    method Disconnect()
      requires socket.Separate()
      modifies this, connection, socket, socket.sendBuff, socket.recvBuff
      ensures View() == Next(old(View()), Step.Disconnect)
      ensures connection.state == DISCONNECTED
      ensures old(connection.state) != DISCONNECTED && !old(connection.thrown) ==>
                && !connection.open && watched == [] && socket.sendBuff.contents == []
                && connection.log == old(connection.log)
                                     + [if old(connection.state) == CONNECTED then Down else GaveUp]
                                     + [DisconnectedCall]
    {
      if connection.state != DISCONNECTED {
        socket.Close();
        Cancel();
      }
      connection.Disconnect([]);
    }

    method Close()
      requires socket.Separate()
      modifies this, connection, socket, socket.sendBuff, socket.recvBuff
      ensures View() == Next(old(View()), Step.Close)
      ensures !connection.open && watched == [] && connection.state != CONNECTED
    {
      CloseSocket();
    }

    /** The reactor reports a wait. */
    method Report(i: nat, ok: bool)
      modifies this
      ensures View() == Next(old(View()), Ready(i, ok))
      ensures if i < |old(watched)| then
                && watched == old(watched)[..i] + old(watched)[i + 1..]
                && posted == old(posted) + [Completion(old(watched)[i], ok, false)]
              else
                unchanged(this)
    {
      if i < |watched| {
        var c := Completion(watched[i], ok, false);
        watched, posted := watched[..i] + watched[i + 1..], posted + [c];
      }
    }

    /** The read handler; a framing loop that hangs does not come back. */
    method ReadHandler(ok: bool, incoming: seq<byte>, answers: seq<Tcp.Transfer>) returns (stuck: bool)
      requires socket.Separate()
      modifies this, connection, socket, socket.sendBuff, socket.recvBuff
      ensures !stuck ==> View() == OnRead(old(View()), ok, answers)
      ensures !ok ==> !stuck && !connection.open && watched == [] && connection.state != CONNECTED
      ensures !stuck && ok && !ReadFails(answers) && connection.open ==> watched == old(watched) + [ReadWait]
    {
      var packets, wire, closed;
      ghost var recv := socket.recvBuff.contents;
      packets, wire, closed, stuck := socket.OnReadable(!ok, incoming, answers);
      if stuck {
        return;
      }
      if ok {
        ReadFailsIs(recv, incoming, answers);
      }
      if closed {
        Cancel();
        connection.CloseSocket([]);
      } else {
        Start(ReadWait);
      }
    }

    /** The write handler, its completion taken off the queue. */
    method WriteHandler(c: Completion, answers: seq<Tcp.Transfer>)
      requires socket.Separate() && (if c.stale then socket.stale > 0 else socket.waits > 0)
      modifies this, connection, socket, socket.sendBuff, socket.recvBuff
      ensures View() == OnWrite(old(View()), c, answers)
      ensures !c.ok ==> !connection.open && watched == [] && connection.state != CONNECTED
      ensures c.ok && connection.open ==>
                watched == old(watched) + if socket.sending then [WriteWait] else []
    {
      var sent, closed := socket.WaitFired(c.stale, !c.ok, answers);
      if closed {
        Cancel();
        connection.CloseSocket([]);
      } else if socket.sending {
        Start(WriteWait);
      }
    }

    /** The handler of `async_connect`; an exception from it is caught outside. */
    method ConnectHandler(ok: bool)
      requires socket.Separate() && !connection.thrown
      modifies this, connection, socket, socket.sendBuff, socket.recvBuff
      ensures View() == OnConnect(old(View()), ok)
      ensures ok ==> connection.state == CONNECTED
      ensures ok && old(connection.state) != CONNECTED && old(connection.open) ==> ReadWait in watched
      ensures !ok ==> connection.state == DISCONNECTED
      ensures !ok && old(connection.state) == CONNECTING ==>
                && !connection.open && watched == []
                && connection.log == old(connection.log) + [GaveUp] + [DisconnectedCall]
    {
      CompletedUnfolds(connection.View(), ok, []);
      var enters, leaves := connection.state != CONNECTED && connection.open, connection.state != DISCONNECTED;
      OneCall(connection.View(), Completed(ok, []));
      connection.Dispatch(Try([Completed(ok, [])]));
      if ok && enters {
        Start(ReadWait);
        var was := socket.sending;
        socket.DoWrite();
        if socket.sending && !was {
          Start(WriteWait);
        }
      }
      if !ok && leaves {
        socket.Close();
        Cancel();
      }
    }

    /** The next handler runs. */
    method RunHandler(c: Completion, incoming: seq<byte>, answers: seq<Tcp.Transfer>) returns (stuck: bool)
      requires socket.Separate() && !connection.thrown && Counted(View())
      requires posted != [] && posted[0] == c
      modifies this, connection, socket, socket.sendBuff, socket.recvBuff
      ensures !stuck ==> View() == Next(old(View()), RunNext(answers))
      ensures !stuck ==> Counted(View()) && !connection.thrown
    {
      HandlerCounted(View(), answers);
      StepProjects(View(), RunNext(answers));
      posted := posted[1..];
      stuck := false;
      if c.wait.ReadWait? {
        stuck := ReadHandler(c.ok, incoming, answers);
      } else if c.wait.WriteWait? {
        WriteHandler(c, answers);
      } else {
        ConnectHandler(c.ok);
      }
    }

    /** Any step of the event loop or the program. */
    method Perform(step: Step, incoming: seq<byte>) returns (stuck: bool)
      requires socket.Separate() && !connection.thrown && Counted(View())
      modifies this, connection, socket, socket.sendBuff, socket.recvBuff
      ensures !stuck ==> View() == Next(old(View()), step) && Counted(View()) && !connection.thrown
    {
      StepCounted(View(), step);
      StepProjects(View(), step);
      stuck := false;
      if step.Ready? {
        Report(step.i, step.ok);
      } else if step.RunNext? {
        if |posted| > 0 {
          stuck := RunHandler(posted[0], incoming, step.answers);
        }
      } else if step.Send? {
        Send(step.bytes);
      } else if step.Connect? {
        Connect(step.answer);
      } else if step.Disconnect? {
        Disconnect();
      } else {
        Close();
      }
    }
  }
}
