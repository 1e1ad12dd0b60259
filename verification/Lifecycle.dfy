/** The connection state machine and the connectors that drive it, with user
    callbacks that may themselves call back into the connection, and with the
    exceptions that asio throws. */
module Lifecycle {

  datatype State = DISCONNECTED | CONNECTING | CONNECTED

  /** A call into the connection, with what the user callbacks it may trigger do in
      their turn (`after`, `onClose`) and how the operating system answers.
      `Completed` may belong to any earlier `TcpConnect`.  `DatagramConnect` is
      `connect` of the UDP and the KCP connector.  User code may throw, and may
      catch what the calls it makes throw. */
  datatype Call =
    | Connected(after: seq<Call>)
    | Connecting
    | Disconnect(after: seq<Call>)
    | SocketClose(after: seq<Call>)
    | TcpConnect(onClose: seq<Call>, opens: bool)
    | Completed(ok: bool, after: seq<Call>)
    | DatagramConnect(onClose: seq<Call>, opens: bool, binds: bool, ok: bool, after: seq<Call>)
    | Throw
    | Try(body: seq<Call>)

  /** What happens, in order.  `Up` and `Down` are steps into and out of CONNECTED;
      `Dropped` is a step out of it by `connecting()`, `GaveUp` the end of an
      attempt that never connected. */
  datatype Mark = Up | Down | Dropped | GaveUp | ConnectedCall | DisconnectedCall

  /** `open` tells whether the socket has a descriptor, `thrown` whether an
      exception is on its way out; `found` lists the states in which
      `connecting()` was called. */
  datatype Life = Life(state: State, open: bool, thrown: bool, log: seq<Mark>, found: seq<State>)

  /** A connector just constructed. */
  const START := Life(DISCONNECTED, false, false, [], [])

  function ToConnecting(l: Life): Life {
    l.(state := CONNECTING,
       log := l.log + if l.state == CONNECTED then [Dropped] else [],
       found := l.found + [l.state])
  }

  /** `connected`: the socket's `open` at the end throws without a descriptor. */
  function OnConnected(l: Life, after: seq<Call>): Life
    decreases after, 1
  {
    if l.state == CONNECTED then l
    else
      var c := ExecAll(l.(state := CONNECTED, log := l.log + [Up] + [ConnectedCall]), after);
      if c.thrown then c else c.(thrown := !c.open)
  }

  function OnClose(l: Life, after: seq<Call>): Life
    decreases after, 1
  {
    if l.state != CONNECTED then l
    else ExecAll(l.(state := DISCONNECTED, log := l.log + [Down] + [DisconnectedCall]), after)
  }

  function Closing(l: Life, after: seq<Call>): Life
    decreases after, 2
  {
    OnClose(l.(open := false), after)
  }

  function OnDisconnect(l: Life, after: seq<Call>): Life
    decreases after, 3
  {
    if l.state == DISCONNECTED then l
    else
      var left := l.(state := DISCONNECTED, log := l.log + [if l.state == CONNECTED then Down else GaveUp]);
      var closed := Closing(left, after);
      if closed.thrown then closed
      else ExecAll(closed.(log := closed.log + [DisconnectedCall]), after)
  }

  /** `async_connect` opens a closed socket, or posts the failure to do so. */
  function OnTcpConnect(l: Life, onClose: seq<Call>, opens: bool): Life
    decreases onClose, 3
  {
    var closed := Closing(l, onClose);
    if closed.thrown then closed
    else
      var c := ToConnecting(closed);
      c.(open := c.open || opens)
  }

  /** The part of a datagram `connect` before its outcome: `open` throws on a
      socket already open, and `bind` may throw on one just opened. */
  function Reopening(l: Life, onClose: seq<Call>, opens: bool, binds: bool): Life
    decreases onClose, 3
  {
    var closed := Closing(l, onClose);
    if closed.thrown then closed
    else if closed.open || !opens then closed.(thrown := true)
    else if !binds then closed.(open := true, thrown := true)
    else ToConnecting(closed.(open := true))
  }

  function Exec(l: Life, call: Call): Life
    decreases call, 0
  {
    match call
    case Connected(after) => OnConnected(l, after)
    case Connecting => ToConnecting(l)
    case Disconnect(after) => OnDisconnect(l, after)
    case SocketClose(after) => Closing(l, after)
    case TcpConnect(onClose, opens) => OnTcpConnect(l, onClose, opens)
    case Completed(ok, after) => if ok then OnConnected(l, after) else OnDisconnect(l, after)
    case DatagramConnect(onClose, opens, binds, ok, after) =>
      var c := Reopening(l, onClose, opens, binds);
      if c.thrown then c else if ok then OnConnected(c, after) else OnDisconnect(c, after)
    case Throw => l.(thrown := true)
    case Try(body) => ExecAll(l, body).(thrown := false)
  }

  function ExecAll(l: Life, calls: seq<Call>): Life
    decreases calls, 0
  {
    if calls == [] || l.thrown then l else ExecAll(Exec(l, calls[0]), calls[1..])
  }

  // ---------- the class ----------

  class Connection {
    var state: State
    var open: bool
    var thrown: bool
    ghost var log: seq<Mark>
    ghost var found: seq<State>

    ghost function View(): Life
      reads this
    {
      Life(state, open, thrown, log, found)
    }

    constructor ()
      ensures View() == START
    {
      state, open, thrown := DISCONNECTED, false, false;
      log, found := [], [];
    }

    method Connected(after: seq<Call>)
      modifies this
      ensures View() == OnConnected(old(View()), after)
      ensures old(state) == CONNECTED ==> unchanged(this)
      ensures old(state) != CONNECTED && after == [] ==>
                && state == CONNECTED && open == old(open) && log == old(log) + [Up] + [ConnectedCall]
                && thrown == (old(thrown) || !open)
      decreases after, 1
    {
      if state != CONNECTED {
        state := CONNECTED;
        log := log + [Up] + [ConnectedCall];
        Run(after);
        if !thrown {
          thrown := !open;
        }
      }
    }

    method Connecting()
      modifies this
      ensures View() == ToConnecting(old(View()))
      ensures state == CONNECTING && open == old(open) && found == old(found) + [old(state)]
    {
      log := log + if state == CONNECTED then [Dropped] else [];
      found := found + [state];
      state := CONNECTING;
    }

    /** `on_close`, as `socket::close` calls it. */
    method Closed(after: seq<Call>)
      modifies this
      ensures View() == OnClose(old(View()), after)
      ensures old(state) != CONNECTED ==> unchanged(this)
      ensures old(state) == CONNECTED && after == [] ==>
                && state == DISCONNECTED && open == old(open) && thrown == old(thrown)
                && log == old(log) + [Down] + [DisconnectedCall]
      decreases after, 1
    {
      if state == CONNECTED {
        state := DISCONNECTED;
        log := log + [Down] + [DisconnectedCall];
        Run(after);
      }
    }

    /** `socket::close` */
    method CloseSocket(after: seq<Call>)
      modifies this
      ensures View() == Closing(old(View()), after)
      ensures after == [] ==>
                && !open && thrown == old(thrown)
                && state == (if old(state) == CONNECTED then DISCONNECTED else old(state))
                && log == old(log) + if old(state) == CONNECTED then [Down] + [DisconnectedCall] else []
      decreases after, 2
    {
      open := false;
      Closed(after);
    }

    method Disconnect(after: seq<Call>)
      modifies this
      ensures View() == OnDisconnect(old(View()), after)
      ensures old(state) == DISCONNECTED ==> unchanged(this)
      ensures old(state) != DISCONNECTED && !old(thrown) && after == [] ==>
                && state == DISCONNECTED && !open && !thrown
                && log == old(log) + [if old(state) == CONNECTED then Down else GaveUp] + [DisconnectedCall]
      decreases after, 3
    {
      if state == DISCONNECTED {
        return;
      }
      log := log + [if state == CONNECTED then Down else GaveUp];
      state := DISCONNECTED;
      CloseSocket(after);
      if !thrown {
        log := log + [DisconnectedCall];
        Run(after);
      }
    }

    /** `tcp::connector::connect`, up to the registration of the completion. */
    method TcpConnect(onClose: seq<Call>, opens: bool)
      modifies this
      ensures View() == OnTcpConnect(old(View()), onClose, opens)
      ensures !old(thrown) && onClose == [] ==> state == CONNECTING && open == opens && !thrown
      decreases onClose, 3
    {
      CloseSocket(onClose);
      if thrown {
        return;
      }
      Connecting();
      if !open {
        open := opens;
      }
    }

    /** The completion handler of `async_connect`. */
    method Completed(ok: bool, after: seq<Call>)
      modifies this
      ensures View() == Exec(old(View()), Call.Completed(ok, after))
      ensures ok && old(state) != CONNECTED && after == [] ==>
                state == CONNECTED && log == old(log) + [Up] + [ConnectedCall]
      ensures !ok && old(state) == CONNECTING && !old(thrown) && after == [] ==>
                state == DISCONNECTED && !open && log == old(log) + [GaveUp] + [DisconnectedCall]
      decreases after, 4
    {
      if ok {
        Connected(after);
      } else {
        Disconnect(after);
      }
    }

    method ReopenDatagram(onClose: seq<Call>, opens: bool, binds: bool)
      modifies this
      ensures View() == Reopening(old(View()), onClose, opens, binds)
      ensures !old(thrown) && onClose == [] ==>
                && thrown == (!opens || !binds) && open == opens
                && (opens && binds ==> state == CONNECTING)
      decreases onClose, 3
    {
      CloseSocket(onClose);
      if thrown {
        return;
      }
      if open || !opens {
        thrown := true;
        return;
      }
      open := true;
      if !binds {
        thrown := true;
        return;
      }
      Connecting();
    }

    method Dispatch(call: Call)
      modifies this
      ensures View() == Exec(old(View()), call)
      decreases call, 0
    {
      if call.Connected? {
        Connected(call.after);
      } else if call.Connecting? {
        Connecting();
      } else if call.Disconnect? {
        Disconnect(call.after);
      } else if call.SocketClose? {
        CloseSocket(call.after);
      } else if call.TcpConnect? {
        TcpConnect(call.onClose, call.opens);
      } else if call.Completed? {
        Completed(call.ok, call.after);
      } else if call.DatagramConnect? {
        // the outcome is known before connect returns
        ReopenDatagram(call.onClose, call.opens, call.binds);
        if !thrown {
          Completed(call.ok, call.after);
        }
      } else if call.Throw? {
        thrown := true;
      } else {
        Run(call.body);
        thrown := false;
      }
    }

    method Run(calls: seq<Call>)
      modifies this
      ensures View() == ExecAll(old(View()), calls)
      decreases calls, 0
    {
      if calls != [] && !thrown {
        Dispatch(calls[0]);
        Run(calls[1..]);
      }
    }
  }

  // ---------- the log ----------

  /** The log leaves the connection connected. */
  predicate IsUp(log: seq<Mark>) {
    log != [] && log[|log| - 1] == ConnectedCall
  }

  /** Steps and callbacks come in pairs, and steps into and out of CONNECTED
      alternate: an entry with its `on_connected`, a departure or a given-up
      attempt with its `on_disconnected`, or a departure without one. */
  predicate Orderly(log: seq<Mark>) {
    var n := |log|;
    || n == 0
    || (log[n - 1] == Dropped && IsUp(log[..n - 1]) && Orderly(log[..n - 1]))
    || (n >= 2 && Orderly(log[..n - 2]) && Pair(log[n - 2], log[n - 1], IsUp(log[..n - 2])))
  }

  predicate Pair(a: Mark, b: Mark, up: bool) {
    || (a == Up && b == ConnectedCall && !up)
    || (a == Down && b == DisconnectedCall && up)
    || (a == GaveUp && b == DisconnectedCall && !up)
  }

  lemma OrderlyPair(log: seq<Mark>, a: Mark, b: Mark)
    requires Orderly(log) && Pair(a, b, IsUp(log))
    ensures Orderly(log + [a] + [b]) && IsUp(log + [a] + [b]) == (b == ConnectedCall)
  {
    var whole := log + [a] + [b];
    assert whole[..|whole| - 2] == log;
  }

  lemma OrderlyDropped(log: seq<Mark>)
    requires Orderly(log) && IsUp(log)
    ensures Orderly(log + [Dropped]) && !IsUp(log + [Dropped])
  {
    var whole := log + [Dropped];
    assert whole[..|whole| - 1] == log;
  }

  /** Each step has the callback that belongs to it right after it, and each
      callback the step it belongs to right before. */
  predicate Answered(log: seq<Mark>, i: nat)
    requires i < |log|
  {
    match log[i]
    case Up => i + 1 < |log| && log[i + 1] == ConnectedCall
    case Down => i + 1 < |log| && log[i + 1] == DisconnectedCall
    case GaveUp => i + 1 < |log| && log[i + 1] == DisconnectedCall
    case ConnectedCall => i > 0 && log[i - 1] == Up
    case DisconnectedCall => i > 0 && (log[i - 1] == Down || log[i - 1] == GaveUp)
    case Dropped => true
  }

  lemma {:induction false} OrderlyIsAnswered(log: seq<Mark>, i: nat)
    requires Orderly(log) && i < |log|
    ensures Answered(log, i)
  {
    var n := |log|;
    if log[n - 1] == Dropped {
      if i < n - 1 {
        OrderlyIsAnswered(log[..n - 1], i);
      }
    } else if i < n - 2 {
      OrderlyIsAnswered(log[..n - 2], i);
    }
  }

  function Count(log: seq<Mark>, m: Mark): nat {
    if log == [] then 0 else Count(log[..|log| - 1], m) + if log[|log| - 1] == m then 1 else 0
  }

  lemma {:induction false} CountZero(log: seq<Mark>, m: Mark)
    ensures Count(log, m) == 0 <==> m !in log
  {
    if log != [] {
      CountZero(log[..|log| - 1], m);
      assert log == log[..|log| - 1] + [log[|log| - 1]];
    }
  }

  function Ones(b: bool): nat {
    if b then 1 else 0
  }

  lemma {:induction false} OrderlyCounts(log: seq<Mark>)
    requires Orderly(log)
    ensures Count(log, Up) == Count(log, Down) + Count(log, Dropped) + Ones(IsUp(log))
    ensures Count(log, ConnectedCall) == Count(log, Up)
    ensures Count(log, DisconnectedCall) == Count(log, Down) + Count(log, GaveUp)
  {
    var n := |log|;
    if n > 0 {
      if log[n - 1] == Dropped {
        OrderlyCounts(log[..n - 1]);
      } else {
        assert log[..n - 1][..n - 2] == log[..n - 2];
        OrderlyCounts(log[..n - 2]);
      }
    }
  }

  /** What every run keeps. */
  predicate Kept(l: Life) {
    && Orderly(l.log)
    && (IsUp(l.log) <==> l.state == CONNECTED)
    && Count(l.log, Dropped) == multiset(l.found)[CONNECTED]
  }

  lemma ToConnectingKept(l: Life)
    requires Kept(l)
    ensures Kept(ToConnecting(l))
  {
    if l.state == CONNECTED {
      OrderlyDropped(l.log);
    } else {
      assert l.log + [] == l.log;
    }
  }

  lemma PairKept(l: Life, m: Life, a: Mark, b: Mark)
    requires Kept(l) && Pair(a, b, l.state == CONNECTED)
    requires m.log == l.log + [a] + [b] && m.found == l.found && (m.state == CONNECTED <==> b == ConnectedCall)
    ensures Kept(m)
  {
    OrderlyPair(l.log, a, b);
  }

  /** The close inside `disconnect` re-enters `on_close`, which does nothing. */
  lemma DisconnectUnfolds(l: Life, after: seq<Call>)
    requires l.state != DISCONNECTED && !l.thrown
    ensures var step := if l.state == CONNECTED then Down else GaveUp;
            OnDisconnect(l, after)
            == ExecAll(Life(DISCONNECTED, false, false, l.log + [step] + [DisconnectedCall], l.found), after)
  {
    var left := l.(state := DISCONNECTED, log := l.log + [if l.state == CONNECTED then Down else GaveUp]);
    assert Closing(left, after) == OnClose(left.(open := false), after) == left.(open := false);
  }

  /** A connected connection after the close of its socket and what the callback
      did about it. */
  function AfterLoss(l: Life, onClose: seq<Call>): Life {
    ExecAll(Life(DISCONNECTED, false, l.thrown, l.log + [Down] + [DisconnectedCall], l.found), onClose)
  }

  lemma CloseUnfolds(l: Life, after: seq<Call>)
    ensures Closing(l, after) ==
            if l.state != CONNECTED then l.(open := false)
            else AfterLoss(l, after)
  {
    assert Closing(l, after) == OnClose(l.(open := false), after);
  }

  /** The connection entered, its callback running the calls `after`, and then the
      `open` of the socket. */
  function Entered(l: Life, after: seq<Call>): Life {
    var c := ExecAll(l.(state := CONNECTED, log := l.log + [Up] + [ConnectedCall]), after);
    if c.thrown then c else c.(thrown := !c.open)
  }

  /** The connection left or given up, its socket closed, and its callback running
      `after`. */
  function Gone(l: Life, after: seq<Call>): Life {
    var step := if l.state == CONNECTED then Down else GaveUp;
    ExecAll(Life(DISCONNECTED, false, false, l.log + [step] + [DisconnectedCall], l.found), after)
  }

  /** `connected()` and `disconnect()` act unless they are late, and then their
      callback runs; the completion of an attempt is one of them. */
  lemma CompletedUnfolds(l: Life, ok: bool, after: seq<Call>)
    requires !l.thrown
    ensures Exec(l, Completed(ok, after)) ==
            if ok then (if l.state == CONNECTED then l else Entered(l, after))
            else if l.state == DISCONNECTED then l else Gone(l, after)
    ensures Exec(l, Completed(true, after)) == Exec(l, Connected(after))
    ensures Exec(l, Completed(false, after)) == Exec(l, Disconnect(after))
  {
    if l.state != DISCONNECTED {
      DisconnectUnfolds(l, after);
    }
  }

  /** A failed attempt ends: disconnected, the socket closed, its own
      `on_disconnected` called. */
  lemma FailedAttemptEnds(l: Life)
    requires !l.thrown && l.state == CONNECTING
    ensures Exec(l, Completed(false, []))
            == Life(DISCONNECTED, false, false, l.log + [GaveUp] + [DisconnectedCall], l.found)
  {
    DisconnectUnfolds(l, []);
  }

  /** `connect` of the datagram connectors, once its attempt is under way, ends as the
      completion of that attempt does. */
  lemma DatagramUnfolds(l: Life, onClose: seq<Call>, opens: bool, binds: bool, ok: bool, after: seq<Call>)
    ensures var c := Reopening(l, onClose, opens, binds);
            Exec(l, DatagramConnect(onClose, opens, binds, ok, after)) ==
            if c.thrown then c else Exec(c, Completed(ok, after))
  {
  }

  /** `connect` of the TCP connector leaves an attempt under way on an open socket, if
      one can be opened, unless the callback for the lost connection throws. */
  lemma TcpConnectLeaves(l: Life, onClose: seq<Call>, opens: bool)
    requires !l.thrown
    ensures var c := if l.state == CONNECTED then AfterLoss(l, onClose) else l.(open := false);
            var r := Exec(l, TcpConnect(onClose, opens));
            if c.thrown then r == c
            else r.state == CONNECTING && r.open == (c.open || opens) && r.found == c.found + [c.state]
  {
    CloseUnfolds(l, onClose);
  }

  /** Exceptions leave the calls that follow undone, up to where they are caught. */
  lemma ThrownStops(l: Life, calls: seq<Call>)
    ensures ExecAll(l, [Throw] + calls) == if l.thrown then l else l.(thrown := true)
    ensures !Exec(l, Try(calls)).thrown
  {
    var all := [Throw] + calls;
    assert all[1..] == calls;
  }

  lemma {:induction false} OnConnectedKept(l: Life, after: seq<Call>)
    requires Kept(l)
    ensures Kept(OnConnected(l, after))
    decreases after, 1
  {
    if l.state != CONNECTED {
      var m := l.(state := CONNECTED, log := l.log + [Up] + [ConnectedCall]);
      PairKept(l, m, Up, ConnectedCall);
      AllKept(m, after);
    }
  }

  lemma {:induction false} OnCloseKept(l: Life, after: seq<Call>)
    requires Kept(l)
    ensures Kept(OnClose(l, after))
    decreases after, 1
  {
    if l.state == CONNECTED {
      var m := l.(state := DISCONNECTED, log := l.log + [Down] + [DisconnectedCall]);
      PairKept(l, m, Down, DisconnectedCall);
      AllKept(m, after);
    }
  }

  lemma {:induction false} OnDisconnectKept(l: Life, after: seq<Call>)
    requires Kept(l) && !l.thrown
    ensures Kept(OnDisconnect(l, after))
    decreases after, 1
  {
    if l.state != DISCONNECTED {
      var step := if l.state == CONNECTED then Down else GaveUp;
      var m := l.(state := DISCONNECTED, open := false, log := l.log + [step] + [DisconnectedCall]);
      PairKept(l, m, step, DisconnectedCall);
      AllKept(m, after);
      DisconnectUnfolds(l, after);
    }
  }

  lemma {:induction false} CallKept(l: Life, call: Call)
    requires Kept(l) && !l.thrown
    ensures Kept(Exec(l, call))
    decreases call, 0
  {
    match call
    case Connected(after) => OnConnectedKept(l, after);
    case Connecting => ToConnectingKept(l);
    case Disconnect(after) => OnDisconnectKept(l, after);
    case SocketClose(after) => OnCloseKept(l.(open := false), after);
    case TcpConnect(onClose, _) =>
      OnCloseKept(l.(open := false), onClose);
      ToConnectingKept(Closing(l, onClose));
    case Completed(ok, after) =>
      OnConnectedKept(l, after);
      OnDisconnectKept(l, after);
    case DatagramConnect(onClose, opens, binds, ok, after) =>
      OnCloseKept(l.(open := false), onClose);
      ToConnectingKept(Closing(l, onClose).(open := true));
      var c := Reopening(l, onClose, opens, binds);
      OnConnectedKept(c, after);
      if !c.thrown {
        OnDisconnectKept(c, after);
      }
    case Throw =>
    case Try(body) => AllKept(l, body);
  }

  /** In every run, whatever the callbacks do and whatever is thrown: steps and
      callbacks pair up, entries and departures alternate, and a departure goes
      unannounced only when `connecting()` found the connection connected. */
  lemma {:induction false} AllKept(l: Life, calls: seq<Call>)
    requires Kept(l)
    ensures Kept(ExecAll(l, calls))
    decreases calls, 0
  {
    if calls != [] && !l.thrown {
      CallKept(l, calls[0]);
      AllKept(Exec(l, calls[0]), calls[1..]);
    }
  }

  /** The departures without a callback are as many as the `connecting()` calls, at
      any depth, that found the connection connected: in every run so many more
      `on_connected` calls are made than the present state and the `on_disconnected`
      calls other than those for given-up attempts account for. */
  lemma SilentCount(calls: seq<Call>)
    ensures var m := ExecAll(START, calls);
            Count(m.log, ConnectedCall)
            == Ones(m.state == CONNECTED) + (Count(m.log, DisconnectedCall) - Count(m.log, GaveUp))
               + multiset(m.found)[CONNECTED]
  {
    AllKept(START, calls);
    OrderlyCounts(ExecAll(START, calls).log);
  }

  /** Each departure and each failed attempt has an `on_disconnected` of its own,
      each entry an `on_connected` of its own, and there are no other callbacks; so
      `on_connected` calls exceed departures by one exactly when connected. */
  lemma EachDepartureAnnounced(calls: seq<Call>)
    ensures var m := ExecAll(START, calls);
            && (forall i :: 0 <= i < |m.log| ==> Answered(m.log, i))
            && Count(m.log, ConnectedCall)
               == Count(m.log, Down) + Count(m.log, Dropped) + Ones(m.state == CONNECTED)
            && Count(m.log, DisconnectedCall) == Count(m.log, Down) + Count(m.log, GaveUp)
  {
    var m := ExecAll(START, calls);
    AllKept(START, calls);
    forall i | 0 <= i < |m.log| ensures Answered(m.log, i) {
      OrderlyIsAnswered(m.log, i);
    }
    OrderlyCounts(m.log);
  }

  // ---------- the connectors never drop a connection ----------

  /** Who owns the connection: the TCP connector, the UDP or KCP connector, or an
      acceptor, which hands over a socket already open. */
  datatype Kind = Stream | Datagram | Accepted

  /** Calls that a program makes with such a connection, its callbacks calling back
      to any depth.  Completions come from the event loop (`top`). */
  predicate Uses(kind: Kind, top: bool, call: Call)
    decreases call, 0
  {
    match call
    case Connected(after) => kind.Accepted? && UsesAll(kind, false, after)
    case Connecting => false
    case Disconnect(after) => UsesAll(kind, false, after)
    case SocketClose(after) => UsesAll(kind, false, after)
    case TcpConnect(onClose, _) => kind.Stream? && UsesAll(kind, false, onClose)
    case Completed(_, after) => kind.Stream? && top && UsesAll(kind, false, after)
    case DatagramConnect(onClose, _, _, _, after) =>
      kind.Datagram? && UsesAll(kind, false, onClose) && UsesAll(kind, false, after)
    case Throw => true
    case Try(body) => UsesAll(kind, top, body)
  }

  predicate UsesAll(kind: Kind, top: bool, calls: seq<Call>)
    decreases calls, 0
  {
    calls == [] || (Uses(kind, top, calls[0]) && UsesAll(kind, top, calls[1..]))
  }

  /** A connected datagram connection has an open socket. */
  predicate Steady(kind: Kind, l: Life) {
    kind.Datagram? && l.state == CONNECTED ==> l.open
  }

  /** From `l` to `m` nothing was dropped, and callbacks of a TCP connector did not
      connect a connection that was down. */
  predicate Clean(kind: Kind, top: bool, l: Life, m: Life) {
    && Steady(kind, m)
    && (CONNECTED in m.found ==> CONNECTED in l.found)
    && (kind.Stream? && !top && l.state != CONNECTED ==> m.state != CONNECTED)
  }

  lemma {:induction false} OnConnectedClean(kind: Kind, l: Life, after: seq<Call>)
    requires UsesAll(kind, false, after) && (kind.Datagram? ==> l.open)
    ensures Clean(kind, true, l, OnConnected(l, after))
    decreases after, 1
  {
    if l.state != CONNECTED {
      AllClean(kind, false, l.(state := CONNECTED, log := l.log + [Up] + [ConnectedCall]), after);
    }
  }

  /** After a close a TCP connection is down, even if its callbacks connect again;
      a datagram connection is up only with its socket open. */
  lemma {:induction false} ClosingClean(kind: Kind, l: Life, after: seq<Call>)
    requires UsesAll(kind, false, after)
    ensures Clean(kind, false, l, Closing(l, after))
    ensures kind.Stream? ==> Closing(l, after).state != CONNECTED
    decreases after, 1
  {
    CloseUnfolds(l, after);
    if l.state == CONNECTED {
      AllClean(kind, false,
               l.(open := false, state := DISCONNECTED, log := l.log + [Down] + [DisconnectedCall]), after);
    }
  }

  lemma {:induction false} OnDisconnectClean(kind: Kind, l: Life, after: seq<Call>)
    requires UsesAll(kind, false, after) && !l.thrown
    ensures Clean(kind, false, l, OnDisconnect(l, after))
    decreases after, 1
  {
    if l.state != DISCONNECTED {
      var step := if l.state == CONNECTED then Down else GaveUp;
      DisconnectUnfolds(l, after);
      AllClean(kind, false,
               l.(open := false, state := DISCONNECTED, log := l.log + [step] + [DisconnectedCall]), after);
    }
  }

  lemma {:induction false} CallClean(kind: Kind, top: bool, l: Life, call: Call)
    requires Uses(kind, top, call) && Steady(kind, l) && !l.thrown
    ensures Clean(kind, top, l, Exec(l, call))
    decreases call, 0
  {
    match call
    case Connected(after) => OnConnectedClean(kind, l, after);
    case Connecting =>
    case Disconnect(after) => OnDisconnectClean(kind, l, after);
    case SocketClose(after) => ClosingClean(kind, l, after);
    case TcpConnect(onClose, opens) =>
      ClosingClean(kind, l, onClose);
      assert Exec(l, call) == OnTcpConnect(l, onClose, opens);
    case Completed(ok, after) =>
      if ok {
        OnConnectedClean(kind, l, after);
      } else {
        OnDisconnectClean(kind, l, after);
      }
    case DatagramConnect(onClose, opens, binds, ok, after) =>
      ClosingClean(kind, l, onClose);
      var c := Reopening(l, onClose, opens, binds);
      if !c.thrown {
        if ok {
          OnConnectedClean(kind, c, after);
        } else {
          OnDisconnectClean(kind, c, after);
        }
      }
    case Throw =>
    case Try(body) => AllClean(kind, top, l, body);
  }

  lemma {:induction false} AllClean(kind: Kind, top: bool, l: Life, calls: seq<Call>)
    requires UsesAll(kind, top, calls) && Steady(kind, l)
    ensures Clean(kind, top, l, ExecAll(l, calls))
    decreases calls, 0
  {
    if calls != [] && !l.thrown {
      CallClean(kind, top, l, calls[0]);
      AllClean(kind, top, Exec(l, calls[0]), calls[1..]);
    }
  }

  /** Every run of connects, completions (late ones too), disconnects and closes of
      one connector, with callbacks that make the same calls to any depth and with
      exceptions thrown and caught anywhere, announces every departure. */
  lemma NoSilentDeparture(kind: Kind, open: bool, calls: seq<Call>)
    requires UsesAll(kind, true, calls)
    ensures var m := ExecAll(START.(open := open), calls);
            && Dropped !in m.log
            && Count(m.log, ConnectedCall)
               == Ones(m.state == CONNECTED) + (Count(m.log, DisconnectedCall) - Count(m.log, GaveUp))
  {
    AllClean(kind, true, START.(open := open), calls);
    AllKept(START.(open := open), calls);
    OrderlyCounts(ExecAll(START.(open := open), calls).log);
    CountZero(ExecAll(START.(open := open), calls).log, Dropped);
  }

  /** A datagram `connect` throws before the outcome of its attempt exactly when
      `open` or `bind` fails, or the connection was connected and the callback for
      its loss threw or left the socket open. */
  lemma ReopenThrowsIff(l: Life, onClose: seq<Call>, opens: bool, binds: bool)
    requires !l.thrown
    ensures Reopening(l, onClose, opens, binds).thrown <==>
            || !opens || !binds
            || (l.state == CONNECTED && var c := AfterLoss(l, onClose); c.thrown || c.open)
  {
    CloseUnfolds(l, onClose);
  }

  /** When it throws, the connection is in the state the callback left, and when it
      does not, an attempt is under way on an open socket. */
  lemma ReopenLeaves(l: Life, onClose: seq<Call>, opens: bool, binds: bool)
    requires !l.thrown
    ensures var r := Reopening(l, onClose, opens, binds);
            var left := if l.state == CONNECTED then AfterLoss(l, onClose).state else l.state;
            if r.thrown then r.state == left else r.state == CONNECTING && r.open
  {
    CloseUnfolds(l, onClose);
  }

  /** A callback that reconnects while a datagram `connect` closes the old
      connection: the inner connection stands, and the outer `connect` throws on
      the socket it finds open. */
  lemma ReentrantReconnectThrows()
    ensures var again := DatagramConnect([], true, true, true, []);
            var m := ExecAll(START, [again, DatagramConnect([again], true, true, true, [])]);
            m.thrown && m.state == CONNECTED
            && m.log == [Up, ConnectedCall, Down, DisconnectedCall, Up, ConnectedCall]
  {
    var again := DatagramConnect([], true, true, true, []);
    var outer := DatagramConnect([again], true, true, true, []);
    var up := Exec(START, again);
    assert up == Life(CONNECTED, true, false, [Up, ConnectedCall], [DISCONNECTED]);
    var down := Life(DISCONNECTED, false, false, [Up, ConnectedCall, Down, DisconnectedCall], [DISCONNECTED]);
    var inner := Exec(down, again);
    assert inner == Life(CONNECTED, true, false, down.log + [Up, ConnectedCall], [DISCONNECTED, DISCONNECTED]);
    assert ExecAll(down, [again]) == ExecAll(inner, []) == inner;
    CloseUnfolds(up, [again]);
    assert up.log + [Down] + [DisconnectedCall] == down.log;
    assert Closing(up, [again]) == inner;
    assert Reopening(up, [again], true, true) == inner.(thrown := true);
    assert Exec(up, outer) == inner.(thrown := true);
    assert [again, outer][1..] == [outer];
    assert ExecAll(up, [outer]) == ExecAll(Exec(up, outer), []);
  }

  /** A callback whose own reconnect fails at `bind`, and which catches that: the
      socket is open, the connection is not, and the outer `connect` throws. */
  lemma FailedReconnectThrows()
    ensures var again := Try([DatagramConnect([], true, false, true, [])]);
            var up := Life(CONNECTED, true, false, [Up, ConnectedCall], [DISCONNECTED]);
            var m := Exec(up, DatagramConnect([again], true, true, true, []));
            m.thrown && m.state == DISCONNECTED && m.open
  {
    var inner := DatagramConnect([], true, false, true, []);
    var up := Life(CONNECTED, true, false, [Up, ConnectedCall], [DISCONNECTED]);
    var down := Life(DISCONNECTED, false, false, up.log + [Down] + [DisconnectedCall], up.found);
    CloseUnfolds(down, []);
    assert Exec(down, inner) == down.(open := true, thrown := true);
    assert ExecAll(down, [inner]) == ExecAll(Exec(down, inner), []);
    assert Exec(down, Try([inner])) == down.(open := true);
    assert ExecAll(down, [Try([inner])]) == ExecAll(down.(open := true), []);
    CloseUnfolds(up, [Try([inner])]);
  }

  /** `connecting()` is public: called on a connected connection, it drops it. */
  lemma DirectConnectingDrops()
    ensures var m := ExecAll(START, [TcpConnect([], true), Completed(true, []), Connecting]);
            m.state == CONNECTING && m.log == [Up, ConnectedCall, Dropped]
  {
    var calls := [TcpConnect([], true), Completed(true, []), Connecting];
    var a := Exec(START, calls[0]);
    assert a == Life(CONNECTING, true, false, [], [DISCONNECTED]);
    var b := Exec(a, calls[1]);
    assert b == Life(CONNECTED, true, false, [Up, ConnectedCall], [DISCONNECTED]);
    var c := Exec(b, calls[2]);
    assert c.log == [Up, ConnectedCall, Dropped];
    assert calls[1..] == [calls[1], calls[2]] && calls[1..][1..] == [calls[2]] && calls[1..][1..][1..] == [];
    assert ExecAll(b, [calls[2]]) == ExecAll(c, []) == c;
    assert ExecAll(a, calls[1..]) == ExecAll(b, [calls[2]]);
  }
}
