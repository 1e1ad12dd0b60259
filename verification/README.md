# Verified model of simple_network

simple_network is a small reactor-style networking library (`lib/`) on top of a
vendored asio (`deps/asio`). This project models the parts of both that move
bytes and change state, and proves what they promise. It is written for Dafny
4.11; `dafny verify dfyconfig.toml` covers all of it.

Code that changes state is modelled as classes and loops. Each such method is
proved equal to a transition function, and the properties of whole runs are
lemmas about those functions.

What is modelled, and the main result for each part:

- **One TCP connection end to end** (`Framing.dfy`, `TcpSocket.dfy`,
  `Connection.dfy`, `Delivery.dfy`, `Link.dfy`). Packets are flushed into a send
  buffer, sent in partial chunks by a write handler guarded by the SENDING flag, carried
  by a network that may cut the stream anywhere, received in partial chunks, and
  cut into frames by `on_read`. In every run of these steps the packets delivered
  are a prefix of the packets sent; while both sides are open nothing is lost, and
  delivery can always be completed. `Link` drives two socket objects and shows
  that their handlers perform exactly these steps.
- **Reconnecting** (`TcpSession.dfy`, `Reconnect.dfy`, `Intruders.dfy`,
  `Outcomes.dfy`, `TcpConnector.dfy`, `DatagramSession.dfy`). The connection, the socket with its
  waits, and the queue of the event loop composed, for the TCP connector and for the
  UDP and KCP connectors. A new connection can last exactly when nothing was left
  behind that will close the socket under it.
- **The ring** (`RingArithmetic.dfy`, `Ring.dfy`, `RingRuns.dfy`,
  `RingPackets.dfy`). `buffer::circle` with its masks, its wrapping tail and its
  chunked copies, proved against a byte sequence, with the exact condition on every
  write and on every run. Where the ring carries a run of sends, the bytes taken and
  held are the frames of the packets, in order.
- **Nested packets** (`Packets.dfy`, `PacketTrees.dfy`). `packet::writer` objects
  with placeholders, back-patching and rollback; `packet::reader` objects walking
  the result. Writing any tree of packets and walking it gives back the tree;
  abandoned writers leave no trace.
- **Scatter/gather buffers** (`Buffers.dfy`, `BufferCopy.dfy`,
  `BuffersIterator.dfy`). Memory is one array of bytes, and a buffer is an address
  and a size. All overloads of `buffer_copy` are proved equal to a byte-by-byte
  copy of the flat sequences (see [buffer.copy] of ISO/IEC TS 19216:2018), and every move of
  `buffers_iterator` is proved to land on the cursor of its flat position; walking
  from one iterator to another reads the flat bytes between them.
- **Dynamic buffers** (`ByteQueue.dfy`, `StreamBuf.dfy`, `DynamicBuffer.dfy`,
  `DynamicBufferRuns.dfy`). `basic_streambuf`, `dynamic_string_buffer` and
  `dynamic_vector_buffer` are run against one bounded byte queue
  ([buffer.reqmts.dynamicbuffer] of ISO/IEC TS 19216:2018). The string and the
  vector buffer make the same calls on their stores and are one class here.
- **Connection lifecycle** (`Lifecycle.dfy`). The three-state machine of
  `connection` under the TCP, UDP and KCP connectors and the acceptors, with late
  completions, with user callbacks that may call back into the connection to any
  depth, and with the exceptions of `open` and `bind`. In every run of such calls
  each departure from CONNECTED has its own `on_disconnected`.
- **KCP accept table** (`KcpAcceptor.dfy`). Conversation ids with the wrap-around
  of `uint32`, the endpoint list and the conversation table.

`Bytes.dfy` holds bytes and the image of a `uint32`; `ReactorBuffer.dfy` holds
`buffer::buffer<>` as the byte sequence that packets and sockets take it for.

## Where the code does less than it seems to promise

Each of these is proved, with the exact condition under which the expected
property holds.

- `on_read` computes the frame size in `uint32`. A header of 2^32 - 4 gives size
  zero and the loop never ends; the loop ends exactly when no header behind a row
  of complete frames announces that length (`Framing.TerminatesIffNoHang`,
  `Framing.ZeroSizeIff`). Four bytes suffice (`Framing.HangWitness`).
- `writer << reader` computes the unread length from the start of the buffer, so
  it forwards the unread rest exactly when the reader's packet starts the buffer
  (`PacketTrees.ForwardsUnreadIff`). A nested reader loses as many bytes as there
  are before its packet; where fewer are unread, the length wraps around and what
  the buffer still holds goes out under it (`PacketTrees.ForwardLengthIs`,
  `PacketTrees.NestedForwardWitness`).
- `reader >> value` reads at an offset, which consumes nothing, so the reader does
  not move and a second `>>` reads from the first value on again. It is right
  exactly when the second value is how the two begin (`PacketTrees.ExtractTwo`).
- `circle::write` measures its chunks from the tail, not from the place it writes
  to. A write that the end of the array divides is right exactly when the array ends
  after one, three, seven, ... times as many bytes as there are free places beside
  the bytes from there to the tail (`Ring.StoresIff`); any other one stores behind
  the array (`RingRuns.OverrunWitness`). A write from the front of a full ring never
  returns (`RingRuns.EndlessWitness`), and until something is removed from the front
  no other write fails (`Ring.StoresFromZero`). Receiving, removing and reading are
  always right. Which runs return follows from the counts alone (`RingRuns.RunBoth`);
  those in which the bytes stay clear of the end of the array do
  (`RingRuns.FirstLap`).
- A buffer with a maximum of 409600 bytes comes to hold fewer than 262144
  (`Ring.DefaultReach`).
- `connect` of the TCP connector cancels the waits of the old socket, whose handlers
  then close the new one. The attempt can succeed exactly when no wait was watched
  and no failed handler was pending (`Reconnect.CanSucceedIff`); on a connected
  connection with nothing to read it never does
  (`Reconnect.ConnectedCannotReconnect`).
- `connect` of the UDP and KCP connectors leaves the receive of the old socket behind
  in the same way. The new connection can outlast what is left exactly when no
  receive was under way and no failed handler pending
  (`DatagramSession.CanSettleIff`); otherwise it is lost once the handlers left behind
  have run (`DatagramSession.ReconnectIsLost`).
- A write completion left over from an earlier epoch that reports success while
  the new epoch is sending leads to two live write waits; this is the only way
  (`TcpSocket.OneWaitKeptIff`). Such a completion comes about exactly by closing the
  socket while a write handler that will succeed is pending (`Intruders.CleanKeptIff`,
  `Intruders.UncleanIntrudes`), as in `Intruders.TwoWaitsWitness`. No byte is lost or
  reordered even then (`TcpSocket.RunSound`).
- A `prepare` of `basic_streambuf` that throws may already have moved the bytes:
  the input sequence is kept exactly when the condition of
  `StreamBuf.FailureKeepsContentsIff` holds, and `StreamBuf.FailureCorruptsWitness`
  drives a buffer into a failure that changes it. The string and vector buffers
  keep it always.
- `commit` and `consume` of `basic_streambuf` pass their count through an `int`;
  they move the pointer by the count exactly when it is below 2^31.
- `connecting()` is public. Called on a connected connection it leaves CONNECTED
  without `on_disconnected` (`Lifecycle.DirectConnectingDrops`), and no other call
  does so: such departures are as many as such calls (`Lifecycle.SilentCount`). The connectors never call it then, whatever
  their callbacks do (`Lifecycle.NoSilentDeparture`).
- `connect` of the UDP or KCP connector on a connected connection throws, apart from
  failures of `open` and `bind`, exactly when the callback for the lost connection
  throws or leaves the socket open (`Lifecycle.ReopenThrowsIff`): by reconnecting
  (`Lifecycle.ReentrantReconnectThrows`) or by failing to
  (`Lifecycle.FailedReconnectThrows`). The connection stays as the callback left it
  (`Lifecycle.ReopenLeaves`).
- `get_conv` stops exactly when some id is free (`KcpAcceptor.SearchStopsIff`).

## Model

| member | source | states |
|---|---|---|
| Bytes.DecodeEncode32 | lib/simple/reactor/packet.h:62 | a length written over four bytes is read back |
| Bytes.LittleEndian | lib/simple/reactor/packet.h:62 | a length is laid out least significant byte first |
| Framing.OnRead | lib/simple/reactor/connection.h:77-91 | the do-while loop delivers exactly the packets of `Parse`, leaves its rest, and leaves no complete frame behind |
| Framing.StuckIff | lib/simple/reactor/connection.h:79-91 | parsing is stuck if and only if somewhere in the input a header of 2^32 - 4 follows a row of complete frames |
| Framing.TerminatesIffNoHang | lib/simple/reactor/connection.h:79-91 | the loop leaves after finitely many turns if and only if there is no such place |
| Framing.HangWitness | lib/simple/reactor/connection.h:84-91 | four bytes on which it never leaves |
| Framing.ZeroSizeIff | lib/simple/reactor/connection.h:84 | `length + sizeof(uint32)` wraps to zero for the single length 2^32 - 4, and does not wrap exactly up to 2^32 - 5 |
| Framing.ParseConcat | lib/simple/reactor/connection.h:77-91 | parsing two stretches one after the other is parsing them together, for arbitrary bytes |
| Framing.ChunkingIndependence | lib/simple/reactor/connection.h:77-91 | any split of any byte stream gives the packets, leftover and termination of the whole stream |
| Framing.ParsePrefix | lib/simple/reactor/connection.h:79-91 | a prefix of a stream of frames yields a prefix of its packets and leaves less than one frame |
| TcpSocket.Socket.DoWrite | lib/asio_reactor/tcp/socket.h:66-71 | a wait is armed exactly when none is and bytes are queued |
| TcpSocket.Socket.Close | lib/asio_reactor/tcp/socket.h:32-38 | flags and both buffers reset, live waits become stale |
| TcpSocket.Socket.OnWritable | lib/asio_reactor/tcp/socket.h:71-91 | the write handler with its send loop is the transition `Handle`, for any answers of the operating system; what it does to the buffer are the removals of what was sent; a failure leaves nothing queued and no live wait |
| TcpSocket.Socket.WaitFired | lib/asio_reactor/tcp/socket.h:71-91 | a completion, of this epoch or a stale one, is one step of the write protocol |
| TcpSocket.Socket.OnReadable | lib/asio_reactor/tcp/socket.h:43-62 | the read handler with its receive loop is `ReadLoop`; a failure closes the socket |
| TcpSocket.DrainSplits | lib/asio_reactor/tcp/socket.h:76-88 | bytes sent followed by bytes kept are the send buffer, for any partial sends |
| TcpSocket.DrainAmount | lib/asio_reactor/tcp/socket.h:76-88 | the send loop takes what the answers up to the first error allow, and fails exactly when it reaches an error other than would-block |
| TcpSocket.ReadAmount | lib/asio_reactor/tcp/socket.h:48-61 | the receive loop takes what the answers up to the first error allow, and fails exactly on an error other than would-block, unless a framing loop hangs |
| TcpSocket.RunSound | lib/asio_reactor/tcp/socket.h:66-94 | over every run transmitted + queued = flushed, and a non-empty queue always has a wait armed |
| TcpSocket.OneWaitKeptIff | lib/asio_reactor/tcp/socket.h:66-94 | one step keeps "SENDING exactly when one wait is live" if and only if it is not an intruding stale completion |
| TcpSocket.RunOneWait | lib/asio_reactor/tcp/socket.h:66-94 | over every run without intruding completions at most one write wait is live and SENDING says whether |
| TcpSocket.TwoWaitsWitness | lib/asio_reactor/tcp/socket.h:32-38 | a concrete run with two live waits |
| TcpSocket.ReadLoopParses | lib/asio_reactor/tcp/socket.h:48-61 | however receives are cut, the packets delivered are those of one `on_read` on all bytes taken |
| Connection.SendPacket | lib/simple/reactor/connection.h:69-74 | a packet filled by any program of nested writers and sent is one flush of one frame in the write protocol |
| Connection.AbandonPacket | lib/simple/reactor/connection.h:60-62 | a packet opened, filled and abandoned is no step of the write protocol |
| Connection.SendReader | lib/simple/reactor/connection.h:64-68 | sending a top-level reader is one flush of one frame around its unread rest |
| Delivery.DeliveredInOrder | lib/simple/reactor/connection.h:64-91 | in every run, closes and stale completions included, packets delivered are a prefix of packets sent |
| Delivery.NothingLost | lib/asio_reactor/tcp/socket.h:41-94 | with both sides open and buffer and wire empty, everything sent has been delivered and no byte is left over |
| Delivery.CanFinish | lib/asio_reactor/tcp/socket.h:41-94 | from every state of an open run a write and a read completion deliver everything sent |
| Delivery.RunInv | lib/asio_reactor/tcp/socket.h:41-94 | frames delivered, bytes received and bytes in flight together are the bytes transmitted, in every run |
| Link.Link.Perform | lib/asio_reactor/tcp/socket.h:41-94 | the handlers of two sockets, started in any order, perform exactly the steps of the delivery protocol, so the packets delivered stay the first ones sent |
| Packets.Writer.Flush | lib/simple/reactor/packet.h:89-94 | the length is patched in at the head and added with its header to the enclosing writer |
| Packets.Writer.Destroy | lib/simple/reactor/packet.h:74-82 | header and length bytes are taken off the back exactly when the placeholder is still there |
| RingArithmetic.AndIsMod | lib/simple/reactor/buffer/circle.h:128-130 | a mask of ones takes the remainder by the ring size |
| RingArithmetic.CountBetweenIs | lib/simple/reactor/buffer/circle.h:128-130 | the masked difference counts the bytes, wherever the tail has gone in `size_t` |
| RingArithmetic.ContiguousSpaceIs | lib/simple/reactor/buffer/circle.h:137-141 | asked at any place, the answer depends on the tail and not on what the array has behind that place |
| RingArithmetic.LandsIff | lib/simple/reactor/buffer/circle.h:109-113 | chunks that double fill a stretch exactly when it is 2^k - 1 times the first |
| RingArithmetic.TailBack | lib/simple/reactor/buffer/circle.h:63-68 | the tail moved back below zero in `size_t` still marks the end of the bytes left |
| Ring.Circle.Front | lib/simple/reactor/buffer/circle.h:40-47 | what `send` is given is a prefix of the contents, empty only with them |
| Ring.Circle.Read | lib/simple/reactor/buffer/circle.h:71-94 | a read at an offset returns the bytes there, or throws exactly where there are too few |
| Ring.Circle.ReadFront | lib/simple/reactor/buffer/circle.h:71-94 | a read at no offset returns the first bytes and consumes them, wherever the array ends, or throws and changes nothing |
| Ring.Circle.Remove | lib/simple/reactor/buffer/circle.h:59-61 | the first bytes go |
| Ring.Circle.RemoveFromBack | lib/simple/reactor/buffer/circle.h:63-68 | the last bytes go, as many as the count modulo 2^32 |
| Ring.Circle.Place | lib/simple/reactor/buffer/circle.h:107-114 | the recursion of a write returns with the bytes in place exactly when they can be stored, and otherwise never returns or passes the end of the array |
| Ring.Circle.Expand | lib/simple/reactor/buffer/circle.h:144-161 | a ring four times the size with the same bytes, or an exception at the maximum |
| Ring.Circle.Append | lib/simple/reactor/buffer/circle.h:96-115 | room is made exactly where a size below the maximum offers it; the outcome of the write and, when it returns, the bytes added |
| Ring.Circle.Overwrite | lib/simple/reactor/buffer/circle.h:96-115 | the outcome of a write at an offset and, when it returns, the bytes replaced |
| Ring.Circle.AppendRange | lib/simple/reactor/buffer/circle.h:117-125 | a range of another ring comes out as the writes of its one or two stretches do; when they return it is added as far as that ring goes |
| Ring.Circle.Receive | lib/asio_reactor/tcp/socket.h:48-52 | bytes received behind the tail are added in order: all that are available, or as many as lie before the end of the array or the last free place |
| Ring.AppendingIff | lib/simple/reactor/buffer/circle.h:96-115 | a write at the end throws exactly where no size below the maximum has the room, and otherwise returns exactly when the bytes can be stored |
| Ring.OverwritingIff | lib/simple/reactor/buffer/circle.h:96-115 | a write at an offset throws exactly where it passes the end of the contents, and otherwise returns exactly when the bytes can be stored |
| Ring.RoomyLeast | lib/simple/reactor/buffer/circle.h:144-161 | a ring grows only where it must, fourfold and no further |
| Ring.StoresIff | lib/simple/reactor/buffer/circle.h:109-114 | a write succeeds if and only if there is a free place, and the array does not end inside it or ends after 2^k - 1 times the free places |
| Ring.StoresFromZero | lib/simple/reactor/buffer/circle.h:109-114 | with nothing removed from the front only a write from the front of a full ring fails |
| Ring.ShortWrapFails | lib/simple/reactor/buffer/circle.h:109-114 | a write that wraps fails where the array ends before the free places would |
| Ring.DefaultReach | lib/simple/reactor/buffer/circle.h:144-148 | a buffer of 1024 and a maximum of 409600 comes to hold fewer than 262144 bytes |
| RingRuns.RunBoth | lib/simple/reactor/buffer/buffer.h:78-123 | every run of writes, reads, receives and removals comes out as its counts say; the ring shows what the byte sequence shows and, when all returns, holds its bytes |
| RingRuns.RangeAsRun | lib/simple/reactor/buffer/circle.h:117-125 | copying a range of another ring is a run of one or two writes |
| RingRuns.FirstLap | lib/simple/reactor/buffer/circle.h:96-115 | runs in which head, contents and all bytes put in stay below the array's size by two never overrun, recurse without end or lack space |
| RingPackets.StepGains | lib/simple/reactor/packet.h:56-102 | the operations that a program of nested writers performs on its buffer keep the rule of the ring, and a ring that carries them gains the bytes kept |
| RingPackets.SendsKept | lib/asio_reactor/tcp/socket.h:66-91 | where the ring carries a run of packets and partial sends, bytes taken followed by bytes held are what was held and the frames of the packets, in order |
| RingPackets.CarriedInOrder | lib/simple/reactor/connection.h:64-91 | then the packets cut from any part of the bytes taken are the first ones sent |
| RingRuns.OverrunWitness | lib/simple/reactor/buffer/circle.h:109-114 | 1022 bytes written and removed, and a header that then passes the end of the array |
| RingRuns.EndlessWitness | lib/simple/reactor/buffer/circle.h:109-114 | 1023 bytes written to an empty ring of 1024 never return |
| ReactorBuffer.ByteBuffer.AppendRange | lib/simple/reactor/buffer/circle.h:117-125 | a range of another buffer is copied as far as that buffer goes, and what is missing is not reported |
| Packets.Writer.PutReader | lib/simple/reactor/packet.h:103-108 | what the received buffer holds of the range is appended, and the full range is added to the length |
| Packets.Write | lib/simple/reactor/packet.h:56-102 | whatever is put, flushed and abandoned inside an open writer, the buffer gains exactly the bytes kept, the length stays exact, and the operations on the buffer are those of `Packets.Steps` |
| Packets.WriteChild | lib/simple/reactor/packet.h:64-67 | a nested writer appends a placeholder, writes its program and overwrites or takes back the placeholder: one frame more, or nothing and the enclosing length as it was |
| Packets.WritePacket | lib/simple/reactor/packet.h:60-94 | a top-level writer leaves one frame around its body, or the buffer as before its construction |
| Packets.AbandonedLeaveNoTrace | lib/simple/reactor/packet.h:74-82 | removing all abandoned children at every depth changes no byte of the result |
| Packets.OpenNested | lib/simple/reactor/packet.h:31-36 | a nested reader takes the next sub-packet and moves the outer reader past it; a short buffer throws and moves nothing |
| PacketTrees.Walk | lib/simple/reactor/packet.h:26-36 | nested readers recover the tree written, and the reader of every packet that holds sub-packets ends exactly at the end of its frame |
| PacketTrees.WriteThenWalk | lib/simple/reactor/packet.h:26-101 | writing any tree with nested writers and walking the buffer gives the same tree |
| PacketTrees.BytesDetermineTree | lib/simple/reactor/packet.h:89-94 | two trees of one shape with the same bytes are equal |
| PacketTrees.ExtractTwo | lib/simple/reactor/packet.h:38-43 | of two values of any sizes, a second `>>` returns the first bytes of both together, so it is right exactly when the second value is a prefix of the two |
| PacketTrees.ForwardLengthIs | lib/simple/reactor/packet.h:104 | the computed length falls short of the unread rest by the position of the packet, or wraps around 2^64 |
| PacketTrees.ForwardsUnreadIff | lib/simple/reactor/packet.h:104 | the computed length is the unread rest if and only if the packet starts the buffer |
| PacketTrees.Forward | lib/simple/reactor/connection.h:64-68 | any reader goes out as its computed length and the bytes available for it, less three bytes where that length marks an abandoned packet; this is one frame around its unread rest if and only if its packet starts the buffer |
| PacketTrees.RelayedIff | lib/simple/reactor/packet.h:103-108 | header and bytes sent are one frame around the unread rest if and only if the packet starts the buffer |
| PacketTrees.ForwardFirstChild | lib/simple/reactor/packet.h:31-36 | the only sub-packet of any packet, opened and forwarded, goes out without its last four bytes, or under a wrapped length where it has fewer; of three bytes only that header remains |
| PacketTrees.NestedForwardWitness | lib/simple/reactor/packet.h:103-108 | a sub-packet cut from five bytes to one, and two bytes sent under the length 2^32 - 2 |
| PacketTrees.FreshReaderForwardsFrame | lib/simple/reactor/packet.h:103-108 | for a fresh top-level reader that frame is the received frame |
| Lifecycle.Connection.Connected | lib/simple/reactor/connection.h:40-46 | the transition, its callback with all it calls, and the exception where the socket is closed by then |
| Lifecycle.Connection.Disconnect | lib/simple/reactor/connection.h:50-56 | the re-entrant `on_close` fires nothing; `on_disconnected` fires once |
| Lifecycle.Connection.Closed | lib/simple/reactor/connection.h:96-101 | `on_close` fires only from CONNECTED |
| Lifecycle.Connection.TcpConnect | lib/asio_reactor/tcp/connector.h:30-34 | close with its callback, then CONNECTING on a socket that is opened if it is not open |
| Lifecycle.Connection.ReopenDatagram | lib/asio_reactor/kcp/connector.h:37-45 | close, open and bind: an open socket, a failed open or a failed bind throws before CONNECTING is entered |
| Lifecycle.Connection.Dispatch | lib/asio_reactor/kcp/connector.h:37-58 | each call is its transition; the datagram connectors settle the outcome before `connect` returns |
| Lifecycle.Connection.Completed | lib/asio_reactor/tcp/connector.h:35-39 | a successful completion enters the connection; a failed one on an attempt under way leaves it disconnected, the socket closed, `on_disconnected` called |
| Lifecycle.CompletedUnfolds | lib/simple/reactor/connection.h:40-56 | `connected()` and `disconnect()` act unless they are late, then their callback's calls run, and the completion of an attempt is one of them |
| Lifecycle.FailedAttemptEnds | lib/asio_reactor/tcp/connector.h:37-38 | a failed attempt ends disconnected, its socket closed, with an `on_disconnected` of its own |
| Lifecycle.DatagramUnfolds | lib/asio_reactor/kcp/connector.h:45-58 | a datagram `connect` whose attempt is under way ends as the completion of that attempt |
| Lifecycle.TcpConnectLeaves | lib/asio_reactor/tcp/connector.h:30-34 | a TCP `connect` leaves an attempt under way on an open socket, unless the callback for the lost connection throws |
| Lifecycle.AllKept | lib/simple/reactor/connection.h:40-101 | every run, from any state with these properties, keeps them: entries and departures alternate, each step has its callback beside it, and unannounced departures come from `connecting()` on CONNECTED alone |
| Lifecycle.OrderlyIsAnswered | lib/simple/reactor/connection.h:40-56 | in such a log every entry, departure and given-up attempt is followed by its own callback, and every callback follows its own step |
| Lifecycle.OrderlyCounts | lib/simple/reactor/connection.h:40-56 | in such a log the callbacks are as many as the steps they belong to |
| Lifecycle.EachDepartureAnnounced | lib/simple/reactor/connection.h:50-56 | in every run each departure and each given-up attempt has an `on_disconnected` of its own, there are no others, and `on_connected` calls exceed departures by one exactly when connected |
| Lifecycle.SilentCount | lib/simple/reactor/connection.h:47-49 | in every run, `on_connected` calls exceed the present connection and the `on_disconnected` calls for departures by the number of `connecting()` calls, at any depth, that found the connection connected |
| Lifecycle.NoSilentDeparture | lib/asio_reactor/tcp/connector.h:30-40 | runs of one connector or accepted connection have no silent departure, marked or counted: connects, completions (stale ones too), disconnects and closes, with callbacks making the same calls to any depth and exceptions anywhere |
| Lifecycle.ReopenThrowsIff | lib/asio_reactor/kcp/connector.h:37-45 | `connect` throws before its attempt if and only if `open` or `bind` fails, or the connection was connected and its callback threw or left the socket open |
| Lifecycle.ReopenLeaves | lib/asio_reactor/kcp/connector.h:37-45 | then the connection is as the callback left it; otherwise an attempt is under way on an open socket |
| Lifecycle.FailedReconnectThrows | lib/asio_reactor/kcp/connector.h:37-45 | a concrete run: a callback whose `bind` fails leaves the socket open and the connection down |
| Lifecycle.ReentrantReconnectThrows | deps/asio/include/asio/detail/impl/reactive_socket_service_base.ipp:175-179 | a concrete run: the inner connection stands and the outer `connect` throws |
| Lifecycle.DirectConnectingDrops | lib/simple/reactor/connection.h:47-49 | a concrete run with a silent departure |
| TcpSession.StepProjects | lib/asio_reactor/tcp/connector.h:30-40 | each step of the composed machines is a run of the connection, as a TCP connector makes them, and of the sender |
| TcpSession.RunAnnounces | lib/asio_reactor/tcp/connector.h:30-40 | no run of the composed machines drops a connection in silence |
| TcpSession.ReadFailsIs | lib/asio_reactor/tcp/socket.h:48-61 | the read loop fails exactly when its first receive that stops it reports an error other than would-block |
| TcpSession.RunKept | lib/asio_reactor/tcp/socket.h:26-94 | in every run the sender counts exactly its write waits, watched or about to run, by epoch, and a connected open socket has a read wait |
| TcpSession.QueuedIsServed | lib/asio_reactor/tcp/socket.h:66-91 | in every run bytes queued have a write wait watched or a handler about to run |
| Outcomes.EntriesAreSuccesses | lib/asio_reactor/tcp/connector.h:34-39 | in every run CONNECTED is entered at most as often as the operating system reported a successful connect |
| Outcomes.FailedConnect | lib/asio_reactor/tcp/connector.h:34-39 | after a connect that fails, no run without another `connect` is connected |
| Outcomes.FailureHandled | lib/asio_reactor/tcp/connector.h:37-38 | once the handler of a failed connect has run, the attempt has its own `on_disconnected` and everything is cancelled |
| Outcomes.SuccessHandled | lib/asio_reactor/tcp/connector.h:35-36 | the handler of a successful connect enters the connection and starts to read |
| Outcomes.FailureCloses | lib/asio_reactor/tcp/socket.h:43-47 | a failed read or write handler closes the socket, and a connected connection announces its departure |
| Reconnect.CanSucceedIff | lib/asio_reactor/tcp/connector.h:30-40 | from any state, a run in which the attempt succeeds exists if and only if it was begun with no wait watched, no failed handler pending and no failure of its own |
| Reconnect.ConnectedCannotReconnect | lib/asio_reactor/tcp/socket.h:43-47 | `connect` on a connected connection whose read wait is still watched never succeeds, whatever happens afterwards |
| Intruders.OneWaitKeptIff | lib/asio_reactor/tcp/socket.h:66-94 | a step of the composed machines keeps one live write wait if and only if no write handler of an earlier epoch succeeds in it while this one is sending |
| Intruders.CleanKeptIff | lib/asio_reactor/tcp/socket.h:32-38 | such handlers come about if and only if a step closes the socket while a write handler that will succeed is pending |
| Intruders.RunClean | lib/asio_reactor/tcp/socket.h:66-94 | runs without such steps keep one live write wait |
| Intruders.UncleanIntrudes | lib/asio_reactor/tcp/socket.h:66-94 | once there is such a handler, a run of the event loop and one send leads to it while sending |
| Intruders.TwoWaitsWitness | lib/asio_reactor/tcp/connector.h:30-34 | a run from the start, with a reconnect, after which two write waits are live |
| DatagramSession.StepProjects | lib/asio_reactor/kcp/connector.h:37-58 | each step of connection, socket and event loop is a run of the connection, as a datagram connector makes them |
| DatagramSession.RunAnnounces | lib/asio_reactor/kcp/connector.h:37-58 | no such run drops a connection in silence |
| DatagramSession.RunReceives | lib/asio_reactor/udp/socket.h:36-49 | in every run whose handlers all ask for another receive, a connection on an open socket has one under way or its handler about to run |
| DatagramSession.FailedReceive | lib/asio_reactor/udp/socket.h:39-42 | a receive that fails takes the connection down once its handler has run, in every run |
| DatagramSession.GoodReceive | lib/asio_reactor/udp/socket.h:43-46 | a datagram received leaves the connection as it was, with another receive under way |
| DatagramSession.Connector.Report | lib/asio_reactor/udp/socket.h:39-47 | a receive reported is taken off and its handler posted last, with the answer of the operating system |
| DatagramSession.CanSettleIff | lib/asio_reactor/udp/socket.h:31-49 | from any state, a new connection can outlast the handlers from before it if and only if no receive was under way, no failed handler was pending, and `connect` and its sends succeed |
| DatagramSession.ReconnectIsLost | lib/asio_reactor/udp/socket.h:36-49 | a connection made while a receive was under way is down once the handlers left behind have run, in every run |
| DatagramSession.Connector.Perform | lib/asio_reactor/kcp/connector.h:37-58 | the calls and the receive handler on the connection object are the steps |
| TcpConnector.Connector.Perform | lib/asio_reactor/tcp/socket.h:26-94 | every step of event loop and program on the two objects is the step of the composed machines, unless a framing loop hangs |
| TcpConnector.Connector.Report | lib/asio_reactor/tcp/connector.h:34-39 | the wait that the reactor reports is taken off and its handler posted last, with the answer of the operating system |
| TcpConnector.Connector.Connect | lib/asio_reactor/tcp/connector.h:30-40 | close, CONNECTING and `async_connect` on connection and socket are the step |
| TcpConnector.Connector.Disconnect | lib/simple/reactor/connection.h:50-56 | likewise |
| TcpConnector.Connector.Send | lib/asio_reactor/tcp/socket.h:66-71 | bytes flushed start a write wait exactly where the step does |
| TcpConnector.Connector.RunHandler | lib/asio_reactor/tcp/socket.h:43-91 | the read, write and connect handlers, of this epoch or stale ones, are the step, unless a framing loop hangs |
| KcpAcceptor.SearchIsFirstFree | lib/asio_reactor/kcp/acceptor.h:85-91 | the id returned is non-zero, unused and the first such in cyclic order |
| KcpAcceptor.SearchStops | lib/asio_reactor/kcp/acceptor.h:85-91 | with an id free the search stops within one call more than there are ids in use, across the wrap-around too |
| KcpAcceptor.SearchStopsIff | lib/asio_reactor/kcp/acceptor.h:85-91 | it stops if and only if fewer than 2^32 - 1 ids are in use |
| KcpAcceptor.Acceptor.GetConv | lib/asio_reactor/kcp/acceptor.h:85-91 | the recursion returns what the search finds and leaves the counter there |
| KcpAcceptor.Acceptor.IsAccepted | lib/asio_reactor/udp/acceptor.h:37-44 | true exactly when the endpoint is listed |
| KcpAcceptor.Acceptor.CloseEndpoint | lib/asio_reactor/udp/acceptor.h:47-54 | the first equal entry is erased and nothing else |
| KcpAcceptor.Acceptor.OnArrival | lib/asio_reactor/kcp/acceptor.h:40-62 | a datagram from an unlisted endpoint to which connecting back succeeds lists exactly that endpoint, under an id that was unused and non-zero; any other changes nothing |
| KcpAcceptor.RunAccepted | lib/asio_reactor/kcp/acceptor.h:40-82 | in every run the endpoints accepted are exactly those that arrived, connected and have not been closed since |
| KcpAcceptor.Acceptor.Close | lib/asio_reactor/kcp/acceptor.h:79-82 | both entries of the conversation go, and the tables stay paired |
| KcpAcceptor.CloseErasesItsEntry | lib/asio_reactor/kcp/acceptor.h:48-51 | erasing the first match erases exactly the entry made for the closed conversation |
| KcpAcceptor.RunPaired | lib/asio_reactor/kcp/acceptor.h:40-82 | list and table are in one-to-one correspondence without duplicates in every run |
| Buffers.BufferSize | deps/asio/include/asio/buffer.hpp:544-557 | the loop returns the number of flat bytes |
| Buffers.FlatAt | deps/asio/include/asio/buffer.hpp:581-586 | the flat bytes are the memory at the addresses of the buffers in order |
| BufferCopy.CopyOne | deps/asio/include/asio/buffer.hpp:1916-1926 | the smaller size is moved as by `memcpy` |
| BufferCopy.CopyBlock | deps/asio/include/asio/buffer.hpp:1923-1924 | a block moved at once is the block moved byte by byte |
| BufferCopy.CopyManyToMany | deps/asio/include/asio/buffer.hpp:2036-2082 | terminates for any empty buffers, returns the least of the totals and the limit, and leaves memory as the byte-by-byte copy does |
| BufferCopy.CopyAllManyToMany | deps/asio/include/asio/buffer.hpp:1992-2034 | the same without a limit |
| BufferCopy.CopyOneToOne | deps/asio/include/asio/buffer.hpp:1936-1944 | the same for single buffers |
| BufferCopy.CopyAllOneToOne | deps/asio/include/asio/buffer.hpp:1928-1934 | the same for single buffers without a limit |
| BufferCopy.CopyManyToOne | deps/asio/include/asio/buffer.hpp:1946-1967 | the same for many sources and one target |
| BufferCopy.CopyOneToMany | deps/asio/include/asio/buffer.hpp:1969-1990 | the same for one source and many targets |
| BufferCopy.CopiedFlat | deps/asio/include/asio/buffer.hpp:1886-1911 | the flat target becomes the source's prefix and then its own bytes; every other address keeps its byte |
| BufferCopy.SameFlatSameResult | deps/asio/include/asio/buffer.hpp:1928-2082 | equal flat bytes give equal counts and, under every limit, equal flat results however they are cut into buffers |
| BuffersIterator.OnByteUnique | deps/asio/include/asio/buffers_iterator.hpp:493-498 | at most one cursor stands on a flat position |
| BuffersIterator.OnByteExists | deps/asio/include/asio/buffers_iterator.hpp:493-498 | every position up to the total has a cursor |
| BuffersIterator.Iterator.Begin | deps/asio/include/asio/buffers_iterator.hpp:167-184 | the cursor of position zero |
| BuffersIterator.Iterator.End | deps/asio/include/asio/buffers_iterator.hpp:187-203 | the cursor of the total |
| BuffersIterator.Iterator.Dereference | deps/asio/include/asio/buffers_iterator.hpp:341-345 | the byte of the flat sequence at the position |
| BuffersIterator.Iterator.Increment | deps/asio/include/asio/buffers_iterator.hpp:354-374 | the cursor of the next position |
| BuffersIterator.Iterator.Decrement | deps/asio/include/asio/buffers_iterator.hpp:377-404 | the cursor of the previous position |
| BuffersIterator.Iterator.Advance | deps/asio/include/asio/buffers_iterator.hpp:407-485 | the cursor of the position moved by n, either way; no bounds assertion fails |
| BuffersIterator.PositionDeterminesState | deps/asio/include/asio/buffers_iterator.hpp:348-351 | equal positions mean equal states, but for the unread buffer at the end |
| BuffersIterator.Iterator.Equal | deps/asio/include/asio/buffers_iterator.hpp:348-351 | comparing positions compares the places in the buffers |
| BuffersIterator.AdvanceTo | deps/asio/include/asio/buffers_iterator.hpp:488-491 | advancing by the distance to another iterator makes the two equal |
| BuffersIterator.CopyRange | deps/asio/include/asio/buffers_iterator.hpp:341-374 | stepping from one iterator to another reads the flat bytes between them, each once and in order, as many as the distance |
| BuffersIterator.Traverse | deps/asio/include/asio/buffers_iterator.hpp:167-203 | from begin to end: all the flat bytes |
| BuffersIterator.AdvanceTwice | deps/asio/include/asio/buffers_iterator.hpp:407-485 | two advances end where their sum does |
| BuffersIterator.IncrementMany | deps/asio/include/asio/buffers_iterator.hpp:354-374 | n increments end where an advance by n does |
| BuffersIterator.StepAndBack | deps/asio/include/asio/buffers_iterator.hpp:354-404 | a decrement undoes an increment |
| BuffersIterator.BackAndStep | deps/asio/include/asio/buffers_iterator.hpp:354-404 | an increment undoes a decrement |
| ByteQueue.RunConserves | deps/asio/include/asio/basic_streambuf.hpp:221-254 | what was there and what entered is what left and what is there, in order |
| ByteQueue.RunBounded | deps/asio/include/asio/basic_streambuf.hpp:163-171 | no run takes the queue over its maximum size |
| ByteQueue.WrittenRunExpects | deps/asio/include/asio/basic_streambuf.hpp:233-238 | where only written bytes are committed, nothing indeterminate is ever seen |
| ByteQueue.SeenAlike | deps/asio/include/asio/basic_streambuf.hpp:221-254 | two buffers that both show what the queue shows then show the same |
| Bytes.IntCastIff | deps/asio/include/asio/basic_streambuf.hpp:236 | the cast keeps a count exactly up to 2^31 - 1 |
| StreamBuf.StreamBuf.Reserve | deps/asio/include/asio/basic_streambuf.hpp:308-346 | fails exactly when size() + n exceeds the maximum; success keeps the contents and gives room for n; failure leaves the pointers and moves the bytes |
| StreamBuf.StreamBuf.Commit | deps/asio/include/asio/basic_streambuf.hpp:233-238 | the next output bytes join the input; the move is exact if and only if it fits an `int` |
| StreamBuf.StreamBuf.Consume | deps/asio/include/asio/basic_streambuf.hpp:247-254 | at most n bytes leave the front; the move is exact if and only if it fits an `int` |
| StreamBuf.StreamBuf.Underflow | deps/asio/include/asio/basic_streambuf.hpp:263-274 | the first byte, with the read limit brought up to the write pointer |
| StreamBuf.StreamBuf.Overflow | deps/asio/include/asio/basic_streambuf.hpp:283-306 | a put into a full put area fails exactly when the size is the maximum |
| StreamBuf.StreamBuf.ReadSizeHelper | deps/asio/include/asio/basic_streambuf.hpp:353-359 | the largest size within the limit and the maximum that is at most 512 or fits the capacity; zero only where the limit or the room is |
| StreamBuf.FailureKeepsContentsIff | deps/asio/include/asio/basic_streambuf.hpp:322-340 | a failed `reserve` keeps the contents if and only if the get pointer is at the start, or has passed at least as many bytes as are held, or the bytes repeat with that period |
| StreamBuf.FailureCorruptsWitness | deps/asio/include/asio/basic_streambuf.hpp:322-340 | five puts, a consume and a failing `prepare` on a buffer of five leave other contents |
| DynamicBuffer.DynamicBuffer.Prepare | deps/asio/include/asio/buffer.hpp:1628-1639 | fails exactly when size() + n exceeds the maximum, and then changes nothing |
| DynamicBuffer.DynamicBuffer.Commit | deps/asio/include/asio/buffer.hpp:1653-1657 | the next prepared bytes join the input and the rest is dropped |
| DynamicBuffer.DynamicBuffer.Consume | deps/asio/include/asio/buffer.hpp:1666-1671 | at most n bytes leave the front |
| DynamicBufferRuns.RunStream | deps/asio/include/asio/basic_streambuf.hpp:214-346 | every run that commits no more than it prepared, puts and reads included, shows what the bounded queue shows, up to the first failure |
| DynamicBufferRuns.RunDynamic | deps/asio/include/asio/buffer.hpp:1607-1671 | the same for the string buffer, and for the vector buffer at 1758-1822 |
| DynamicBufferRuns.SameObservations | deps/asio/include/asio/buffer.hpp:1758-1822 | on such runs the three dynamic buffers fail at the same call and have the same sizes and the same written bytes; where only written bytes are committed they show the same |
| DynamicBufferRuns.PrepareSuggested | deps/asio/include/asio/basic_streambuf.hpp:353-359 | preparing the suggested size never fails, keeps the contents and gives that much room, none only where the limit or the room is none |

## Left out

- ReactorBuffer.ByteBuffer: packets, connections and sockets are proved over a byte sequence that grows without a maximum. The ring goes through the states of that sequence as long as its operations return (`RingRuns.RunBoth`), and `RingPackets` carries packets and sends over to such runs; what happens above the ring otherwise, and `buffer/array.h` and `buffer/bip.h`, are not modelled. A range copied from another buffer is recorded as one operation; on rings it is one or two (`RingRuns.RangeAsRun`).
- Ring.Circle.Append: ring sizes and maxima are at most 2^30, where the `int` arithmetic of the code is exact; offsets plus counts do not wrap around `size_t`. After a store behind the array nothing is said of the ring.
- Ring.Circle.AppendRange: a range that starts past the end of the other ring, and one of the ring itself, are not modelled.
- Packets.WritePacket: the buffer, abandoned bytes included, is taken to stay below 2^32 bytes, since heads and lengths are `uint32`; `buffer::buffer<>` grows to 262144.
- Packets.Write: writers are used last in, first out within one handler, as scopes enforce for locals; writers destroyed out of order are not modelled.
- TcpSocket.Socket.Close: the call back into `on_close` is in `Lifecycle`; `TcpSession` composes the two.
- TcpSocket.Socket.OnReadable: `on_recv` is taken not to close its own connection, and the read wait that is armed again afterwards is in `TcpSession`.
- Delivery.DeliveredInOrder: packets longer than 2^32 - 5 bytes are not sent; the network is the reliable byte stream of TCP within one epoch.
- DynamicBufferRuns.SameObservations: counts passed to `commit` and `consume` fit an `int`, and pointer arithmetic does not overflow.
- BufferCopy.CopyManyToMany: sizes are unbounded integers; no sum of sizes wraps around `size_t`. Target buffers may overlap each other, but no target overlaps a source, as `memcpy` demands.
- BuffersIterator.Iterator.Advance: positions do not wrap around `size_t`, and writing through a dereferenced iterator is not modelled.
- Lifecycle.Connection.CloseSocket: closing a descriptor is taken not to fail. A send failure inside `open` of a UDP socket is a close that follows `connected`.
- Lifecycle.NoSilentDeparture: callbacks do not run the event loop, so completions come from outside them; one program drives one connection through one connector.
- TcpSession.StepProjects: handlers run in the order in which they were posted, and a cancelled wait is posted at the close. Callbacks do not call back within a step: one that reconnects after a loss is a step of its own, and one that reconnects from within `connected` or the close in `connect` is in `Lifecycle` alone. What is received is in `TcpSocket` and `Delivery`.
- DatagramSession.StepProjects: the same holds of its handlers and callbacks. What the datagrams carry, the KCP library and its timer are not modelled; a send that fails is a close.
- KcpAcceptor.Acceptor.OnArrival: the sockets stored in the table are represented by the endpoint they serve; opening, binding and connecting them is one outcome. With all ids live `get_conv` does not return, and no step follows.
- `asio` socket, acceptor, timer and signal wrappers, the executor machinery and the coroutine macros: they forward to services or carry no data invariant.
- `kcp::socket` and the KCP library, and the wrap-around send of `udp::socket`: they rest on the KCP library and on `send` of the operating system.
- The reactor manager, the timers and the demo programs: clocks, signals and console output.
- `std::streambuf` members other than `sputc`, `sgetc` and `sbumpc`, and `overflow` called with end-of-file, which changes nothing.
- `connection::send` with a writer on another buffer, which does nothing.
