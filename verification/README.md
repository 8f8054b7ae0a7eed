# Verification model of hlib

This project models the stateful and algorithmic core of hlib, a C++ utility library for
event-driven programs, and proves properties of the model. One module stands for one component:

- **The streaming engine** (`Stream`, `StreamHistory`, `StreamRuns`, `StreamTheorems`, `StreamCallbacks`, `EndToEnd`;
  classes in `SourceSink`, `EventLoops`, `FileDescriptorIo`). `FileDescriptorIO` drains a queue of
  sources by partial writes and fills bounded or minimal sinks by partial reads, keeping an event
  mask in step. The class is proved to change its fields exactly as the functions of `Stream` say.
  `StreamRuns` makes a step machine of these functions: user calls, `open()` and `close()` included,
  interleave with the locked regions of the event handler, also between the delivery of an event and
  its handler, and the kernel chooses which events are delivered, how many bytes are available, read
  and accepted, and which calls fail. The theorems hold for every run. `Callbacks` is a reference of
  what a user who sees the calls and the kernel's answers expects to be told; every run agrees with it.
- **Socket** (`SocketStream`, `SocketRuns`, `SocketTheorems`, `SocketCallbacks`, class in `SocketObject`): the same engine
  behind a connecting phase, whose one unlocked region (`onConnect`) is two steps. Conditions are
  stated over the steps of a run alone, by the function `Observed`.
- **Buffer** (`Searching`, `Buffers`, `Framing`): a growable byte array edited by overlapping moves,
  refining a byte sequence, and sentinel extraction as a stream framer.
- **URIs** (`Text`, `UriSplit`, `Uri`, `UriParsing`, `UriRoundTrip`): parser and printer, with the split of
  appendix B of RFC 3986 and the recomposition of its section 5.3.
- **Codecs and strings** (`Base64`, `Masks`, `Endian`, `Serial`, `Strings`): Base64 against section 4 of
  RFC 4648, big- and little-endian serialization of arbitrary schemas, `count`, `split`, `join`.
- **Event queue and bus** (`EventQueues`, `EventBusSpec`, `EventBusObject`, `EventSystem`): the queue
  object follows its protocol, every run of the bus object pushes what it owes, and in the system of
  both every queue gets exactly what the bus owes it.
- **State machine and time** (`Fsm`, `Time`).

Bytes are integers from 0 to 255, so masks, shifts and "or" of disjoint fields appear as `/`, `%`
and `+`. What the system decides is a parameter: `granted` is the allocator's answer, `live` the
subscriptions whose queue still existed when the bus looked, `ReadResult` and the `size` of a write
are the kernel's answers, `filler` is whatever freshly grown storage holds.

## What does not hold, and exactly when

Where the code does not do what its documentation or assertions promise, the model follows the code,
a lemma gives an input or a run, and another states when the promise is kept.

- The handler's assertions on `FileDescriptorIO` fail if another thread withdraws the sink, or closes,
  between the delivery of an event and its handler. The one on the sink holds if and only if the last
  call in between to set or drop the sink, if any, installed one; the one on the queue, if and only if
  no `open()` or `close()` came in between or a `write()` after it (`ReadAssertionExact`,
  `WriteAssertionExact`, `ReadAssertionCanFail`, `WriteAssertionCanFail` in `StreamTheorems`).
- At end of file a sink is handed back intact if and only if it had no headroom; a minimal sink that
  already held bytes comes back extended by as many bytes that were never read (`EndOfFileExact`).
- A Socket watches for readability from the start, so data that arrives before the first `receive()`
  trips the assertion on the sink. When the handler treats a read event the assertion holds if and only
  if the last of the calls that set or drop the sink, the end of a connection included, installed one;
  this covers calls before the connection, inside `onConnect` and between delivery and handler
  (`ReadAssertionExact`, `ReadBeforeReceive` in `SocketTheorems`; `WriteAssertionExact` for the queue).
- Sources queued on a Socket before `connect()` or `open()` leave the connection without write interest.
  Nothing is sent on it, unless a write event delivered before is handled only now (on the descriptor
  number of the old connection): then what that event sends of the front source is all, and only if
  that empties a queue of one does the write interest follow the queue from then on. With nothing
  queued before, it always does (`WriteInterestExact`, `QueuedBefore`, `SendBeforeConnectStrands`,
  `StaleWriteEventSends`).
- Calls from another thread inside `onConnect`: the loop watches the mask if and only if none of them is
  the first `send()` and the last `receive()` among them, if any, agrees with the last one before. A
  queued source loses its wakeup exactly when the first `send()` comes in that window (or was made
  before `connect()`), an installed sink exactly when the sink was withdrawn before and installed
  inside; a sink withdrawn inside leaves readability watched for without a sink, which trips the
  assertion (`OnConnectRaceExact`, `OnConnectRaceLosesWakeup`).
- A backslash ends a scheme or an authority: in a bracket expression of POSIX extended regular
  expressions (section 9.3.5 of IEEE Std 1003.1) it stands for itself, and the expression in the code
  escapes the slash. `"%s"` and `c_str()` cut a component at a NUL; `strtoul` accepts a sign, so
  a colon, a minus sign and 2^64 less a port read as that port (`NegativeReadsAsPort`), and
  `:-18446744073709551615` as port 1; text that starts with a NUL reads as port 0 (`StoUi16Exact`). The condition of the round trip accounts for all of these
  (`RoundTripExact`, `BackslashEndsHost`).
- Decoding Base64 appends two to four bytes more than the input had (`DecodeOvershoots`); a last group of
  two characters decodes to nothing without its padding (`TwoWithoutPadding`).
- `split(join(tokens))` returns the tokens unless one holds the delimiter or they are the single
  empty token (`SplitJoinExact`). `count` of an empty substring does not end, as its position never
  moves (`EmptyIsFoundInPlace`).
- An FSM whose state type is signed ignores the event in a negative state: sign extension covers it
  in the packed key (`CombineExact`, `NegativeStateIgnoresEvent`).
- For ratios whose denominator divides 10^9 times the numerator, converting negative ticks to a
  `Duration` is never exact, as the modulus is by an unsigned constant; all other ratios are inexact
  for one tick already, though single counts, negative ones too, can come out right (`ConversionExact`,
  `NegativeTicksOff`, `RatioExactIff`, `UnitRoundTripExact`, `NegativeCanBeExact`).
- `Buffer::assign` and a failed extraction empty the destination; the zeroed forms of growing zero
  from the old capacity, not from the old size (`Assign`, `Extract`, `ResizeZeroed`).

## Model

| member | source | states |
|---|---|---|
| `EndToEnd.EndToEndConservation` | src/hlib_fdio.cpp:73-158 | With one endpoint's write side feeding another's read side through a FIFO channel, under every interleaving: bytes gained by the receiver's sinks in order, then those in flight, then those unsent, are all sources given to `write()`, in order |
| `EndToEnd.EndToEndPrefix` | src/hlib_fdio.cpp:73-158 | Also after either end closed or failed, the bytes received are a prefix of the bytes written |
| `EndToEnd.WrittenIsLinkWrites` | src/hlib_fdio.cpp:272-286 | The sender's history of sources is the list of `write()` calls made in the run |
| `EndToEnd.SentMoves` | src/hlib_fdio.cpp:122-142 | Of all steps only a successful write hands bytes to the kernel, and exactly the first `size` of the front source's rest |
| `EndToEnd.ReceivedMoves` | src/hlib_fdio.cpp:89-119 | Of all steps only a read of some bytes takes bytes from the kernel, and exactly those |
| `EndToEnd.LinkStepKeepsInv` | src/hlib_fdio.cpp:53-159 | Every step of either side keeps: sent is received followed by in flight |
| `StreamTheorems.SenderConservation` | src/hlib_fdio.cpp:122-158 | In every reachable open state: accepted bytes plus unsent bytes are the sources in `write()` order; the popped sources are exactly the first so many, all their bytes were accepted, and exactly their callbacks ran, in order; the rest of the queue is untouched |
| `StreamTheorems.SentIsPrefix` | src/hlib_fdio.cpp:293-313 | Open or closed, the kernel holds a prefix of the enqueued bytes, and exactly the callbacks of the wholly accepted, popped sources ran |
| `StreamTheorems.WrittenIsWriteCalls` | src/hlib_fdio.cpp:272-286 | The history's sources are the `write()` calls since the last `open()` |
| `StreamTheorems.WriteEventProgress` | src/hlib_fdio.cpp:122-158 | Unsent bytes plus queue length strictly decrease on a write event exactly when a byte is accepted or the front source had none left; otherwise nothing changes |
| `StreamTheorems.MaskFollowsWork` | src/hlib_fdio.cpp:39-47 | In every reachable open state Write is in the mask iff a source is queued, Read iff a sink is installed, and the loop watches exactly the mask |
| `StreamTheorems.QueueCanDrain` | src/hlib_fdio.cpp:122-158 | No queued source is stranded: from every reachable open state write events alone empty the queue, everything enqueued is then sent and writability no longer watched |
| `StreamTheorems.FrontCanLeave` | src/hlib_fdio.cpp:122-158 | A write event that takes the rest of the front source removes it and nothing else |
| `StreamTheorems.WriteAssertionExact` | src/hlib_fdio.cpp:122-127 | When the handler treats a write event the assertion on the queue holds iff no `open()` or `close()` came since the delivery, or a `write()` came after it, under every interleaving |
| `StreamTheorems.WriteAssertionCanFail` | src/hlib_fdio.cpp:293-313 | A run in which it fails: a close between delivery and handler |
| `StreamTheorems.ReadAssertionExact` | src/hlib_fdio.cpp:57-71 | When the handler treats a read event the assertion on the sink holds iff the last call since the delivery to set or drop the sink, if any, installed one, under every interleaving |
| `StreamTheorems.ReadAssertionCanFail` | src/hlib_fdio.cpp:247-265 | A run in which it fails: the sink is withdrawn between delivery and handler |
| `StreamTheorems.ReaderConservation` | src/hlib_fdio.cpp:81-119 | In every reachable state, open or closed: the bytes gained by the sinks, in order, are exactly the bytes the reads delivered, followed after a close by end of file or error by the unread extension of the last sink; earlier sink content is unchanged; bounded sinks stay below their maximum while installed and hold it when complete; minimal sinks have gained nothing while installed |
| `StreamTheorems.ReceivedIsReadBytes` | src/hlib_fdio.cpp:94-119 | The bytes received are those the reads since the last `open()` delivered |
| `StreamTheorems.ReadCompletesExactly` | src/hlib_fdio.cpp:81-119 | A non-empty read appends the bytes read and no others; it completes a minimal sink always, a bounded one iff it reaches the maximum; then its callback, if any, runs once with exactly that content |
| `StreamTheorems.EndOfFileExact` | src/hlib_fdio.cpp:83-108 | At end of file the sink comes back unchanged iff it had no headroom, its callback runs and then the close callback with error 0; without an allocation the close callback alone, with ENOMEM |
| `StreamTheorems.ReadTakesAllThatFits` | src/hlib_fdio.cpp:81-119 | One read event takes all that has arrived, or exactly what is missing to the maximum; it completes a minimal sink always and a bounded one iff the maximum is reached |
| `StreamTheorems.SinkFills` | src/hlib_fdio.cpp:81-119 | No sink starves: from every reachable open state with a sink installed, whatever non-empty batches arrive, read events alone complete it once there is a byte for a minimal sink or enough for a bounded one; it then holds the first batch or exactly its maximum, with one callback, and until then all that arrived |
| `StreamCallbacks.CallbacksExact` | src/hlib_fdio.cpp:53-177 | Over every run the callbacks made, all and in order, are those of the reference: OnRead for exactly the sinks that completed or met end of file, with their final content, OnWritten for exactly the sources sent to the end, OnClose for exactly the ends and failures, with their error |
| `Callbacks.ReadAgrees` | src/hlib_fdio.cpp:57-120 | A read half makes the reference's read callback and close callback, for every answer of the kernel |
| `Callbacks.WriteAgrees` | src/hlib_fdio.cpp:122-159 | A write half makes the reference's write callback or close callback |
| `StreamRuns.StepKeepsInv` | src/hlib_fdio.cpp:53-168 | Every step keeps mask, registration, sender and receiver histories consistent |
| `StreamRuns.ReachableInv` | src/hlib_fdio.cpp:209-313 | Every run from a fresh object keeps mask, registration, sender and receiver histories consistent |
| `StreamRuns.CloseKeepsInv` | src/hlib_fdio.cpp:293-313 | Closing drops queue, sink and registration together and leaves a sent prefix |
| `StreamRuns.ReadKeepsMask` | src/hlib_fdio.cpp:53-120 | The read half keeps the mask invariant and the queue |
| `StreamRuns.WriteKeepsMask` | src/hlib_fdio.cpp:122-159 | The write half keeps the mask invariant and the sink |
| `StreamHistory.WriteKeepsSender` | src/hlib_fdio.cpp:122-158 | Conservation, order and exactly-once callbacks through a partial or final write |
| `StreamHistory.SubmitKeepsSender` | src/hlib_fdio.cpp:272-286 | Conservation, order and exactly-once callbacks through `write()` |
| `StreamHistory.PoppedAreSent` | src/hlib_fdio.cpp:142-158 | The accepted bytes are those of the popped sources and the consumed part of the front one |
| `StreamHistory.ReadKeepsReader` | src/hlib_fdio.cpp:81-119 | Receiver conservation through every outcome of a read, failures and end of file included |
| `StreamHistory.InstallKeepsReader` | src/hlib_fdio.cpp:247-265 | Receiver conservation through replacing or withdrawing the sink |
| `StreamHistory.ReadExtends` | src/hlib_fdio.cpp:81-119 | A read half only adds at the end of the sink: the bytes read while open, the unread extension when it closes |
| `FileDescriptorIo.FileDescriptorIO.constructor` | src/hlib_fdio.cpp:182-186 | A fresh object is closed, with nothing queued, installed or registered |
| `FileDescriptorIo.FileDescriptorIO.SetCloseCallback` | src/hlib_fdio.cpp:204-207 | Only the close callback changes |
| `FileDescriptorIo.FileDescriptorIO.UpdateEventsLocked` | src/hlib_fdio.cpp:39-47 | Loop registration and mask change together, no other registration does |
| `FileDescriptorIo.FileDescriptorIO.OnReadable` | src/hlib_fdio.cpp:57-120 | The object after the read half, its sink and its callbacks, for every answer of the kernel, are those the theorems are about |
| `FileDescriptorIo.FileDescriptorIO.Extend` | src/hlib_fdio.cpp:81-92 | The installed sink alone is extended, by the room for what is available; null iff it was never allocated |
| `FileDescriptorIo.FileDescriptorIO.Received` | src/hlib_fdio.cpp:109-118 | After a non-empty read the sink is trimmed to the bytes read, and handed back with one callback iff it is full |
| `FileDescriptorIo.FileDescriptorIO.OnWritable` | src/hlib_fdio.cpp:122-159 | The object after the write half, its callbacks and the front source's cursor, for every answer of the kernel, are those the theorems are about |
| `FileDescriptorIo.FileDescriptorIO.PopFront` | src/hlib_fdio.cpp:142-158 | The front entry goes with one callback, and the write interest with the last entry |
| `FileDescriptorIo.FileDescriptorIO.Completed` | src/hlib_fdio.cpp:60-69 | Read interest and sink go together, the callback sees the sink's final content |
| `FileDescriptorIo.FileDescriptorIO.CallbackAndClose` | src/hlib_fdio.cpp:170-177 | The close callback runs once if set, then everything is closed |
| `FileDescriptorIo.FileDescriptorIO.Open` | src/hlib_fdio.cpp:209-226 | Opening closes first, then registers the descriptor with an empty mask |
| `FileDescriptorIo.FileDescriptorIO.Read` | src/hlib_fdio.cpp:247-265 | Installs or withdraws the sink with its interest; the queue is untouched |
| `FileDescriptorIo.FileDescriptorIO.Write` | src/hlib_fdio.cpp:272-286 | Appends the source and arms the write interest; the sink is untouched |
| `FileDescriptorIo.FileDescriptorIO.Close` | src/hlib_fdio.cpp:293-313 | Only this descriptor leaves the loop; mask, sink and queue are cleared; a no-op when closed |
| `SourceSink.Source.Available` | src/hlib_source.cpp:32-36 | The number of bytes not yet consumed |
| `SourceSink.Source.Empty` | src/hlib_source.cpp:38-42 | Whether none is left |
| `SourceSink.Source.Peek` | src/hlib_source.cpp:44-50 | The next bytes, leaving the cursor |
| `SourceSink.Source.Consume` | src/hlib_source.cpp:52-62 | The next bytes, and they followed by the new rest are the old rest |
| `SourceSink.Sink.Full` | src/hlib_sink.cpp:39-42 | A minimal sink always, a bounded one at its maximum |
| `SourceSink.Sink.Headroom` | src/hlib_sink.cpp:44-51 | What a bounded sink can still take |
| `SourceSink.Sink.HeadroomWithin` | src/hlib_sink.cpp:53-60 | The extension a read makes: bounded, as much as both the limit and the maximum allow; minimal, its size and the limit |
| `SourceSink.Sink.Produce` | src/hlib_sink.cpp:62-73 | Old content kept, extended at the end; null iff there is no allocation |
| `SourceSink.Sink.ProduceBytes` | src/hlib_sink.cpp:75-84 | Appends exactly the bytes |
| `SourceSink.Sink.Resize` | include/hlib/sink.hpp:125-137 | Truncates or extends, never changing the common prefix |
| `EventLoops.EventLoop.Add` | src/hlib_event_loop.cpp:150-173 | Registers one descriptor, leaving the others |
| `EventLoops.EventLoop.Modify` | src/hlib_event_loop.cpp:175-187 | Changes one registration, leaving the others |
| `EventLoops.EventLoop.Remove` | src/hlib_event_loop.cpp:206-222 | Removes one registration, leaving the others |
| `SocketTheorems.SocketSenderConservation` | src/hlib_socket.cpp:218-255 | In every reachable state, before, while and after connecting: accepted plus unsent bytes are the sources handed to `send()` since the last connection ended, in order; the popped ones are exactly the first so many, wholly accepted, and exactly their callbacks ran, in order |
| `SocketTheorems.SocketSentIsPrefix` | src/hlib_socket.cpp:527-548 | Of every ended connection, whatever ended it: the accepted bytes are a prefix of the sources handed to `send()` for it, and exactly the callbacks of its wholly accepted sources ran |
| `SocketTheorems.SocketReaderConservation` | src/hlib_socket.cpp:176-216 | What the sinks gained, in order, is exactly what `recv()` delivered since the last connection ended; earlier sink content stays; bounded sinks keep below their maximum while installed and hold it when complete |
| `SocketTheorems.SocketEndedReaders` | src/hlib_socket.cpp:176-216 | Of every ended connection: what its sinks gained is what `recv()` delivered on it, followed after an end of file or error by the unread extension of the last sink; bounded sinks reported complete held their maximum |
| `SocketTheorems.RunAgrees` | src/hlib_socket.cpp:138-256 | Descriptor, sends, received bytes and ended connections are a function of the steps alone; a sink handed over that is gone was completed, and then nothing watches for readability |
| `SocketTheorems.ReadAssertionExact` | src/hlib_socket.cpp:149-167 | When the handler treats a read event the assertion on the sink holds iff the last of the calls that set or drop the sink, connection ends included, installed one |
| `SocketTheorems.WriteAssertionExact` | src/hlib_socket.cpp:218-222 | When the handler treats a write event the assertion on the queue holds iff the connection did not end since the delivery, or a `send()` came after that |
| `SocketTheorems.ReadBeforeReceive` | src/hlib_socket.cpp:415-479 | A run in which data before the first `receive()` trips the assertion on the sink |
| `SocketTheorems.WriteInterestExact` | src/hlib_socket.cpp:486-520 | From `connect()` or `open()` on, in every state of that connection: Write is in the mask iff the queue is non-empty, if and only if nothing was queued before or a write event delivered before the connection sent the one source queued whole; otherwise what that event sends, if there is one, is all that is sent on the connection |
| `SocketTheorems.UnarmedRun` | src/hlib_socket.cpp:218-244 | The same from any state with sources queued and the loop not armed: a write half occurs only for an event still to be handled, and what follows it |
| `SocketTheorems.StaleWriteEventSends` | src/hlib_socket.cpp:415-479 | A run in which a source from before `connect()` is sent on the connection by a write event of the connection before |
| `SocketTheorems.QueuedBefore` | src/hlib_socket.cpp:506-548 | What is queued before a connection: nothing if the socket is up, otherwise exactly the sources handed to `send()` since the last connection ended |
| `SocketTheorems.SendBeforeConnectStrands` | src/hlib_socket.cpp:415-479 | A run that ends connected and idle with a source from before the connection that will not be sent |
| `SocketTheorems.OpenRunTracks` | src/hlib_socket.cpp:486-520 | Over a whole connection: a mask that tracks the queue keeps tracking it, a stranded queue stays stranded and sends nothing |
| `SocketTheorems.StaysDown` | src/hlib_socket.cpp:527-548 | Once closed, no step but `connect()` or `open()` brings the socket up |
| `SocketTheorems.ArmedOnceConnected` | src/hlib_socket.cpp:108-136 | Everything sent while connecting is armed as soon as `onConnect` succeeds: a connected socket watches exactly its mask, and writability iff something is queued |
| `SocketTheorems.QuietRunRegistered` | src/hlib_socket.cpp:63-73 | Without calls inside `onConnect`, a connected socket is registered for exactly its mask |
| `SocketTheorems.CallsBeforeConnected` | src/hlib_socket.cpp:486-520 | What any list of `receive()` and `send()` calls does before the flag is raised: queue, sink and remembered mask, while the registration stays |
| `SocketTheorems.OnConnectRaceExact` | src/hlib_socket.cpp:118-129 | By the calls made before and inside `onConnect`: exactly when the loop then watches the mask, when a queued source or an installed sink goes unwatched, and when readability is watched for without a sink |
| `SocketTheorems.ConnectingRunGoesOn` | src/hlib_socket.cpp:108-136 | Every pending connect can go on through `onConnect`, whatever the calls before and inside it |
| `SocketTheorems.PendingConnectIsWatched` | src/hlib_socket.cpp:452-464 | In every reachable state with a pending connect the loop watches readability and writability, and `onConnect`, which only writability or an error brings about, can run once no other event is under way |
| `SocketCallbacks.CallbacksExact` | src/hlib_socket.cpp:108-265 | Over every run, failed connections included, the callbacks made, all and in order, are those of the reference |
| `SocketTheorems.OnConnectRaceLosesWakeup` | src/hlib_socket.cpp:108-136 | A run that ends connected and idle with a queued source nobody watches for |
| `SocketRuns.StepKeepsPhase` | src/hlib_socket.cpp:63-136 | Descriptor, flag, handler and registration stay consistent through every step, and writability is asked or watched for only with a source queued |
| `SocketRuns.StepKeepsData` | src/hlib_socket.cpp:138-256 | Every step keeps conservation in both directions, of the current and of ended connections |
| `SocketRuns.ReachableInv` | src/hlib_socket.cpp:108-256 | Every run from a fresh socket keeps phase, registration and conservation in both directions |
| `SocketObject.Socket.UpdateEventsLocked` | src/hlib_socket.cpp:63-73 | Before the connection the mask is only remembered, after it also registered |
| `SocketObject.Socket.Open` | src/hlib_socket.cpp:324-344 | Closes, watches for readability, connected iff the descriptor is healthy |
| `SocketObject.Socket.Connect` | src/hlib_socket.cpp:415-479 | State, registration and notification after immediate, pending and failed connects: a pending one is watched for readability and writability |
| `SocketObject.Socket.OnConnect` | src/hlib_socket.cpp:108-136 | Registers the remembered mask and raises the flag, or closes on a pending error |
| `SocketObject.Socket.OnError` | src/hlib_socket.cpp:143-147 | An error event closes and does nothing else |
| `SocketObject.Socket.OnReadable` | src/hlib_socket.cpp:149-216 | State, sink and callbacks after the read half are those of the engine |
| `SocketObject.Socket.Extend` | src/hlib_socket.cpp:177-188 | The installed sink alone is extended, by the room for what is available; null iff it was never allocated |
| `SocketObject.Socket.Received` | src/hlib_socket.cpp:205-214 | After a non-empty receive the sink is trimmed to the bytes received, and handed back with one callback iff it is full |
| `SocketObject.Socket.OnWritable` | src/hlib_socket.cpp:218-255 | State, cursor and callbacks after the write half are those of the engine |
| `SocketObject.Socket.PopFront` | src/hlib_socket.cpp:236-254 | The front entry goes with one callback, and the write interest with the last entry |
| `SocketObject.Socket.Completed` | src/hlib_socket.cpp:152-165 | Read interest and sink go together, the callback sees the sink's final content |
| `SocketObject.Socket.CallbackAndClose` | src/hlib_socket.cpp:258-265 | The close callback runs once if set, then everything is closed |
| `SocketObject.Socket.Receive` | src/hlib_socket.cpp:486-504 | Installs or withdraws the sink with its interest; the queue is untouched |
| `SocketObject.Socket.Send` | src/hlib_socket.cpp:506-520 | Appends the source and arms the write interest; the sink is untouched |
| `SocketObject.Socket.Close` | src/hlib_socket.cpp:527-548 | Clears everything of an open socket; on a closed one the queue and mask stay |
| `Searching.Find` | src/hlib_buffer.cpp:497-498 | The first occurrence at or after a position, none iff there is none |
| `Searching.FoundStays` | src/hlib_buffer.cpp:493-518 | What was found stays the first occurrence however the content is extended |
| `Buffers.EraseThenInsert` | src/hlib_buffer.cpp:373-477 | Inserting extracted bytes back restores the content |
| `Buffers.InsertThenErase` | src/hlib_buffer.cpp:373-425 | Erasing inserted bytes restores the content, and they are where they were put |
| `Buffers.MemMove` | src/hlib_buffer.cpp:389 | Overlapping ranges: the target holds the source's old bytes, all else is unchanged |
| `Buffers.InsertInto` | src/hlib_buffer.cpp:386-395 | The in-place moves of an insertion make the sequence with the bytes inserted; without data, one that erasing the gap restores |
| `Buffers.EraseFrom` | src/hlib_buffer.cpp:421-423 | The in-place move of an erasure makes the sequence without the range |
| `Buffers.UpToSentinel` | src/hlib_buffer.cpp:497-506 | How much an extraction takes; nothing iff the sentinel does not occur |
| `Buffers.SentinelCut` | src/hlib_buffer.cpp:493-518 | With the first sentinel at or after the offset at `at`: the bytes before it are taken, followed by the sentinel iff inclusive; what is left is the rest, and the exclusive form leaves the sentinel at the offset |
| `Buffers.Buffer.Realloc` | src/hlib_buffer.cpp:32-66 | When it succeeds; size <= capacity <= maximum, null data iff no capacity; the common prefix survives; zeroed growth zeroes from the old capacity |
| `Buffers.Buffer.ToSeq` | src/hlib_buffer.cpp:537-540 | The content read out |
| `Buffers.Buffer.Reset` | src/hlib_buffer.cpp:179-187 | Empty and without storage |
| `Buffers.Buffer.Clear` | src/hlib_buffer.cpp:189-192 | Empty, storage kept |
| `Buffers.Buffer.Shrunk` | src/hlib_buffer.cpp:194-204 | The content stays; capacity becomes the size if the allocator agrees |
| `Buffers.Buffer.Reserve` | src/hlib_buffer.cpp:206-215 | The content stays; capacity never shrinks |
| `Buffers.Buffer.ReserveZeroed` | src/hlib_buffer.cpp:226-235 | The content stays, capacity never shrinks, everything from the old capacity up is zero |
| `Buffers.Buffer.Extend` | src/hlib_buffer.cpp:246-255 | Room past the end, content and size as before |
| `Buffers.Buffer.ExtendZeroed` | src/hlib_buffer.cpp:266-275 | Room past the end with content and size as before, everything from the old capacity up is zero |
| `Buffers.Buffer.Resize` | src/hlib_buffer.cpp:286-296 | The common prefix stays; failing changes nothing |
| `Buffers.Buffer.ResizeZeroed` | src/hlib_buffer.cpp:307-317 | Bytes from the old capacity up are zero, those below are what the storage held |
| `Buffers.Buffer.Insert` | src/hlib_buffer.cpp:373-397 | The content with the bytes inserted, or with a gap; failing changes nothing |
| `Buffers.Buffer.Append` | src/hlib_buffer.cpp:351-354 | The content followed by the bytes, or unchanged |
| `Buffers.Buffer.Assign` | src/hlib_buffer.cpp:328-332 | Exactly the bytes, or empty on failure |
| `Buffers.Buffer.Erase` | src/hlib_buffer.cpp:416-425 | The content without the range, capacity kept |
| `Buffers.Buffer.Extract` | src/hlib_buffer.cpp:466-477 | The range moves over; on failure this buffer is unchanged and the other empty |
| `Buffers.Buffer.ExtractSentinel` | src/hlib_buffer.cpp:493-518 | Moves the bytes from the offset to the first sentinel, and the sentinel itself iff inclusive; the exclusive form leaves it at the offset; without one succeeds with an empty result |
| `Framing.ExtractTakesFirstFrame` | src/hlib_buffer.cpp:493-518 | One extraction through the sentinel takes the first frame and leaves a buffer that frames into the others |
| `Framing.FramesIsFraming` | src/hlib_buffer.cpp:493-518 | Repeated extraction ends, and frames plus remainder are the stream, each frame ending at its first sentinel and the remainder holding none |
| `Framing.FramingIsUnique` | src/hlib_buffer.cpp:493-518 | No other frames and remainder do that |
| `Framing.ExtractCommutesWithAppend` | src/hlib_buffer.cpp:351-397 | A successful extraction commutes with any later append |
| `Framing.FramingIsChunkIndependent` | src/hlib_buffer.cpp:351-518 | However the stream is split into appends, the same frames and the same remainder come out |
| `Framing.ExtractAll` | src/hlib_buffer.cpp:493-518 | Looping the object's extraction until nothing is found ends, returns exactly the frames of the content and leaves the remainder |
| `Framing.FeedAll` | src/hlib_buffer.cpp:351-518 | Appending chunks to the object and extracting in between returns exactly the frames of the whole stream, whatever the chunks and however long the stream, as long as each append fits |
| `UriRoundTrip.RoundTripExact` | src/hlib_uri.cpp:40-141 | Parsing a printed URI gives it back if and only if it is canonical, a condition on its components alone |
| `UriRoundTrip.BackslashEndsHost` | src/hlib_uri.cpp:43-46 | No URI with a backslash in the host survives |
| `UriRoundTrip.WithHost` | src/hlib_uri.cpp:117-128 | The equivalence for URIs with a host |
| `UriRoundTrip.WithoutHost` | src/hlib_uri.cpp:113-130 | The equivalence for URIs without one, where the path may be taken for a scheme or an authority |
| `UriRoundTrip.AuthorityExact` | src/hlib_uri.cpp:63-87 | User info, host and port read back from their printed form iff the user info is free of NUL, an empty one does not meet an `@` in the host, and the port survives |
| `UriRoundTrip.SlashesBecomeAuthority` | src/hlib_uri.cpp:130 | Without a host, a path starting with two slashes does not survive |
| `UriRoundTrip.NulSchemeLost` | src/hlib_uri.cpp:113-115 | A scheme with a NUL does not survive, as it is printed up to the NUL only |
| `Uri.UriParse` | src/hlib_uri.cpp:40-99 | Step by step it computes the parse function of the round trip, failing only for a NUL in the fragment |
| `Uri.TakeAuthorityApart` | src/hlib_uri.cpp:63-82 | Its middle part: first `@`, last `:` if a port follows |
| `Uri.ParseAuthorityExact` | src/hlib_uri.cpp:60-82 | The user info is what precedes the first `@`; the port is what follows the last `:` iff that reads as a port, and otherwise all is host |
| `UriParsing.ParseExact` | src/hlib_uri.cpp:40-99 | Every string, by the components it is put together of: each is taken over as it stands, no path reads as `/`, and no port, or port 0, as the default port of the scheme |
| `UriParsing.ParseFailsExact` | src/hlib_uri.cpp:42-53 | A string fails to parse iff a NUL stands somewhere behind a `#` |
| `UriParsing.DefaultPorts` | src/hlib_uri.cpp:172-194 | The thirteen default ports, and 0 for every other scheme |
| `UriParsing.BareHost` | src/hlib_uri.cpp:40-99 | Scheme and host alone parse to just these, the default port of the scheme and the path `/` |
| `UriParsing.BracketIsNoPort` | src/hlib_uri.cpp:70-82 | A host that ends in `]` keeps its last colon |
| `UriParsing.LdapExample` | test/src/uri.cpp:91-98 | The URI of the tests with an IPv6 host parses to the components the tests expect |
| `Uri.ToString` | src/hlib_uri.cpp:101-141 | Step by step it writes the recomposition of the printed components: each present one with its delimiter, the default port left out, `/` for an empty path |
| `Uri.AppendAuthority` | src/hlib_uri.cpp:117-128 | Its middle part: user info, host, and the port unless it is zero or the default |
| `Uri.ParseRange` | src/hlib_uri.cpp:40-99 | Which URIs a parse can return |
| `Uri.UserInfoExact` | src/hlib_uri.cpp:63-87 | With user info, the authority survives iff the user info is free of NUL and the port survives |
| `Uri.NoUserInfoExact` | src/hlib_uri.cpp:63-87 | Without user info, it survives iff the host holds no `@` and the port survives |
| `Uri.HostPortExact` | src/hlib_uri.cpp:70-87 | Host and port survive iff the port is printed, or is the default and the host does not end in a port |
| `UriSplit.SplitRecompose` | src/hlib_uri.cpp:43-54 | Splitting undoes recomposing for all components a split can produce |
| `UriSplit.RecomposeSplit` | src/hlib_uri.cpp:43-54 | Recomposing undoes splitting for every string, and splits only produce such components |
| `Text.StoUi16OfDecimal` | src/hlib_string.cpp:142-157 | A printed port reads back as itself |
| `Text.StrToUlOfDigits` | src/hlib_string.cpp:149 | Digits read as their decimal value, all of them consumed |
| `Text.NegativeReadsAsPort` | src/hlib_string.cpp:142-157 | Every port but zero is also the reading of a minus sign and 2^64 less the port |
| `Text.StoUi16Exact` | src/hlib_string.cpp:142-157 | A text reads as port n iff up to its first NUL it is at most one sign followed by at least one digit and nothing else, with value n below 65536 or, after a minus sign, 2^64 - n (or it starts with a NUL and n is 0); every other text is refused |
| `Text.DecimalIsPositional` | src/hlib_string.cpp:149-149 | The value of a run of digits: the first digit counts for as many tens as digits follow |
| `Base64.EncodeDecode` | src/hlib_string.cpp:665-837 | Decoding an encoding writes exactly the input bytes |
| `Base64.DecodeOvershoots` | src/hlib_string.cpp:746-749 | The decoded buffer grows by two to four bytes more |
| `Base64.SymbolTable` | src/hlib_string.cpp:667-667 | The encoder's table is table 1 of RFC 4648; the decoder's is its inverse and takes every other character for `/` |
| `Base64.Rfc4648Vectors` | src/hlib_string.cpp:665-732 | The test vectors of section 10 of RFC 4648 |
| `Base64.DecodeEncode` | src/hlib_string.cpp:665-837 | Whole groups of characters of the alphabet come back when what they decode to is encoded |
| `Base64.ThreeWithoutPadding` | src/hlib_string.cpp:804-833 | A last group of three characters decodes as with its padding |
| `Base64.TwoWithoutPadding` | src/hlib_string.cpp:804-833 | A last group of two characters decodes to nothing |
| `Base64.Encode` | src/hlib_string.cpp:665-732 | Appends exactly the text of RFC 4648 section 4, existing content intact; without memory nothing changes |
| `Base64.EncodeInto` | src/hlib_string.cpp:692-728 | Its loop and tail write that text and nothing before it |
| `Base64.Sextets` | src/hlib_string.cpp:669-704 | The four 6-bit fields of a 24-bit group, from its three octets |
| `Masks.EncodeMasks` | src/hlib_string.cpp:669-704 | The code's masks, shifts and "or" select the characters of RFC 4648 section 4 |
| `Masks.DecodeMasks` | src/hlib_string.cpp:773-796 | The code's masks, shifts and "or" give the three decoded bytes |
| `Masks.EncodeIndices` | src/hlib_string.cpp:669-704 | The four mask expressions of the encoder as numbers |
| `Masks.DecodeOctets` | src/hlib_string.cpp:773-796 | The three mask expressions of the decoder as numbers |
| `Base64.Decode` | src/hlib_string.cpp:751-837 | Existing content, then the decoded bytes, then the extension; fails iff the input is empty or its length is 1 modulo 4 |
| `Base64.DecodeInto` | src/hlib_string.cpp:804-833 | Its loop and switch write the decoded bytes first |
| `Serial.SchemaRoundTrip` | include/hlib/serial.hpp:174-218 | For every list of typed fields and either byte order, deserializing with the same schema returns the values and consumes exactly the bytes produced |
| `Serial.Transfer` | include/hlib/serial.hpp:174-218 | A chain of calls on the objects: fields written into a bounded sink with room for them, then read from a source of its bytes by the same schema, are the same values and use the source up |
| `Serial.TransformAll` | include/hlib/serial.hpp:185-214 | A chain of `transform()` calls appends the encoding of all fields to the sink |
| `Serial.ReadAll` | include/hlib/serial.hpp:382-417 | A chain of `transform()` calls returns the decoded values and leaves the rest of the source |
| `Serial.FieldRoundTrip` | include/hlib/serial.hpp:371-421 | One field, whatever bytes follow it: the same value comes back, consuming exactly its bytes |
| `Serial.WireFormat` | include/hlib/serial.hpp:41-214 | The bytes of every field: a flag is 1 or 0; of an integer of either sign, or the bits of a float, the octet worth 256^i stands i-th from the end in `be` and i-th from the front in `le`; octets go as they are; a text ends in a NUL |
| `Serial.Serializer.Transform` | include/hlib/serial.hpp:185-214 | Appends exactly the field's encoding to the sink |
| `Serial.Serializer.TransformInt` | include/hlib/serial.hpp:185-193 | Appends the bytes of an arithmetic type, written through the produced pointer |
| `Serial.Deserializer.Transform` | include/hlib/serial.hpp:382-417 | Returns the field's value and advances the source by exactly its bytes |
| `Serial.Deserializer.TransformInt` | include/hlib/serial.hpp:382-390 | Returns the number at the cursor and advances by its width |
| `Serial.Deserializer.TransformText` | include/hlib/serial.hpp:407-417 | Returns the text up to the first NUL; the loop stops behind it |
| `Endian.LittleIsReversedBig` | include/hlib/serial.hpp:452-535 | At every width the little-endian bytes are the big-endian ones reversed |
| `Endian.OctetAt` | include/hlib/serial.hpp:452-535 | At every width the octet worth 256^i is i-th from the front little-endian and i-th from the end big-endian |
| `Endian.UnsignedRoundTrip` | include/hlib/serial.hpp:108-144 | Unsigned numbers of every width read back |
| `Endian.SignedRoundTrip` | include/hlib/serial.hpp:61-97 | Signed numbers of every width read back through their two's complement bytes |
| `Endian.StoreBig2` | include/hlib/serial.hpp:61-69 | The unrolled 16-bit store writes the big-endian bytes and nothing else |
| `Endian.StoreBig4` | include/hlib/serial.hpp:71-81 | The unrolled 32-bit store writes the big-endian bytes and nothing else |
| `Endian.StoreBig8` | include/hlib/serial.hpp:83-97 | The unrolled 64-bit store writes the big-endian bytes and nothing else |
| `Endian.StoreLittle2` | include/hlib/serial.hpp:452-460 | The unrolled 16-bit store writes the little-endian bytes and nothing else |
| `Endian.StoreLittle4` | include/hlib/serial.hpp:462-472 | The unrolled 32-bit store writes the little-endian bytes and nothing else |
| `Endian.StoreLittle8` | include/hlib/serial.hpp:474-488 | The unrolled 64-bit store writes the little-endian bytes and nothing else |
| `Endian.LoadBig4` | include/hlib/serial.hpp:251-260 | The unrolled 32-bit load is the big-endian value of the bytes |
| `Endian.LoadBig8` | include/hlib/serial.hpp:305-318 | The unrolled 64-bit load is the big-endian value of the bytes |
| `Endian.LoadLittle4` | include/hlib/serial.hpp:685-695 | The unrolled 32-bit load is the little-endian value of the bytes |
| `Endian.LoadLittle8` | include/hlib/serial.hpp:696-709 | The unrolled 64-bit load is the little-endian value of the bytes |
| `Strings.Count` | src/hlib_string.cpp:491-506 | The loop ends and returns the maximum number of pairwise non-overlapping occurrences |
| `Strings.EmptyIsFoundInPlace` | src/hlib_string.cpp:491-506 | With an empty substring the search position never moves |
| `Strings.GreedyIsOptimal` | src/hlib_string.cpp:491-506 | No selection of non-overlapping occurrences beats leftmost-first |
| `Strings.GreedyIsAttained` | src/hlib_string.cpp:491-506 | Leftmost-first is such a selection |
| `Strings.SplitBy` | src/hlib_string.cpp:574-604 | The loop computes the pieces between delimiters, without the empty ones when filtered |
| `Strings.PiecesConcat` | src/hlib_string.cpp:574-609 | For any set of delimiters, each run without one is a piece, up to the next delimiter or the end |
| `Strings.NonEmptyConcat` | src/hlib_string.cpp:574-609 | Filtering keeps exactly the non-empty tokens, in order |
| `Strings.Join` | src/hlib_string.cpp:623-647 | The loop computes the tokens with separators between |
| `Strings.JoinedConcat` | src/hlib_string.cpp:623-647 | Whatever the separator, it stands exactly once between any two parts of the list |
| `Strings.JoinSplit` | src/hlib_string.cpp:574-647 | Joining a split string gives it back, for every string |
| `Strings.SplitJoinExact` | src/hlib_string.cpp:574-647 | Splitting joined tokens gives them back iff none holds the delimiter and they are not the single empty token |
| `Strings.SplitCount` | src/hlib_string.cpp:508-609 | One token more than the delimiters counted; filtering only drops empty tokens |
| `EventQueues.QueueProtocol` | src/hlib_event_queue.cpp:32-60 | Under every interleaving of pushes with the halves of `onTimer`: run plus pending is the push order, `front()` is never called on an empty queue, the timer is set iff work is pending while no callback runs |
| `EventQueues.TimerDrains` | src/hlib_event_queue.cpp:32-45 | From every reachable state the timer alone runs everything pending and then stops |
| `EventQueues.StepKeepsInv` | src/hlib_event_queue.cpp:32-60 | Every step keeps push order, and the timer set exactly while work is pending or in flight |
| `EventQueues.EventQueue.Push` | src/hlib_event_queue.cpp:55-60 | Appends and arms the timer, as the push step of the protocol, keeping its invariant |
| `EventQueues.EventQueue.OnTimerTake` | src/hlib_event_queue.cpp:34-37 | There is a front callback whenever the timer fires; it is taken, leaving the rest in order, as the first half of `onTimer` in the protocol |
| `EventQueues.EventQueue.OnTimerFinish` | src/hlib_event_queue.cpp:41-44 | The timer stays set iff something is pending, as the second half of `onTimer` in the protocol |
| `EventBusSpec.RunRefines` | src/hlib_event_bus.cpp:33-157 | Over all runs the nested table answers every lookup as a flat map from action and name does |
| `EventBusSpec.StepRefines` | src/hlib_event_bus.cpp:52-157 | Every operation does to the nested table what its flat form does to the flat map |
| `EventBusSpec.NextLookup` | src/hlib_event_bus.cpp:52-157 | What each operation does to every lookup: subscribing with a live queue and a callback enters it, unsubscribing removes it and leaves no empty action, notifying and broadcasting remove exactly the expired ones addressed |
| `EventBusSpec.PurgeChangesNoLookup` | src/hlib_event_bus.cpp:88-95 | The clean-up of `unsubscribe` changes no lookup |
| `EventSystem.BusDeliversExactly` | src/hlib_event_bus.cpp:98-157 | Under every interleaving of bus calls with pushes by others, timers, and queues coming and going: what a queue has run and still holds are exactly the events owed to it by the flat map of subscriptions as it was at each call, once each, in the order of the bus calls; and its timer is set iff something is pending while nothing runs |
| `EventSystem.CallsAreBusCalls` | src/hlib_event_bus.cpp:98-157 | The history of the bus is the list of bus calls of the run |
| `EventSystem.BusCallKeepsInv` | src/hlib_event_bus.cpp:129-157 | A bus call gives every surviving queue exactly what it is owed, also when queues expire during the call |
| `EventSystem.QueueStepKeepsInv` | src/hlib_event_queue.cpp:32-60 | A timer or a push by others on one queue disturbs neither the order nor what is owed |
| `EventBusObject.EventBus.Get` | src/hlib_event_bus.cpp:33-50 | The subscription for action and name, none iff there is none |
| `EventBusObject.PushesReachLiveSubscribers` | src/hlib_event_bus.cpp:98-157 | Over all runs of the object every push went to a live subscriber of the table as it was at that call, with its queue and callback |
| `EventBusObject.EventBus.SubscribeTo` | src/hlib_event_bus.cpp:52-62 | Refused iff the queue is gone or there is no callback; the run stays one whose table is that of its calls |
| `EventBusObject.EventBus.Unsubscribe` | src/hlib_event_bus.cpp:69-96 | The key goes, the loop drops exactly the empty actions, nothing is pushed, and the run stays faithful |
| `EventBusObject.EventBus.NotifyOne` | src/hlib_event_bus.cpp:98-127 | Exactly the push owed to a live subscriber, an expired one is dropped, and the run stays faithful |
| `EventBusObject.EventBus.BroadcastAll` | src/hlib_event_bus.cpp:129-157 | Exactly one push per subscriber of the action found alive, in any iteration order and with queues expiring meanwhile, exactly the expired ones dropped, and the run stays faithful |
| `Fsm.CombineExact` | include/hlib/fsm.hpp:149-153 | Two pairs share a packed key iff the states agree and the events agree or the state is negative |
| `Fsm.FSM.constructor` | include/hlib/fsm.hpp:71-98 | The table answers every lookup as the first listed match does |
| `Fsm.FSM.Apply` | include/hlib/fsm.hpp:110-135 | Follows the first match with its callbacks in order, or rejects and stays |
| `Fsm.FSM.Reset` | include/hlib/fsm.hpp:105-108 | Back to the initial state |
| `Fsm.FirstMatchIsFirst` | include/hlib/fsm.hpp:71-78 | The match is the listed transition of least index that state and event trigger |
| `Fsm.ApplyAll` | include/hlib/fsm.hpp:110-135 | Applying events one after the other: the i-th accepted event takes its first match in the state reached, every event between two accepted ones is rejected, and the object ends where that path ends |
| `Fsm.FollowsListed` | include/hlib/fsm.hpp:110-135 | Such a path uses listed transitions only, each from the state reached and triggered by its event |
| `Fsm.RunsAreUnique` | include/hlib/fsm.hpp:110-135 | There is only one such path for given events |
| `Fsm.AcceptedIncrease` | include/hlib/fsm.hpp:110-135 | Accepted events are taken in their order |
| `Fsm.NegativeStateIgnoresEvent` | include/hlib/fsm.hpp:149-153 | In a negative state every event takes the same transition |
| `Time.TimespecAdd` | src/hlib_time.cpp:36-50 | The normal timespec of the sum of nanoseconds |
| `Time.TimespecSubtract` | src/hlib_time.cpp:52-66 | The normal timespec of the difference |
| `Time.CompareIsNanos` | src/hlib_time.cpp:193-223 | The lexicographic comparisons are those of nanoseconds, which determine the value |
| `Time.Duration.AddAssign` | src/hlib_time.cpp:154-158 | Stays normal and adds the nanoseconds |
| `Time.Duration.SubtractAssign` | src/hlib_time.cpp:160-164 | Stays normal and subtracts them |
| `Time.Duration.AddThenSubtract` | src/hlib_time.cpp:154-164 | The two undo each other |
| `Time.ConversionExact` | include/hlib/time.hpp:55-63 | For ratios whose denominator divides 10^9 times the numerator, exact iff the ticks are not negative |
| `Time.NegativeTicksOff` | include/hlib/time.hpp:55-63 | For such a ratio every negative count comes out too large by 709551616 ns, or a second more, and exactly which |
| `Time.NegativeCanBeExact` | include/hlib/time.hpp:55-63 | For other ratios a negative count can convert exactly |
| `Time.RatioExactIff` | include/hlib/time.hpp:55-63 | Every representable non-negative count of a ratio converts exactly iff the denominator divides 10^9 times the numerator |
| `Time.OtherRatiosAreInexact` | include/hlib/time.hpp:55-63 | For any other ratio one tick is not converted exactly |
| `Time.WholeSecondsInexact` | include/hlib/time.hpp:55-63 | For such a ratio of at most 10^9 parts to the second, even a count that is a whole number of seconds is converted wrongly |
| `Time.UnitRoundTripExact` | include/hlib/time.hpp:97-103 | Seconds, milli-, micro- and nanoseconds come back from a `Duration` iff not negative |
| `Time.ToUnitTruncates` | include/hlib/time.hpp:97-103 | A `Duration` that is no whole number of units is cut off towards zero |

## Left out

- System calls, epoll, timerfd and sockets: only their results appear, chosen freely; errno values other than ENOMEM are arbitrary.
- `EventLoop::dispatch` and thread identity: one loop thread delivers, between locked regions, some of the registered events or an error.
- Expiry of the event loop (`weak_ptr`): the loop outlives its users, so the ENODEV paths do not occur.
- `close()` and `open()` from inside a callback, and what a handler does with a descriptor closed under it: on `FileDescriptorIO` the kernel's answer is free, on a Socket the handler goes on only while connected. On a Socket `connect()`, `open()` and `close()` do not fall inside `onConnect`.
- Callbacks run as part of the step that calls them: what they call on the object comes as later steps, also at end of file, where the code unlocks between the two callbacks.
- `Socket::listen`, `onAccept`, and `open()` of a descriptor with a pending error in runs: no bytes move there (`Socket.Open` covers the latter as one call).
- Overloads that take file paths, throw, or forward to the modelled form.
- SourceSink.Sink.Resize: a container that fails to grow throws out of a `noexcept` function, which ends the program (include/hlib/sink.hpp:125-137, src/hlib_buffer.cpp:298-305), so only a container that was never allocated yields a null pointer.
- Buffers.Buffer.Insert: inserted data does not alias the buffer and sizes do not overflow `size_t`, which the code requires without checking.
- Buffers.Buffer.Extract: the destination is a different buffer; copying, moving and the string overloads are left out as combinations of modelled calls.
- Base64.Decode: an allocation failure, which ends the program, is excluded.
- Strings.Count: requires a non-empty substring, as the loop never ends otherwise.
- Strings.SplitBy: a moved-from token is taken to be empty.
- Uri.UriParse: the regular expression engine is replaced by the longest runs the expression describes; characters are taken one by one, without locales.
- Text.StrToUlOfDigits: `strtoul` is modelled in base 10 only.
- Serial.SchemaRoundTrip: enumerations are not fields of a schema; floats travel as bit patterns.
- Serial.Serializer.TransformInt: the produced pointer is a scratch array copied into the sink, so aliasing between value and sink is not captured.
- EventQueues.EventQueue.OnTimerTake: a callback that destroys the queue is not modelled.
- EventSystem.BusDeliversExactly: events of a queue that is gone are gone with it; the order within one broadcast is the hash table's, so any order is allowed.
- Endian.StoreBig8: shifts of wide integers are written as divisions by powers of 256, and only the Base64 code's octet masks are tied to their bit patterns.
- Fsm.FSM.Apply: a callback does not call the FSM; enumerators are at most 32 bits wide.
- Time.ConversionExact: signed 64-bit overflow in the conversion is excluded, as it is undefined.
- Floating-point time arithmetic and comparisons, fractions, and ratio conversions other than to the four units.
- `uri_encoding_escape` and `unescape`, `target_get_*`, other string helpers, `Pool`, `Usage`, `Result`, `Error`, `Handle`, `ScopeGuard`, `Latch`, containers and traits: independent of the above and easy, or not invertible.
