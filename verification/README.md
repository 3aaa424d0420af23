# libnsq, verified

A Dafny model of libnsq, the asynchronous C client for NSQ, with proofs of what its documentation and its code
promise. Three parts are modelled.

**The streaming pipeline.** `buffer.c`, `buffered_socket.c`, `nsqd_connection.c` and `message.c` on the way in;
`command.c`, `buffer.c` and `buffered_socket.c` on the way out. Each C object that is updated in place is a class
(`Buffer`, `BufferedSocket`, `NsqdConnection`) whose methods follow the C functions branch by branch, on real arrays.
Each method is proved against a pure step function (`Windows`, `Builders`, `Machine`), and `NsqdConnection.Dispatch`
and `Loop` show that a run of the event loop is a run of the pure step system. The theorems about runs are lemmas
about that system: `Sessions.Session` states them of the object. An event is whatever libev and the system calls may
do next: a connect outcome, a readable socket with the answers of FIONREAD and `recv`, a writable socket with the
answer of `send`, the zero-delay timer, user code writing, a close. All sequences of events, all chunks and all
sizes and capacities of the three buffers are covered.

**The lists of `utlist.h`.** The three merge sorts and the splicing macros run on nodes with real `next` and `prev`
fields. The sorts are proved equal to a pure bottom-up merge sort (`MergeSort`), which is then proved sorted, stable,
a permutation, and O(n log n).

**The reader's connections.** `reader.c` and the producer loop of `nsqlookupd.c`, as a class over a verified list and
as a step system whose runs are lookups, direct connects, closes and reconnect timers. `Sessions.ReaderSession`
states its theorems of the object.

| file | part of libnsq |
|---|---|
| Bytes, Windows, Buffers | bytes and numbers; the buffer as a value, its runs; the buffer as an object |
| Messages, Frames | message payloads; the inbound stream and its frames |
| WireLayouts | all formats byte by byte, in literal bytes |
| Commands, CommandDecoding, Builders, CommandBuilders | the commands, a decoder for them, the builders as a value and as methods |
| Machine, BufferedSockets, NsqdConnections, Sessions | a connection as a step system and as objects |
| ConnectionRuns, ConnectionTheorems, Progress | the invariant of every run, what every run logs, what is delivered, how far a connection gets |
| FrameMeanings, FrameLimits | what is made of the bytes received; which frames a read buffer can take |
| Lifecycles | which answers of the system calls make a connection and end it |
| OutboundTheorems, Acceptance, ProtocolTraces, Openings | what is sent: conservation, what the write buffer takes, the protocol trace, how it begins |
| CommandRooms, HandshakeRooms, HandshakeBytes | when the command buffer and the write buffer suffice for that; its first bytes |
| PeerTheorems, PeerRuns | what nsqd reads: of a log, of a run |
| MergeSort, Nodes, SortMacros | the sort as a value; list nodes; the sort macros |
| ListMacros, RingMacros, ListRuns | the splicing macros and runs of them |
| Readers, ReaderTheorems, ReaderLives, ReaderConnections | a reader's connections as a step system, its theorems, where each state comes from, the object |

Some results are about inputs where the code does not do what one would expect. Each is stated with the exact
condition under which it does.

* A builder ignores the results of `buffer_add`. It leaves exactly its command if and only if no piece of the command
  is refused (`Builders.BuiltIffTaken`); in a buffer that cannot grow (the default configuration) that means that the
  command fits (`Builders.BuiltIffItFits`). If only the body is refused, the line and the length stay, with no body
  behind them (`Builders.RefusedBodyLeavesItsLength`).
* `buffer_add` computes its need in 32 bits. It refuses exactly what would grow beyond the capacity, if and only if
  that need is not a truncated one (`Windows.RefusesIsExact`); an empty buffer of 4 GiB refuses a single byte
  (`Windows.HugeBufferRefuses`).
* The heartbeat comparison ignores the length of the frame. Its outcome is a property of the frame if and only if the
  body is not a proper prefix of `_heartbeat_` (`Frames.HeartbeatTestIsLocal`).
* A message id holding a newline makes the command stream ambiguous (`CommandDecoding.NewlineInIdIsAmbiguous`); a
  stream is read back if and only if every command is sendable (`CommandDecoding.StreamReadBackIffSendable`).
* A connection that waits for a frame can get past it if and only if the read buffer has no capacity or can become as
  large as the frame (`FrameLimits.HandledIffHeld`), which is not the same as its capacity
  (`FrameLimits.LargestExample`). With the default read buffer four bytes block a new connection for good
  (`FrameLimits.DefaultBufferCanBlock`, `FrameLimits.OversizedBlocks`).
* A frame that can be handled may still be lost, because a read asks for as much as is pending, and not for what is
  missing. In a buffer that cannot grow some reads lead to a refused one if and only if what is waited for exceeds the
  buffer's length less 4095 (`FrameLimits.RefusedIffNearLength`). A refused read closes the connection
  (`FrameLimits.RefusedReadCloses`); in the default buffer a frame of 12290 bytes may do it
  (`FrameLimits.DefaultBufferCanLose`).
* A write to a connection with nothing pending makes the next write event close it if and only if the write is empty
  or refused (`OutboundTheorems.WriteToIdleConnection`).
* Neither a refused piece of a command nor a refused write is noticed. The connection's own commands are all accepted,
  whole and in order, if and only if its command buffer refuses no piece of them and its write buffer none of them
  (`ProtocolTraces.ProtocolTrace`). With a write buffer of four bytes that cannot grow the connection goes on without
  having sent SUB and RDY (`HandshakeRooms.LostHandshake`). For buffers that cannot grow the exact sizes are
  `CommandRooms.FixedRoomIsExact` and `HandshakeRooms.FixedHandshakeIsExact`; for any buffers sufficient sizes are
  `CommandRooms.RoomForAll` and `HandshakeRooms.HandshakeGoesOut`.
* So nsqd reads exactly the commands issued, those of user code included, if and only if neither buffer refuses any
  (`PeerRuns.PeerReadsCommands`). In the default configuration, in which no buffer can grow, that means that each command
  fits the command buffer and that what each event writes finds room behind the bytes still pending
  (`PeerRuns.PeerReadsFixed`). A reader never makes an unbounded buffer, because a configured capacity of 0 is replaced by
  the default.
* `nsq_reader_connect_to_nsqd` takes descriptor 0 for a failure. The list names exactly the sockets in use if and only
  if none of them has descriptor 0 (`ReaderTheorems.ListIsLive`); such a socket may not close while the list is empty
  (`ReaderTheorems.CloseIsSafe`).
* Without lookupd a connection attempt that fails at once is lost for good (`ReaderTheorems.ConnectionsAreConserved`).

Premises:

* Buffers have an initial length above 0, which the doubling loop of `buffer_expand` needs.
* `need` in `buffer_add` is a signed 32-bit number. It is modelled as such; the contracts ask that the shortfall is
  below 2^31, exactly where the conversion stops guaranteeing room (`Windows.RoomUnlessTruncated`).
* Frames have at least 4 bytes and MESSAGE frames at least 30. A run goes on only through frames that meet this; on a
  stream that does, every timer event is such a one (`ConnectionTheorems.WellFormedIsSafe`), and on any other stream
  the run stops in front of the first frame that does not (`Progress.Settles`).
* User callbacks write through the connection, but do not touch its read buffer and do not close it.
* A socket is connected once in its life, as `reader.c` does it.

## Model

| member | source | states |
|---|---|---|
| Windows.AddEffect | buffer.c:74-91 | an addition appends all of its bytes or changes nothing at all; it is refused exactly when the window must grow past its capacity, by the need that is there or by a truncated one |
| Windows.RefusesIsExact | buffer.c:77-85 | an addition is refused exactly when it does not fit under the capacity, if and only if the 32-bit need is not a truncated one; up to 2 GiB it never is |
| Windows.RoomUnlessTruncated | buffer.c:76-85 | whether it realigns or grows, making room gives room, keeps the contents, and the 32-bit `need` is good for it exactly below 2^31 |
| Windows.HugeBufferRefuses | buffer.c:77 | where it is: an empty 4 GiB buffer refuses one byte |
| Windows.FixedReadRefusal | buffer.c:108-115 | a buffer that cannot grow refuses a read exactly when the unread bytes and the bytes asked for exceed it |
| Windows.DoubledIsLeast | buffer.c:55-58 | the doubling loop stops at the first of length, 2*length, 4*length, ... that is not below the need |
| Windows.RunIsFifo | buffer.c:33-133 | any run of add, drain, reset, receive and partial send is a run of a byte queue: what was there and what entered is what left and what is there |
| Windows.StepIsFifo | buffer.c:33-133 | the same for each single step, accepted or refused |
| Windows.GrowthStep | buffer.c:55-71 | a step that changes the length multiplies it by 1 + 2^k for the least k that covers the need, within the capacity |
| Windows.GrowthLaw | buffer.c:39-72 | over any run the length is a multiple of the initial one, never above max(initial, capacity) when capped, and all old lengths copied sum to no more than final minus initial |
| Windows.EmptyIsAtStart | buffer.c:33-37 | over any run, a buffer that holds nothing starts at the front of its allocation again |
| Buffers.Buffer.constructor | buffer.c:11-23 | a new buffer is empty, with the given length and capacity |
| Buffers.Buffer.Reset | buffer.c:33-37 | the buffer becomes the empty window at the start of the same allocation |
| Buffers.Buffer.Expand | buffer.c:39-72 | on the array: realign by moving bytes, grow by reallocation with the bytes kept in place, or refuse without a trace |
| Buffers.Buffer.Add | buffer.c:74-91 | on the array, with every access inside it: exactly `Windows.Add` |
| Buffers.Buffer.Drain | buffer.c:93-101 | the first min(n, size) bytes leave; the memory is not touched |
| Buffers.Buffer.ReadFd | buffer.c:103-123 | for every answer of FIONREAD and `recv`: the bytes received are appended, -1 without a call when there is no room |
| Buffers.Buffer.WriteFd | buffer.c:125-133 | for every answer of `send`: the bytes taken leave from the front |
| Messages.Ntoh64IsBigEndian | message.c:6-12 | the shifts and ors compute the base-256 value of eight bytes, below 2^64 |
| Messages.DecodeEncode | message.c:14-29 | decoding the layout of a message gives back its fields, the signed timestamp included |
| Messages.EncodeDecode | message.c:14-29 | every payload of at least 26 bytes is the layout of the message decoded from it, whose fields are in range |
| Messages.Ntoh64At | message.c:6-12 | read from memory at any position |
| Messages.NsqDecodeMessage | message.c:14-29 | on memory: the decoded message of exactly the given bytes |
| WireLayouts.MessageLayout | message.c:14-29 | byte by byte: a signed time in bytes 0 to 7, attempts in 8 and 9, the id in 10 to 25, the body from 26 on |
| CommandDecoding.DecodeEncoded | command.c:9-165 | a decoder finds a sendable command in front of any stream, and what follows it |
| CommandDecoding.DecodedIsEncoded | command.c:9-165 | whatever the decoder accepts is the encoding of its answer, which is sendable |
| CommandDecoding.ReadBackIffSendable | command.c:9-165 | a command survives the wire if and only if its names are free of space and newline and its lengths and counts fit 32 bits |
| CommandDecoding.StreamReadBackIffSendable | command.c:9-165 | a whole stream is read back to exactly the commands written, if and only if each is sendable |
| CommandDecoding.StreamIsEncoded | command.c:9-165 | the decoder accepts nothing but streams of sendable commands |
| CommandDecoding.UniquelyDecodable | command.c:9-165 | two different series of sendable commands never have the same bytes |
| CommandDecoding.NewlineInIdIsAmbiguous | command.c:61-68 | an id with a newline reads as a shorter id and another command |
| CommandDecoding.ParseDecimal | command.c:24 | every 32-bit `int` printed with `%d` is read back, and its text is free of spaces and newlines |
| CommandDecoding.ParseBatchBack | command.c:111-136 | the payload of MPUB is read back to the list of bodies |
| WireLayouts.DecimalIsDenoted | command.c:24 | a text is printed for an integer if and only if it is its one decimal text: 45 in front if negative, then digits 48 to 57 of that value, no leading zero |
| WireLayouts.SizeIsFourBytes | command.c:36 | a length goes out as four bytes, most significant first |
| WireLayouts.SubLayout | command.c:42-50 | in literal bytes, for all arguments: `SUB`, the topic, the channel, one space between each, a newline |
| WireLayouts.RdyLayout | command.c:52-59 | `RDY` and the count in decimal |
| WireLayouts.FinLayout | command.c:61-68 | `FIN` and the id |
| WireLayouts.ReqLayout | command.c:70-78 | `REQ`, the id, the timeout in decimal |
| WireLayouts.NopLayout | command.c:80-83 | `NOP` |
| WireLayouts.PubLayout | command.c:85-92 | `PUB` and the topic; the length of the body in four bytes, the body |
| WireLayouts.DpubLayout | command.c:94-102 | `DPUB`, the topic, the time in decimal; the length of the body, the body |
| WireLayouts.MpubLayout | command.c:104-137 | `MPUB` and the topic; the length of the payload, how many bodies, each of them behind its length |
| WireLayouts.TouchLayout | command.c:139-146 | `TOUCH` and the id |
| WireLayouts.ClsLayout | command.c:148-152 | `CLS` |
| WireLayouts.AuthLayout | command.c:154-158 | `AUTH`; the length of the secret, the secret |
| WireLayouts.IdentifyLayout | command.c:161-165 | `IDENTIFY`; the length of the text, the text |
| Builders.FlatPieces | command.c:9-165 | the pieces each builder adds, one by one, make up the encoding of its command |
| Builders.WholeIffTaken | command.c:16-39 | in any buffer a series of additions is kept whole, and in its full length, if and only if none that adds anything is refused |
| Builders.BuiltIffTaken | command.c:16-39 | in any buffer a builder leaves exactly its command behind what was there if and only if no piece of it is refused |
| Builders.BuiltIffItFits | command.c:16-39 | in an unbounded buffer it always does; in one that cannot grow if and only if the command fits |
| Builders.FixedTakesWhatFits | command.c:16-39 | a buffer that cannot grow refuses none of a series of additions if and only if all of it fits |
| Builders.RefusedBodyLeavesItsLength | command.c:35-39 | in any buffer, if only the body is refused, the line and the length stay and no body follows |
| Builders.FixedRefusesBody | command.c:35-39 | in one that cannot grow that happens exactly to the commands too long by a part of their body |
| CommandBuilders.DecimalFits | command.c:13-25 | the text of any `int` and its NUL fit the local array |
| CommandBuilders.NsqBufferAdd | command.c:9-40 | on the buffer: the name, the parameters each behind a space, a newline, the body behind its length, added piece by piece |
| CommandBuilders.NsqSubscribe | command.c:42-50 | builds SUB with topic and channel |
| CommandBuilders.NsqReady | command.c:52-59 | builds RDY with the count |
| CommandBuilders.NsqFinish | command.c:61-68 | builds FIN with the id |
| CommandBuilders.NsqRequeue | command.c:70-78 | builds REQ with the id and the timeout |
| CommandBuilders.NsqNop | command.c:80-83 | builds NOP |
| CommandBuilders.NsqPublish | command.c:85-92 | builds PUB with topic and body |
| CommandBuilders.NsqDeferPublish | command.c:94-102 | builds DPUB with topic, time and body |
| CommandBuilders.NsqTouch | command.c:139-146 | builds TOUCH with the id |
| CommandBuilders.NsqCleanlyCloseConnection | command.c:148-152 | builds CLS |
| CommandBuilders.NsqAuth | command.c:154-158 | builds AUTH with the secret as body |
| CommandBuilders.NsqIdentify | command.c:161-165 | builds IDENTIFY with the JSON text as body |
| CommandBuilders.BatchSize | command.c:111-114 | the first loop computes the exact size of the payload |
| CommandBuilders.FillBatch | command.c:115-134 | the second loop fills that block to the last byte and no further, with the count and each body behind its length |
| CommandBuilders.NsqMultiPublish | command.c:104-137 | builds MPUB with that payload as body |
| Frames.ParseStream | nsqd_connection.c:27-77 | the reference parser finds in a stream the frames it was made of and goes on with what follows |
| Frames.FramesGrow | nsqd_connection.c:27-77 | more bytes only add frames at the end |
| Frames.HeartbeatTestIsLocal | nsqd_connection.c:60 | the comparison of 11 bytes of memory is about the frame alone exactly when the body is not a proper prefix of the text |
| WireLayouts.StreamIsFramed | nsqd_connection.c:27-43 | a stream is its frames, each behind its length in four bytes |
| WireLayouts.MessageByBytes | nsq.h:17 | a frame is a message exactly if it starts with 0, 0, 0, 2 |
| WireLayouts.HeartbeatByBytes | nsqd_connection.c:60 | and a heartbeat exactly if it starts with 0, 0, 0, 0 and the eleven bytes of `_heartbeat_` |
| BufferedSockets.BufferedSocket.constructor | buffered_socket.c:16-50 | a new socket: no descriptor, nothing registered, empty buffers |
| BufferedSockets.BufferedSocket.Connect | buffered_socket.c:63-118 | for every answer of the system calls: CONNECTING and the descriptor, 0 included, on success; 0 and the same state when busy or on any failure, after which a descriptor that was opened stays stored |
| BufferedSockets.BufferedSocket.StartEvents | buffered_socket.c:147-164 | CONNECTED, the read watcher runs, the write watcher does not |
| BufferedSockets.BufferedSocket.Close | buffered_socket.c:171-195 | closing stops watchers and timer; closing again does nothing |
| BufferedSockets.BufferedSocket.Write | buffered_socket.c:197-209 | ignored unless connected; otherwise added to the write buffer, and the watcher starts even if the buffer refused |
| BufferedSockets.BufferedSocket.ReadBytes | buffered_socket.c:242-252 | registers the request and arms the timer if the bytes are already there |
| BufferedSockets.BufferedSocket.ReadBytesCb | buffered_socket.c:224-240 | hands out the callback and clears the request first |
| BufferedSockets.BufferedSocket.ReadCb | buffered_socket.c:254-287 | for every outcome of the read: retry, close, or append and arm the timer if the request is met |
| BufferedSockets.BufferedSocket.WriteCb | buffered_socket.c:289-321 | for every outcome of the send: what was taken leaves, the watcher stops when nothing is left, retry or close |
| NsqdConnections.IsHeartbeatText | nsqd_connection.c:60 | the comparison on memory is the prefix test on the frame body |
| NsqdConnections.NsqdConnection.WriteBuffer | buffered_socket.c:211-222 | writes and empties the command buffer, nothing for an empty one |
| NsqdConnections.NsqdConnection.ReaderConnectCb | reader.c:18-37 | the user's callback, then SUB, then RDY, each built in a reset command buffer |
| NsqdConnections.NsqdConnection.OnConnected | nsqd_connection.c:10-25 | the magic, the reader's callback, then a request for the first length |
| NsqdConnections.NsqdConnection.TakeSize | nsqd_connection.c:34-38 | the length read through the pointer after the drain is the one that stood at the front of the window before it |
| NsqdConnections.NsqdConnection.ReadSizeCb | nsqd_connection.c:27-43 | the length leaves the stream, and a frame of that length is requested |
| NsqdConnections.NsqdConnection.TakeFrameType | nsqd_connection.c:50-57 | the type leaves the window, and the rest of the frame is in memory at `current_data` |
| NsqdConnections.NsqdConnection.HandleFrame | nsqd_connection.c:58-72 | a NOP for a heartbeat, the decoded message for a MESSAGE frame, nothing else |
| NsqdConnections.NsqdConnection.ReadDataCb | nsqd_connection.c:45-77 | the frame at the front is answered and dropped, and the next length requested |
| NsqdConnections.NsqdConnection.OnTimer | buffered_socket.c:224-240 | the timer callback with the connection's readers behind it |
| NsqdConnections.NsqdConnection.Dispatch | nsqd_connection.c:10-77 | any event changes the object exactly as the step system says |
| NsqdConnections.NsqdConnection.Loop | nsqd_connection.c:10-77 | any run of events on the object is that run of the step system |
| ConnectionRuns.StepKeepsInv | buffered_socket.c:120-321 | every event keeps the invariant: the stream bookkeeping, the wake-ups, the outbound bookkeeping, and that the messages delivered are those of the frames handled |
| ConnectionRuns.RunKeepsInv | buffered_socket.c:120-321 | so does every run |
| ConnectionRuns.SizeKeepsInv | nsqd_connection.c:27-43 | the size reader keeps it |
| ConnectionRuns.DataEffect | nsqd_connection.c:45-77 | the frame reader moves one frame from the buffer to the frames handled and writes its answer |
| ConnectionRuns.RunLogs | buffered_socket.c:120-321 | what a run writes and delivers is, in order, what its events say: the handshake, the answers to frames, the writes of user code while connected |
| ConnectionRuns.StepFates | buffered_socket.c:197-209 | each write of an event is logged as accepted exactly if the write buffer, as the writes before it left it, takes it |
| ConnectionTheorems.Delivery | nsqd_connection.c:27-77 | in every run the messages delivered are those of a prefix of the frames received, in order, and of all of them whenever the timer is not armed |
| FrameMeanings.DeliveredByBytes | nsqd_connection.c:27-77 | from the bytes, in every run: what was received is frames behind four-byte lengths and a rest, in which no frame is whole once the timer rests; the messages delivered are those in the frames that start with 0, 0, 0, 2, in order |
| ConnectionTheorems.ChunkingDoesNotMatter | buffered_socket.c:224-280 | two quiet runs over the same bytes delivered the same messages, for any chunks, timing, writes and buffer sizes |
| ConnectionTheorems.DeliveriesNest | buffered_socket.c:224-280 | quiet or not, of two runs over nested streams one delivered a prefix of what the other did |
| ConnectionTheorems.WakeUps | buffered_socket.c:242-280 | in every connected state a request is registered, and the timer is armed if and only if its bytes are buffered |
| ConnectionTheorems.WellFormedIsSafe | nsqd_connection.c:45-77 | on a well-formed stream no timer callback reads outside the buffer |
| Progress.FramingProgress | nsqd_connection.c:27-77 | in every run each timer callback takes at least 4 bytes; without input at most a quarter as many callbacks as bytes |
| Progress.Settles | nsqd_connection.c:27-77 | from every reachable connected state the timer alone handles every whole frame, up to the first that breaks the premises |
| Progress.ArmedIsOkOrStuck | nsqd_connection.c:45-77 | an armed timer may fire exactly when its frame meets the premises |
| Lifecycles.ConnectOutcome | buffered_socket.c:63-118 | a connection is begun exactly if none is there or begun, the address resolves, there is a descriptor, and it can be used; the descriptor is stored even if not |
| Lifecycles.ReadOutcome | buffered_socket.c:254-287 | a read closes exactly if there was room and the stream is at its end, or there was no room or `recv` failed and `errno` asks for no retry; what arrived is in the buffer |
| Lifecycles.WriteOutcome | buffered_socket.c:289-321 | a write closes exactly if `send` took nothing, or failed and `errno` asks for no retry; what it took has left the buffer |
| Lifecycles.StateOfRun | buffered_socket.c:63-321 | in every run: ended if and only if some event was a close, a failed connect, or a read or write with such an answer; connected if and only if made and not ended; untouched if and only if none was begun |
| Lifecycles.EndedForGood | buffered_socket.c:171-209 | once ended, the socket does not change any more in any run |
| Lifecycles.DescriptorOfRun | buffered_socket.c:171-184 | in every run a socket in use has a descriptor, and one that has ended has given it back |
| FrameLimits.GrowthStaysBelow | buffer.c:55-65 | no growth for a read leads beyond the largest length |
| FrameLimits.GrowthReaches | buffer.c:55-65 | and every length up to it can be grown to by reads of at most 4096 bytes |
| FrameLimits.LargestExample | buffer.c:62-65 | from 4096 bytes under a capacity of 10000 a buffer ends at 8192 |
| FrameLimits.OversizedBlocks | buffer.c:62-65 | a frame larger than the read buffer can become blocks the connection in every run |
| FrameLimits.HandledIffHeld | buffer.c:39-72 | a frame that is waited for can be handled in some run if and only if the buffer has no capacity or can become as large |
| FrameLimits.DefaultBufferCanBlock | reader.c:12-13 | with the default read buffer the first four bytes received can block a new connection |
| FrameLimits.RefusedIffNearLength | buffer.c:103-115 | of a connection at rest whose read buffer cannot grow: some reads that leave it at rest lead to one that is refused if and only if what it waits for exceeds the length less 4095 |
| FrameLimits.RefusedReadCloses | buffered_socket.c:242-269 | whatever the answers, a refused read closes the connection, or with an old `errno` that asks for a retry changes nothing |
| FrameLimits.DefaultBufferCanLose | reader.c:12-13 | a run of a new connection with the default read buffer to where it waits for a frame of 12290 bytes, which it can hold and yet may lose |
| OutboundTheorems.Conservation | buffered_socket.c:197-222 | in every run the bytes sent and then the bytes pending are the accepted writes in order, and pending bytes keep the write watcher running |
| OutboundTheorems.WriterIffPending | buffered_socket.c:289-299 | if no write was empty or refused, the watcher runs exactly when bytes are pending |
| OutboundTheorems.IdleWriterIsFatal | buffered_socket.c:294-320 | the next write event closes the connection whatever `send` answers, retries apart, if and only if nothing is pending |
| OutboundTheorems.WriteToIdleConnection | buffered_socket.c:197-209 | in every run: a user write to a connection with nothing pending leads there if and only if it is empty or refused |
| Acceptance.AcceptedIffTaken | buffered_socket.c:205 | in every run no write was refused, of all or of the connection's own, if and only if the write buffer took each one as it came |
| Acceptance.TakenIfRoom | buffered_socket.c:205 | it takes all if each event finds room for what it writes behind the bytes pending (lengths up to 2^31), exactly then if it cannot grow, and always if it has no capacity |
| Acceptance.ShortRunHasRoom | buffered_socket.c:205 | there is room throughout a run that writes no more than the length of the buffer, whenever it is sent |
| Acceptance.AcceptedBytes | buffered_socket.c:205 | unless writes are empty, the bytes accepted are as many as the bytes written exactly if nothing was refused, and then they are the same |
| ProtocolTraces.HandedOver | nsqd_connection.c:10-77 | in every run the connection's own writes and deliveries are the magic, SUB, RDY, then one NOP per heartbeat and each message, in frame order, if and only if its command buffer refused no piece of these commands |
| ProtocolTraces.ProtocolTrace | nsqd_connection.c:10-77 | and what its write buffer took of them is that, if and only if besides it refused none of these writes |
| FrameMeanings.RepliesByBytes | nsqd_connection.c:10-77 | the same byte by byte: the magic, SUB and RDY with the fields of the reader, `NOP` for each frame that is a heartbeat by its bytes, each message, nothing else |
| CommandRooms.HoldsMeansWhole | buffer.c:39-72 | a command buffer takes a command whole if it has no capacity, or the command fits, or three times its length is within the capacity |
| CommandRooms.RoomForAll | command.c:9-40 | if that holds of the new command buffer for SUB, RDY and NOP, no run sees a piece of them refused, whatever user code builds |
| CommandRooms.FixedRoomIsExact | reader.c:10-11 | of a command buffer that cannot grow: no run sees a piece of them refused if and only if SUB and RDY each fit its length |
| CommandRooms.ProtocolTraceWithRoom | nsqd_connection.c:10-77 | with that room the trace is handed over in every run; and accepted, with room in the write buffer or without a capacity |
| CommandRooms.CommandBufferIsEmpty | buffered_socket.c:211-222 | after every run the command buffer is empty: what was built in it has been handed over |
| Openings.HandshakeComesFirst | nsqd_connection.c:16-22 | in every run the first write is the magic; and what the write buffer takes is the magic, then only writes of the user's connect callback, then SUB, and right behind it RDY, if and only if the command buffer refused no piece of these two and the write buffer none of the three |
| HandshakeRooms.HandshakeGoesOut | reader.c:18-37 | so it is in every run, if the length of the write buffer covers the magic, SUB, RDY and what the connect callback hands over |
| HandshakeRooms.FixedHandshakeIsExact | reader.c:14-15 | of a write buffer that cannot grow: in every run in which the connect callback writes nothing, if and only if the buffer holds the magic, SUB and RDY together |
| HandshakeRooms.LostHandshake | buffered_socket.c:205 | the run that hands over all that is due, stays connected, and sends or keeps nothing but the magic |
| HandshakeBytes.HandshakeOnWire | reader.c:18-37 | in every run in which the handshake gets out, the bytes sent and pending begin with `  V2`, what the connect callback got out (nothing if it is quiet), `SUB`, topic, channel, newline, `RDY`, the count in decimal, newline |
| PeerTheorems.PeerReadsLog | nsqd_connection.c:10-77 | end to end: if the connection's commands are built whole and user code wrote commands, what nsqd gets is the magic and a stream that decodes to exactly the commands written, if and only if the write buffer refused nothing; leaving out those of user code they are SUB, RDY and one NOP per heartbeat handled |
| PeerTheorems.PeerReads | reader.c:18-37 | without user writes the stream decodes to SUB, RDY and one NOP per heartbeat handled, if and only if the write buffer refused nothing |
| PeerRuns.PeerReadsCommands | reader.c:18-37 | in terms of the run: the stream decodes to exactly the commands issued by user code and by the connection, in order, if and only if the command buffer refused no piece of any and the write buffer no write |
| PeerRuns.PeerReadsEveryRun | reader.c:18-37 | with room in the command buffer for each command that is so in every run in which each event finds room in the write buffer; exactly then if that cannot grow; always if it has no capacity |
| PeerRuns.FixedAllBuilt | command.c:9-40 | in a command buffer that cannot grow all commands of a run are built whole if and only if each fits |
| PeerRuns.PeerReadsFixed | reader.c:10-15 | with a command and a write buffer that cannot grow, as by default: the stream decodes to exactly the commands issued if and only if each fits the command buffer and each event finds room in the write buffer |
| Sessions.Session | nsqd_connection.c:93-120 | delivery (byte by byte too), conservation, wake-ups, the end of the connection and its descriptor, of the object itself, for any buffer sizes and any events |
| Sessions.ReaderSession | reader.c:119-160 | of the reader object itself: its list is acyclic and names the connections in use; its mode and who waits come from the events; direct calls bound what is listed and waiting |
| MergeSort.MergePermutes | utlist.h:127-146 | a merge loses and invents nothing |
| MergeSort.PassDoublesRuns | utlist.h:115-160 | a pass turns sorted runs of length k into sorted runs of length 2k |
| MergeSort.MergeIsStable | utlist.h:127-146 | elements that compare equal keep their order, those of the first run first |
| MergeSort.SortIsCorrect | utlist.h:102-162 | the result is a permutation, and for a total preorder sorted and stable |
| MergeSort.PassesIsLog | utlist.h:115-160 | on n > 1 elements exactly ceil(log2 n) passes |
| MergeSort.SortIsFast | utlist.h:59 | at most n comparisons a pass, hence at most n * ceil(log2 n) |
| SortMacros.SkipRun | utlist.h:121-126 | the counting loop stops behind the run or at the end, by null or by the old head |
| SortMacros.MergeRuns | utlist.h:127-152 | the inner loop puts out exactly the merge of the two runs while it relinks them |
| SortMacros.MergePass | utlist.h:115-156 | a pass on the nodes is a pass on the sequence, with as many comparisons, and counts 1 merge exactly when it was the last |
| SortMacros.LLSort | utlist.h:105-162 | the macro ends in an acyclic list of exactly the sorted nodes, with the comparisons and passes counted, and leaves `prev` alone |
| SortMacros.DLSort | utlist.h:168-225 | the same with every back link restored and `head->prev` the last node |
| SortMacros.CDLSort | utlist.h:230-301 | the same, closed on the new head though the pass ends at the old one |
| Nodes.LinksAreInverse | utlist.h:230-301 | in a circular list `prev` and `next` undo each other at every node |
| ListMacros.LList.Prepend | utlist.h:309-313 | the list is the element and then the old list |
| ListMacros.LList.Concat | utlist.h:318-328 | the list is the one and then the other, empty ones included |
| ListMacros.LList.Append | utlist.h:333-344 | the list is the old list and then the element |
| ListMacros.LList.Delete | utlist.h:349-363 | the list without the element, wherever it is; unchanged if it is not there |
| ListMacros.LList.Replace | utlist.h:448-466 | the new element in the place of the old one; unchanged if that is not there |
| ListMacros.LList.PrependElem | utlist.h:468-486 | the new element in front of the given one; unchanged if that is not there |
| ListMacros.DLPrepend | utlist.h:495-505 | the element, then the list, all links and the tail pointer kept |
| ListMacros.DLAppend | utlist.h:510-522 | the list, then the element, likewise |
| ListMacros.DLConcat | utlist.h:527-540 | one list after the other, likewise, empty ones included |
| ListMacros.DLDelete | utlist.h:545-561 | the list without the element, likewise: the only one, the first, the last or in between |
| ListMacros.DLPrependElem | utlist.h:609-622 | the new element in front of the given one, likewise |
| ListMacros.DLReplaceElem | utlist.h:583-607 | the new element in the place of the given one, likewise |
| RingMacros.CDLPrepend | utlist.h:631-643 | the element, then the list, closed to a ring on the new head |
| RingMacros.CDLDelete | utlist.h:648-657 | the ring without the element, the head moving on if it was that |
| RingMacros.CDLReplaceElem | utlist.h:693-711 | the ring with the new element in the place of the given one |
| RingMacros.CDLPrependElem | utlist.h:713-725 | the ring with the new element in front of the given one |
| RingMacros.RotateRing | utlist.h:648-657 | a ring is a ring from each of its nodes, which is why one pair of assignments serves every position |
| RingMacros.Sides | utlist.h:583-622 | removal, exchange and insertion in terms of what lies on either side of the element |
| ListRuns.EditIsUndone | utlist.h:495-622 | each of these edits is undone by one other of them |
| ListRuns.DLRun | utlist.h:495-622 | any run of the macros, `DL_CONCAT` with further lists included, does to the list what its steps do to the sequence, and keeps the list whole |
| ListRuns.CDLRun | utlist.h:631-725 | the same for circular lists |
| Readers.StepKeepsInv | reader.c:51-84 | every event keeps the list free of repetition and naming exactly the connections in use on a positive descriptor, and timers only on disconnected ones |
| ReaderTheorems.ListIsLive | reader.c:205-222 | after any run the list names exactly the connections in use, if and only if none of them has descriptor 0 |
| ReaderTheorems.DescriptorZeroIsNotListed | reader.c:212-215 | the connection the list misses, and whose close would follow a null head |
| ReaderTheorems.CloseIsSafe | reader.c:61 | in every run a connection in use may close if and only if it has another descriptor or the list is not empty |
| ReaderTheorems.AnswerAddsProducers | nsqlookupd.c:43-65 | a response keeps the old connections in place and adds just the producers that could be connected to, each once |
| ReaderTheorems.DistinctUnlessRepeated | reader.c:205-222 | a step keeps endpoints distinct exactly unless it connects, unasked, to a listed endpoint |
| ReaderTheorems.LookupdKeepsEndpointsDistinct | nsqlookupd.c:43-65 | in lookupd mode endpoints stay distinct in every run |
| ReaderTheorems.ConnectionsAreConserved | reader.c:51-84 | in direct mode connections in use, connections waiting and attempts that failed at once add up to the calls made |
| ReaderTheorems.DirectModeBound | reader.c:205-222 | listed and waiting connections never exceed the direct calls, and equal them when nothing fails |
| ReaderLives.ModeOfRun | reader.c:183-203 | in every run the reader has a lookupd if and only if it had one or was given one |
| ReaderLives.AddingLookupdEndsRetries | reader.c:64-81 | after any run in which a lookupd was added, no close lets a connection wait and no timer makes a new one, in any run that follows |
| ReaderLives.StatesOfRun | reader.c:51-69 | in every run a socket is disconnected if and only if it was closed, connected if and only if established and not closed |
| ReaderLives.WaitingOfRun | reader.c:63-81 | in every run a connection waits for its timer if and only if it was closed while there was no lookupd, and has not been retried |
| ReaderLives.RetryReconnects | reader.c:73-84 | the timer makes one new connection to the same endpoint, or none with lookupd |
| ReaderLives.DirectConnects | reader.c:205-222 | a call makes one new connection to its endpoint, listed exactly for a positive descriptor |
| ReaderLives.DescriptorsOfRun | buffered_socket.c:180-183 | in every run a socket of the reader has a descriptor exactly while it is in use |
| ReaderConnections.NsqReader.ConnectToNsqd | reader.c:205-222 | on the list: a new connection is appended exactly for a positive descriptor |
| ReaderConnections.NsqReader.IsKnown | nsqlookupd.c:54-61 | the search over the list answers whether an endpoint is connected |
| ReaderConnections.NsqReader.LookupRequestCb | nsqlookupd.c:43-65 | the whole loop, repeats among the producers included |
| ReaderConnections.NsqReader.CloseCb | reader.c:51-69 | the connection leaves the list, and waits for its timer only without lookupd |
| ReaderConnections.NsqReader.ReconnectCb | reader.c:73-84 | the timer reconnects only without lookupd, and the old connection is gone |
| ReaderConnections.NsqReader.StopTimers | reader.c:188-192 | the loop that stops reconnect timers finds none: no listed connection has one that runs |
| ReaderConnections.NsqReader.AddNsqlookupdEndpoint | reader.c:183-203 | nothing changes but the mode |
| ReaderConnections.NsqReader.Dispatch | reader.c:18-222 | any event changes the reader exactly as the step system says |
| ReaderConnections.NsqReader.Loop | reader.c:18-222 | any run of events on the reader is that run of the step system, on a list that stays acyclic |

## Left out

- `http.c`, `json.c` and their headers, and the parts of nsqlookupd.c that take a response apart: a response is a list of endpoints with the outcome of connecting to each; a failed or unreadable response is the empty list.
- The system calls and libev: they are the parameters of the callbacks, in every combination. A watcher is a flag; the zero-delay timer is a flag whose callback runs in one step.
- Memory ownership: `free_*`, teardown in `free_nsq_reader`, the scratch block of MPUB that is never freed, and freeing a reconnect timer twice.
- A failing `malloc` or `realloc`, and sizes beyond 2^64: lengths are unbounded, except `need` and the 32-bit fields.
- Callbacks that close the connection or change its read buffer, and a second life of the same socket object.
- Closing a socket that was never connected: `buffered_socket_close` would stop watchers that were not initialised.
- ListMacros.LList.Delete: asks for a list that has an element, because `LL_DELETE` of a node that is not in an empty list follows the null head. So does `Readers.Enabled` for the close of a connection that the list does not name.
- SortMacros.LLSort: at most 2^30 nodes, as for DLSort and CDLSort, because `insize` is an `int` and is doubled; and a comparison that looks at what the sort does not change.
- The `read_callback`, `write_callback` and `error_callback` of a socket, which a connection leaves empty or uses for debug output only.
- The connection's own message callback sets the last byte of `id` to NUL; the model's id is the 16 bytes before it.
- ReaderConnections.NsqReader: a connection is a record and a list link at the same position of two tables, not one object with both.
- Liveness of reconnecting, the choice of a lookupd, the poll timer, URL formatting, configuration defaults, debug output and the sample clients.
- The VS2008 variants, the foreach and search macros of `utlist.h` as members of their own.
