# hl-tinyrpc, modelled and proved in Dafny

hl-tinyrpc is an RPC framework on the Reactor pattern: an event loop over epoll, a TinyPB frame format
carried over growable byte buffers, a dispatcher that maps `service.method` names to services, a timer
for call timeouts, and an asynchronous logger. This project models the stateful core of it and proves
what that core keeps, over every input, every run and every interleaving.

`dafny verify dfyconfig.toml` verifies everything.

Every source file that changes state in place has its class here, with the source's fields and loops.
Each method is proved equal to one function on the class's abstract value, and the theorems are about
those functions. Undefined behaviour of the C++ code (a copy outside an array, a loop that never
advances) is an outcome of the model instead of a precondition, so decoding is defined on every buffer content.
`Decode` is the decoder up to its first move back, `DecodeOn` follows it through any number of them, and
`Feed` and `FeedOn` are the runs of readable events over the two.

| file | what it holds |
|---|---|
| Bytes | byte strings, integers in network byte order (Appendix B of RFC 791), C strings |
| TcpBuffer, BufferRuns | the byte queue over an array and two indices; FIFO and amortised cost over runs |
| TinyPB, TinyPBStream, TinyPBDecode | the frame format, the scanning decoder on any buffer content, the stream round trip |
| TinyPBParse | what the field reads make of any frame, and the way back from the message to the bytes |
| TinyPBBackward, TinyPBCoder | frames of length below one, which move the read index back; the three methods of the coder |
| RpcDispatcher | name parsing and dispatch |
| TcpConnection, ConnectionRuns, Reassembly | reading, executing and writing; runs of events; streams in chunks |
| RpcDelivery, Arriving, PeerRuns, RpcExchange | the callback table; what a caller can check; a server and a client over any run; requests and replies end to end |
| Examples | two calls in two writes; a cut behind a frame inside a frame |
| Timer, TimerRuns | the event multimap and its alarm; runs of the timer |
| RpcChannel, RpcCalls | one call's callbacks; any number of calls on one loop |
| EventLoop | the task queue and the interest set |
| Log, LogRuns, LogPair | the log pipeline with file rotation; runs of one logger, and of the two of a process |
| MsgId, FdEventGroup, IOThreadGroup | the id counter, the descriptor table, the round robin |

Some of the theorems say where the code does not do what one would expect of it.

- `pk_len` leaves out the error text (tinypb_coder.cc:42), which the decoder subtracts (line 206): a
  message round-trips if and only if it has none and its names are short and NUL-free
  (`FrameRoundTrip`). The encoder writes the text past the end of what it allocated. Every error reply of
  the dispatcher has one, so a server survives encoding its replies if and only if every request is
  answered by a service method (`SurvivesIff`, `ServerRun`).
- The decoder keeps scanning inside an incomplete frame (tinypb_coder.cc:132-134), so a stream that is
  cut in pieces arrives if and only if every piece is shorter than the free space and the scan skips all
  that is left behind the frames a piece completes (`ChunkedRoundTrip`); where cuts leave length fields
  whole that means that nothing left over looks like a whole frame (`SettledIsClean`).
- The decoder uses lengths below one (tinypb_coder.cc:128-150). The read index then moves back over
  consumed bytes, or the move is refused and the same hit is met for ever (`MoveRefusedIff`, `OnEnds`,
  `StuckExample`, `RewindExample`). A short frame cut inside its length field, in zeroed space, reads as
  length zero; decoding then returns if and only if the length field lies inside the array and behind a
  byte of the array that is no end byte (`TornHeaderReturnsIff`), so behind whole
  frames or at the start of the array it does not (`TornStreamNeverReturns`).
- `moveWriteIndex` refuses to fill the buffer (tcp_buffer.cc:108), so the doubling in `onRead`
  (tcp_connection.cc:61-63) never takes place and no message as large as the first capacity, 128 bytes
  for clients and servers alike, is ever received (`CapacityIsForever`).
- `onWrite` never consumes the out-buffer (tcp_connection.cc:192-213): everything is sent again with
  every write. Callbacks run once all the same (`EndToEnd`), but the server executes requests again
  (`RequestsReplayed`), and an id that is used again gets its old reply (`StaleIff`).
- In `onTimer` the `break` belongs to the test for cancellation (timer.cc:88-97). A pass without a
  cancelled due event drops all events that are not due (`FutureSurvivesIff`), and a cancelled event
  that is due holds up all events behind it for ever (`JammedForever`). An answered call cancels its
  event and does not delete it (rpc_channel.cc:94), so one answered call on an idle loop ends all later
  timeouts there (`OneAnswerIsEnough`). The logger's periodic event is on the same kind of timer and is
  dropped or held up in the same way (`PassDropsOthers`, `AnsweredSilences`).
- A caller that cancels a call and is then answered in time never hears of it: the response cancels the
  timeout and skips the closure (`CancelThenAnswer`).
- The comment at tcp_client.cc:74 says that the connect callback runs only after success; it runs after
  a failure too, and the model follows the code.

## Model

| member | source | states |
|---|---|---|
| Bytes.IntAtIs | hl/common/util.cc:41-45 | the four bytes are read big-endian, the top one signed |
| Bytes.NetRoundTrip | hl/common/util.cc:41-45 | reading the four bytes `htonl` lays down gives the integer back, for every int32 |
| Bytes.NetSurjective | hl/common/util.cc:41-45 | every four bytes are the layout of the integer they read as: write and read are inverse both ways |
| Bytes.CStringIs | hl/net/coder/tinypb_coder.cc:165-167 | building a `std::string` from a character array keeps the longest NUL-free prefix, and all of it exactly when there is no NUL |
| Buffers.Adjust | hl/net/tcp/tcp_buffer.cc:66-79 | compaction keeps the readable bytes and the capacity and leaves less than a third of the array consumed |
| Buffers.Resize | hl/net/tcp/tcp_buffer.cc:84-92 | a resize keeps as many readable bytes, from the first on, as fit |
| Buffers.Write | hl/net/tcp/tcp_buffer.cc:35-42 | a write appends exactly the given bytes, growing when they do not fit |
| Buffers.Roomy | hl/net/tcp/tcp_buffer.cc:36-39 | growth by 1.5 always makes enough room and loses nothing |
| BufferRuns.GrowsByHalf | hl/net/tcp/tcp_buffer.cc:36-39 | a write that does not fit grows the array to one and a half times the write index plus the new bytes |
| Buffers.Consume | hl/net/tcp/tcp_buffer.cc:47-63 | a read drops exactly the bytes it hands out, at most those readable |
| Buffers.MoveRead | hl/net/tcp/tcp_buffer.cc:96-104 | a granted move forward drops a prefix, one backward makes consumed bytes readable again; a refused move changes nothing |
| Buffers.MoveWrite | hl/net/tcp/tcp_buffer.cc:106-114 | a granted move makes the bytes already in the array readable, or takes them back; a refused move changes nothing |
| Buffers.TcpBuffer.WriteToBuffer | hl/net/tcp/tcp_buffer.cc:35-42 | the method on the array computes `Write` |
| Buffers.TcpBuffer.ReadFromBuffer | hl/net/tcp/tcp_buffer.cc:47-63 | the method computes `Consume`, hands out the consumed bytes, and leaves the vector alone when nothing is readable |
| Buffers.TcpBuffer.AdjustBuffer | hl/net/tcp/tcp_buffer.cc:66-79 | the method computes `Adjust` |
| Buffers.TcpBuffer.ResizeBuffer | hl/net/tcp/tcp_buffer.cc:84-92 | the method computes `Resize` |
| Buffers.TcpBuffer.MoveReadIndex | hl/net/tcp/tcp_buffer.cc:96-104 | the method computes `MoveRead`; a move beyond the write index, which it reports, crosses the indices |
| Buffers.TcpBuffer.MoveWriteIndex | hl/net/tcp/tcp_buffer.cc:106-114 | the method computes `MoveWrite`; a move below the read index, which it reports, crosses the indices |
| BufferRuns.RunIsFifo | hl/net/tcp/tcp_buffer.cc:35-114 | over every run of operations, what went in behind the initial content comes out first, in order |
| BufferRuns.AmortisedCopying | hl/net/tcp/tcp_buffer.cc:35-92 | over every run, measured on what each operation changes: growth copies at most twice the capacity it adds, and compaction at most four times the bytes consumed |
| BufferRuns.StaysCompact | hl/net/tcp/tcp_buffer.cc:66-79 | over every run the consumed bytes stay below a third of the array |
| BufferRuns.ReadRecordedIffShort | hl/net/tcp/tcp_buffer.cc:106-114 | a socket read is recorded if and only if it is shorter than the free space |
| TinyPB.Seal | hl/net/coder/tinypb_coder.cc:36-42 | encoding sets every length field to the length of its string and leaves the error text alone |
| TinyPB.SealKeeps | hl/net/coder/tinypb_coder.cc:36-108 | the object the encoder leaves carries the error code, names, error text and payload it had, under its own id or, without one, under "123456789" |
| TinyPBStream.FrameOffsets | hl/net/coder/tinypb_coder.cc:45-98 | every field the encoder writes stands where the decoder computes it, and the end byte at `pk_len - 1` plus the length of the error text |
| TinyPBCoder.EncodeTinyPB | hl/net/coder/tinypb_coder.cc:36-108 | the cursor walk fills the allocation with the frame, leaves an object that carries what it carried, and overruns if and only if there is error text |
| TinyPBCoder.Encode | hl/net/coder/tinypb_coder.cc:19-34 | a batch appends its frames in order to the out-buffer and seals every message, and overruns an allocation if and only if a message has error text |
| TinyPB.Probe | hl/net/coder/tinypb_coder.cc:126-142 | a candidate is accepted only with a start byte and an end byte where its length says, ahead or behind; a positive length is six or more and ends inside the readable bytes |
| TinyPB.HitIff | hl/net/coder/tinypb_coder.cc:126-142 | a probe hits exactly at a start byte whose length, read inside the array, leads to an end byte below the write index |
| TinyPB.FaultIff | hl/net/coder/tinypb_coder.cc:127-139 | a probe leaves the array or the range of `int` exactly at a start byte whose length field or end lies outside |
| TinyPB.Scan | hl/net/coder/tinypb_coder.cc:125-143 | what the scan finds is an acceptable start byte among the readable bytes |
| TinyPBDecode.ScanIsFirst | hl/net/coder/tinypb_coder.cc:125-143 | the scan finds the first index that is not skipped: nothing if and only if all are, otherwise that hit or that fault |
| TinyPBCoder.FindFrame | hl/net/coder/tinypb_coder.cc:125-147 | the scanning loop computes `Scan` |
| TinyPB.StringField | hl/net/coder/tinypb_coder.cc:154-170 | a length-prefixed string is read inside the array or the read is a fault |
| TinyPBCoder.ReadFrame | hl/net/coder/tinypb_coder.cc:151-215 | the field reads of a frame compute `ParseFrame`, with every copy outside an array as a fault |
| TinyPBParse.ParsedHolds | hl/net/coder/tinypb_coder.cc:151-214 | whatever frame is parsed, the message holds exactly what stands at the offsets its lengths lead to, names and error text up to their first NUL |
| TinyPBParse.MalformedIff | hl/net/coder/tinypb_coder.cc:155-195 | a frame is passed over without a message exactly when a length field or the error code begins at its end byte or behind it, with every string in front copyable |
| TinyPBParse.StringFates | hl/net/coder/tinypb_coder.cc:154-170 | a string is missing, broken or read exactly by where its length stands, what it says and where the copy would end |
| TinyPBParse.ParseInverts | hl/net/coder/tinypb_coder.cc:36-214 | encoding what was parsed of a frame gives its bytes back, for every frame with NUL-free names, no error text and the checksum and end byte of the encoder: decode and encode are inverse both ways |
| TinyPBStream.FrameIsHit | hl/net/coder/tinypb_coder.cc:125-142 | the first byte of every encoded frame without error text is accepted, with its own length |
| TinyPBStream.FrameParses | hl/net/coder/tinypb_coder.cc:151-214 | an encoded frame is rebuilt with both names cut at their first NUL, unless a name does not fit its C array |
| TinyPBDecode.FrameDecodes | hl/net/coder/tinypb_coder.cc:114-216 | a frame at the read index yields its message and is consumed exactly, or its names fault |
| TinyPBDecode.StreamRoundTrip | hl/net/coder/tinypb_coder.cc:36-217 | frames back to back and any tail: decoding yields exactly the messages in order and leaves exactly the tail if and only if the scan, where the frames have left it, skips everything in the tail |
| TinyPBDecode.SettledRoundTrip | hl/net/coder/tinypb_coder.cc:36-217 | for a tail whose length fields lie inside it, wherever it stands: if and only if it contains nothing that looks like a whole frame |
| TinyPBDecode.RestsIff | hl/net/coder/tinypb_coder.cc:125-150 | what is readable is left alone if and only if every probe skips; otherwise decoding does not return or takes bytes |
| TinyPBDecode.FrameRoundTrip | hl/net/coder/tinypb_coder.cc:36-217 | a message comes out as it was sealed if and only if it has no error text and its names are NUL-free and shorter than 100 and 512 |
| TinyPBDecode.ContentRoundTrip | hl/net/coder/tinypb_coder.cc:36-217 | a message that can be sent comes out as one message with the same error code, method name, payload and id, the default id for an empty one |
| TinyPBDecode.ContentsRoundTrip | hl/net/coder/tinypb_coder.cc:36-217 | any number of such messages back to back come out in order, each with its content |
| TinyPBDecode.WireSafeIsExact | hl/net/coder/tinypb_coder.cc:165-181 | names survive the decoder's C arrays unchanged if and only if they are NUL-free and short enough |
| TinyPBDecode.UndeliverableFaults | hl/net/coder/tinypb_coder.cc:165-181 | the first message whose names do not fit stops the stream, after all the messages before it |
| TinyPBDecode.TailDecodes | hl/net/coder/tinypb_coder.cc:125-147 | for a settled tail, every probe skips if and only if it is quiet; otherwise bytes are lost |
| TinyPBDecode.DecodeEnd | hl/net/coder/tinypb_coder.cc:125-150 | decoding up to the first move back returns only without a hit, stops only at a hit whose move is refused, and moves back only at a hit of length below one |
| TinyPBDecode.AcceptedFrameAdvances | hl/net/coder/tinypb_coder.cc:149-215 | each frame accepted with a positive length takes exactly that length off the readable bytes, also when its parse fails |
| TinyPBDecode.DecodeConsumes | hl/net/coder/tinypb_coder.cc:114-216 | on any buffer, what decoding leaves at its end or its first move back is a suffix of what was readable |
| TinyPBDecode.DecodeCost | hl/net/coder/tinypb_coder.cc:114-216 | on any buffer, every message decoded before a move back costs 26 readable bytes or more |
| TinyPBDecode.DecodedFits | hl/net/coder/tinypb_coder.cc:206-214 | on any buffer, no message decoded before a move back carries more than the readable bytes minus 26 |
| TinyPBDecode.DecodedNames | hl/net/coder/tinypb_coder.cc:165-202 | on any buffer, decoded names and error texts are bounded by the C arrays |
| TinyPBDecode.FullArraySticks | hl/net/coder/tinypb_coder.cc:150 | an accepted frame that ends at the end of the array is never consumed |
| TinyPBBackward.MoveRefusedIff | hl/net/coder/tinypb_coder.cc:132-150 | while a byte is free, the decoder's move of the read index is refused if and only if the accepted length is below one and reaches back beyond the start of the array, and never goes astray |
| TinyPBBackward.StuckExample | hl/net/coder/tinypb_coder.cc:127-150 | 03 00 02 FF FF FF FF in a fresh buffer is such a hit, at which the decoder never ends |
| TinyPBBackward.RewindExample | hl/net/coder/tinypb_coder.cc:127-150 | 02 FF FF FF F1 at index 40 of 128, with an end byte at index 24: the move by -15 is granted and makes fifteen consumed bytes readable again |
| TinyPBBackward.OnEnds | hl/net/coder/tinypb_coder.cc:125-150 | through any number of moves back, decoding returns only without a hit, and sticks only at a hit whose move is refused |
| TinyPBBackward.OnFits | hl/net/coder/tinypb_coder.cc:206-214 | through any number of moves back, no message carries more than what the array holds below the write index, minus 26 |
| TinyPBBackward.OnNames | hl/net/coder/tinypb_coder.cc:165-202 | through any number of moves back, decoded names and error texts are bounded by the C arrays |
| TinyPBBackward.OnIsStable | hl/net/coder/tinypb_coder.cc:114-217 | once decoding has ended, allowing more moves back changes nothing |
| TinyPBBackward.TornHeaderReturnsIff | hl/net/coder/tinypb_coder.cc:127-150 | a short frame cut inside its length field, in zeroed space, yields no message, and decoding returns if and only if the length field lies inside the array behind a byte that is there and is no end byte |
| TinyPBBackward.TornStreamNeverReturns | hl/net/coder/tinypb_coder.cc:127-150 | behind whole frames, which end in an end byte, it never returns: the messages come, and then a fault or moves by zero bytes for ever |
| TinyPBCoder.DecodeBuffer | hl/net/coder/tinypb_coder.cc:112-217 | the decoding loop on a buffer object computes `DecodeOn`: messages, remaining buffer, and whether it returned, left an array, sticks, or is still moving back |
| RpcDispatchers.ParseFullNameIs | hl/net/rpc/rpc_dispatcher.cc:116-132 | a full name splits into service and method exactly at its first dot |
| RpcDispatchers.Reply | hl/net/rpc/rpc_dispatcher.cc:25-108 | every reply carries the id and the method name of its request |
| RpcDispatchers.ReplyIs | hl/net/rpc/rpc_dispatcher.cc:36-102 | for a name that splits at its first dot: the payload the registered method answers, with code 0, or the code and text of the failure: 10000008 not registered, 10000003 unparsable, 10000004 unserialisable |
| RpcDispatchers.NamelessReply | hl/net/rpc/rpc_dispatcher.cc:36-40 | for a name without a dot: code 10000010 |
| RpcDispatchers.ReplyIsCleanIff | hl/net/rpc/rpc_dispatcher.cc:36-102 | a reply has no error text if and only if the name splits into a registered method that answers the request |
| RpcDispatchers.DottedServiceUnreachable | hl/net/rpc/rpc_dispatcher.cc:110-128 | a service registered under a name with a dot in it never answers anything |
| RpcDispatchers.RpcDispatcher.Dispatch | hl/net/rpc/rpc_dispatcher.cc:25-108 | the method computes `Reply` on the response object |
| RpcDispatchers.RpcDispatcher.RegisterService | hl/net/rpc/rpc_dispatcher.cc:110-113 | a later registration under the same name replaces the earlier one |
| TcpConnections.TcpConnection.constructor | hl/net/tcp/tcp_connection.cc:17-34 | a new connection is not connected and has two empty buffers |
| TcpConnections.TcpConnection.SetState | hl/net/tcp/tcp_connection.cc:43-45 | whatever state is asked for, the state becomes Connected |
| TcpConnections.TcpConnection.FillInBuffer | hl/net/tcp/tcp_connection.cc:58-84 | the read loop on the buffer object computes `ReadLoop` |
| TcpConnections.TcpConnection.OnRead | hl/net/tcp/tcp_connection.cc:52-97 | a readable event computes `AfterRead`: nothing unless connected, closed at the end of the stream, executed otherwise, with the way it ends |
| TcpConnections.TcpConnection.Excute | hl/net/tcp/tcp_connection.cc:129-172 | decoded requests are answered into the out-buffer, decoded replies run their callbacks; it ends as the decoder does, or in an overrun if and only if a reply has error text |
| TcpConnections.TcpConnection.ServeAll | hl/net/tcp/tcp_connection.cc:139-149 | one reply per request, in order, each dispatched to an object of its own |
| TcpConnections.TcpConnection.DeliverAll | hl/net/tcp/tcp_connection.cc:158-165 | the loop over replies computes `Deliver` |
| TcpConnections.TcpConnection.OnWrite | hl/net/tcp/tcp_connection.cc:176-226 | a writable event computes `AfterWrite`: what the socket took, the write callbacks in order, the out-buffer unconsumed; and whether a queued message overran its allocation |
| TcpConnections.TcpConnection.DrainOutBuffer | hl/net/tcp/tcp_connection.cc:191-213 | the write loop computes `SendLoop` |
| TcpConnections.Written | hl/net/tcp/tcp_connection.cc:216-224 | each write callback runs with its own message, which carries what was queued |
| ConnectionRuns.WriteIs | hl/net/tcp/tcp_connection.cc:176-226 | a client's writable event puts every queued message behind what the out-buffer held, in order, runs each callback once with its message, empties the queue and hands the socket what the write loop sent; without a connection everything waits |
| ConnectionRuns.SendAllIff | hl/net/tcp/tcp_connection.cc:191-213 | the write loop says that all was sent exactly when nothing was there or one write, before any that blocked, took everything |
| ConnectionRuns.ListensIff | hl/net/tcp/tcp_connection.cc:214-225 | a connection stops listening for the writable event exactly then |
| TcpConnections.TcpConnection.PushReadMessage | hl/net/tcp/tcp_connection.cc:250-252 | the id is registered, with the callback it had already or else with the new one, and no other id changes |
| TcpConnections.TcpConnection.PushSendMessage | hl/net/tcp/tcp_connection.cc:246-248 | the message and its callback go to the end of the queue |
| TcpConnections.TcpConnection.Clear | hl/net/tcp/tcp_connection.cc:100-112 | a connection that is not closed becomes closed and stops listening for the writable event |
| TcpConnections.TcpConnection.ShutDown | hl/net/tcp/tcp_connection.cc:114-126 | a live connection becomes half closed |
| ConnectionRuns.ReadLoopKeeps | hl/net/tcp/tcp_connection.cc:60-84 | from a free byte on, the read loop never resizes, records the first read shorter than the free space, and loses every read before it, the parts of one long chunk included |
| ConnectionRuns.ChunkKept | hl/net/tcp/tcp_connection.cc:59-84 | of a chunk that is there at once, whole fillings of the free space are lost and only the rest behind them is recorded |
| ConnectionRuns.FullDoubles | hl/net/tcp/tcp_connection.cc:61-63 | only a full array is resized before a read, to twice its size |
| ConnectionRuns.CapacityIsForever | hl/net/tcp/tcp_connection.cc:52-97 | over every run of readable events, moves back included, the capacity never changes, a byte stays free, no message as large as the capacity is ever decoded, and a move of the read index is refused only for a length below one that reaches back beyond the start of the array |
| ConnectionRuns.SentOnceIff | hl/net/tcp/tcp_connection.cc:192-213 | when the write loop says that all was sent, the socket took the bytes exactly once if and only if no earlier write took a part of them |
| Reassembly.ChunkedRoundTrip | hl/net/tcp/tcp_connection.cc:52-97 | a stream of frames and any tail that arrives in chunks yields every message in order and leaves the tail if and only if every chunk is shorter than the free space when it comes and after each the scan skips all that is left |
| Reassembly.ChunkedRoundTripOn | hl/net/tcp/tcp_connection.cc:52-97 | the same with moves back followed: such chunks arrive, and no others do unless the decoder moves back over consumed bytes |
| Reassembly.SettledIsClean | hl/net/tcp/tcp_connection.cc:52-97 | when every cut leaves its length fields whole: if and only if every chunk is short and no cut leaves something that looks like a whole frame |
| Reassembly.LongReadLoses | hl/net/tcp/tcp_connection.cc:60-76 | a chunk that is not shorter than the free space is never made good |
| Reassembly.FitsIsShort | hl/net/tcp/tcp_buffer.cc:66-79 | chunks that fit two thirds of the array together with what was left before them are always shorter than the free space |
| Reassembly.SameAsWhole | hl/net/tcp/tcp_connection.cc:52-97 | such a run yields the messages that one decode of the whole stream yields |
| Reassembly.DecodeWeight | hl/net/coder/tinypb_coder.cc:149-215 | the lengths of the messages decoded before a move back sum up to no more than the bytes consumed |
| Arriving.WellFed | hl/net/tcp/tcp_connection.cc:52-97 | a stream that arrives well is received exactly, without a move back, and leaves an empty buffer of the same capacity |
| Arriving.ArrivesWellIff | hl/net/tcp/tcp_connection.cc:52-97 | and no other is: arriving well is the exact condition for the run to yield the messages and leave nothing |
| Arriving.FittingArrivesWell | hl/net/tcp/tcp_connection.cc:60-84 | what a caller can check from the sizes and the cuts alone: chunks that fit two thirds of the array, with settled and quiet cuts, arrive well |
| Arriving.BatchesArriveWell | hl/net/tcp/tcp_connection.cc:60-84 | any number of batches, each read whole and within two thirds of the array, arrives well |
| PeerRuns.ServerRun | hl/net/tcp/tcp_connection.cc:52-153 | over every run of readable events its decoder survives, with any reads in each event, a server survives if and only if every request decoded is answered by a service method; it then answers exactly what its in-buffer decodes, in order, and is closed if and only if it met the end of the stream |
| PeerRuns.SurvivesIff | hl/net/coder/tinypb_coder.cc:42-90 | encoding the replies stays inside its allocations if and only if every request is answered by a service method |
| PeerRuns.ClientRun | hl/net/tcp/tcp_connection.cc:52-166 | over every such run a client delivers exactly what its in-buffer decodes, and is closed under the same condition |
| PeerRuns.EndsWithDecoder | hl/net/tcp/tcp_connection.cc:129-172 | over any run a server or client whose decoder does not return does not return either, and a client ends just as its decoder does |
| RpcDelivery.DeliverIs | hl/net/tcp/tcp_connection.cc:158-165 | for every id: its callback runs exactly once, with its first reply, if it is registered and a reply came; exactly then it is removed; no other entry changes |
| RpcDelivery.RegisteredRuns | hl/net/tcp/tcp_connection.cc:158-165 | after an id is registered, its first reply runs the callback that was registered first, once, and the other ids get what they would have got |
| RpcDelivery.DeliverConcat | hl/net/tcp/tcp_connection.cc:158-165 | delivering in two events is delivering at once |
| RpcDelivery.ResendsHarmless | hl/net/tcp/tcp_connection.cc:158-165 | replies that arrive again behind earlier ones run no callback again |
| RpcDelivery.StaleIff | hl/net/tcp/tcp_connection.cc:158-165 | when an id is registered again after its replies came, and they come again, the new callback runs with the old reply if and only if there was one |
| RpcDelivery.ResendCount | hl/net/tcp/tcp_connection.cc:192-213 | because the out-buffer is never consumed, a message of the first of n written batches reaches the peer n times, one of the last once |
| RpcExchange.GoodReply | hl/net/rpc/rpc_dispatcher.cc:33-102 | an answered request that can be sent gets a reply that can be sent, with its id, method and result |
| RpcExchange.RoundsWire | hl/net/tcp/tcp_connection.cc:139-153 | over every run of rounds the socket gets the frames of all replies so far with each batch |
| RpcExchange.EndToEnd | hl/net/tcp/tcp_connection.cc:129-172 | requests in any chunks that arrive well, dispatch, replies sent again and again in any such chunks, delivery: for each id the registered callback runs exactly once, with the answer to the first request sent under the id, and not at all otherwise |
| RpcExchange.EndToEndByWrites | hl/net/tcp/tcp_connection.cc:52-226 | the same for n batches and n writes, each read whole, with conditions on sizes only |
| Examples.TwoCalls | hl/net/tcp/tcp_connection.cc:52-226 | a concrete exchange of two calls in two batches: each callback runs once although the first reply comes twice |
| Examples.NoisyCutExample | hl/net/coder/tinypb_coder.cc:125-147 | a message that carries an encoded message, cut behind it: both pieces fit, and it does not arrive |
| RpcExchange.RequestsReplayed | hl/net/tcp/tcp_connection.cc:181-213 | a request of the first of n writes of a client is decoded n times, one of the last write once, and answered as often if and only if every request is answered by a service method |
| Timers.TimerEvent.ResetArriveTime | hl/net/timer_event.cc:14-18 | the arrival time becomes one interval from now |
| Timers.SplitIsExact | hl/net/timer.cc:130-140 | every arming interval is positive and splits exactly into seconds and nanoseconds below one thousand million |
| Timers.Timer.AddTimerEvent | hl/net/timer.cc:23-40 | the method computes `Add`: inserted behind equal keys, alarm set again only for a new first event |
| Timers.Timer.DeleteTimerEvent | hl/net/timer.cc:44-68 | the method computes `Delete`, and the event is cancelled |
| Timers.Timer.OnTimer | hl/net/timer.cc:71-116 | the two loops compute `Fired`, and the callbacks are returned in order |
| Timers.Timer.ResetArriveTime | hl/net/timer.cc:120-150 | the alarm is set for the first event, or in 100 ms when that is due, and left alone without events |
| TimerRuns.AddIs | hl/net/timer.cc:23-40 | adding adds exactly one entry, and sets the alarm, to the new arrival time, exactly when it is the first |
| TimerRuns.ArmIs | hl/net/timer.cc:120-150 | the alarm is set to exactly the first arrival time, or 100 ms from now when that has passed |
| TimerRuns.DeleteErases | hl/net/timer.cc:44-66 | deleting an event that stands under its arrival time erases its entry and no other |
| TimerRuns.DeleteMisses | hl/net/timer.cc:44-66 | deleting one that does not stand there erases nothing and cancels it |
| TimerRuns.AlarmInvariant | hl/net/timer.cc:23-150 | over every run, keys equal arrival times, the map is sorted, and while events are pending the alarm is set no later than the first of them or 100 ms from now |
| TimerRuns.OnTimerExact | hl/net/timer.cc:84-110 | a pass runs exactly the longest prefix of due uncancelled events, in order, and leaves the entries from a due cancelled one on, or none, and the repeated events one interval later |
| TimerRuns.FutureSurvivesIff | hl/net/timer.cc:87-100 | an event that is not due survives a pass if and only if some due event is cancelled |
| TimerRuns.RepeatsAgain | hl/net/timer.cc:100-107 | a repeating event that a pass runs is pending afterwards, one interval later, and still repeats |
| TimerRuns.TicksForever | hl/net/timer.cc:84-110 | a repeating event alone in the timer runs once an interval, any number of times |
| TimerRuns.JammedForever | hl/net/timer.cc:87-100 | once the first event is due and cancelled, no callback runs in any run that neither deletes it nor adds an event that arrives before it |
| TimerRuns.PassesJamIff | hl/net/timer.cc:23-100 | an event added to such a timer runs in the next pass if and only if it arrives before the first |
| TimerRuns.DeleteUnjams | hl/net/timer.cc:44-110 | deleting the cancelled first event lets the next pass run what is ready behind it |
| RpcChannels.RpcController.SetError | hl/net/rpc/rpc_contorller.cc:51-55 | an error sets code and failure flag |
| RpcChannels.RpcChannel.Init | hl/net/rpc/rpc_channel.cc:125-135 | only the first initialisation has an effect |
| RpcChannels.RpcChannel.CallMethod | hl/net/rpc/rpc_channel.cc:24-121 | the three early exits (a foreign controller, no initialisation, a request that does not serialise), or the id, and a timeout event added to the loop's timer |
| RpcChannels.RpcChannel.OnTimeout | hl/net/rpc/rpc_channel.cc:63-73 | the timeout callback cancels, fails the call with 10000007 and runs the closure if there is one |
| RpcChannels.RpcChannel.OnConnect | hl/net/rpc/rpc_channel.cc:76-85 | a connect error is noted and the request queued all the same |
| RpcChannels.RpcChannel.OnResponse | hl/net/rpc/rpc_channel.cc:88-117 | the response callback cancels the timer event and ends in an error or, unless cancelled, in the closure |
| RpcChannels.RpcChannel.OnCancel | hl/net/rpc/rpc_contorller.cc:32-34 | a caller can cancel at any time; the call is only marked |
| RpcCalls.EveryCallDecided | hl/net/rpc/rpc_channel.cc:63-120 | in every interleaving of any number of calls, their callers' cancels and the timer's other events included, each call's closure runs at most once, and exactly when it timed out or a good response came with neither cancel nor timeout before it; cancelled means cancelled by the caller or timed out; the last failure decides the error code |
| RpcCalls.ClosureRunsIff | hl/net/rpc/rpc_channel.cc:63-120 | from a new loop on, a call with a closure has run it if and only if it timed out or was answered well in time, and never both |
| RpcCalls.EventKeeps | hl/net/rpc/rpc_channel.cc:63-120 | every event, of a call, its caller or another user of the timer, keeps calls and timer consistent: no timeout runs twice or after a response, no response twice |
| RpcCalls.PassIs | hl/net/rpc/rpc_channel.cc:63-73 | a pass times out exactly the calls whose entry is due with no cancelled one at or in front of it: cancelled, failed with 10000007, the closure run once; every other call stays as it is |
| RpcCalls.EventIs | hl/net/rpc/rpc_channel.cc:63-120 | what every event does to every call: the mark it adds, the error, the stage, and whether the closure runs |
| RpcCalls.LogIsHistory | hl/net/rpc/rpc_channel.cc:63-120 | over every run the log of a call is the history told from the events alone, so outcomes decided by the log are decided by what happened |
| RpcCalls.BegunIs | hl/net/rpc/rpc_channel.cc:24-74 | a call begins with its id, error and stage, an empty history, and one timer entry a timeout from now exactly if it begins properly |
| RpcCalls.UnbegunForever | hl/net/rpc/rpc_channel.cc:28-59 | a call that takes an early exit keeps the error of that exit, and its closure never runs in any run |
| RpcCalls.CancelThenAnswer | hl/net/rpc/rpc_channel.cc:92-120 | a call that is cancelled and then answered well in time falls silent: its closure never runs in any run |
| RpcCalls.EndedForever | hl/net/rpc/rpc_channel.cc:92-120 | once a call has ended, nothing but its caller's cancel ever touches it again |
| RpcCalls.FireIs | hl/net/timer.cc:84-114 | a pass runs exactly the ready events, and keeps only events behind them and repeating ones that belong to no call |
| RpcCalls.PassDropsTheRest | hl/net/timer.cc:87-100 | a pass that meets no answered due call drops the timeouts of all calls not due yet, and they never time out in any run after it |
| RpcCalls.PassDropsOthers | hl/net/timer.cc:87-100 | such a pass drops every other event that is not due as well, the logger's periodic one among them, and it never runs again unless it is added again |
| RpcCalls.AnsweredSilences | hl/net/rpc/rpc_channel.cc:94 | once an answered call whose deadline has passed is first in the timer, no call on the loop times out and no other event runs, in any run that adds nothing in front of it |
| RpcCalls.OneAnswerIsEnough | hl/net/rpc/rpc_channel.cc:94 | one answered call on an idle loop, and its timeout gone by, brings the loop into that state, for whatever is added in time afterwards |
| EventLoops.TasksConserved | hl/net/eventloop.cc:128-143 | over every run, tasks executed, then the batch, then the queue, are the tasks added, once each and in order |
| EventLoops.BatchShrinks | hl/net/eventloop.cc:135-143 | however many tasks are added meanwhile, a batch runs in order and ends after as many runs as it has tasks |
| EventLoops.KernelAgrees | hl/net/eventloop.cc:11-40 | over every run without a close, the loop's set is the kernel's, each mask is the one last registered, and no epoll_ctl fails, deferred operations included |
| EventLoops.KernelTracked | hl/net/eventloop.cc:11-40 | over every run the loop knows all the kernel watches, and beyond that only what was closed while watched |
| EventLoops.StaleForever | hl/net/eventloop.cc:11-24 | such a descriptor stays unwatched however often it is added, until it is deleted |
| EventLoops.EventLoop.AddToEpoll | hl/net/eventloop.cc:11-24 | the macro computes `Watched` |
| EventLoops.EventLoop.DelFromEpoll | hl/net/eventloop.cc:26-40 | the macro computes `Unwatched` |
| EventLoops.EventLoop.AddEpollEvent | hl/net/eventloop.cc:211-223 | the operation takes place at once on the loop's thread and is queued from any other |
| EventLoops.EventLoop.DeleteEpollEvent | hl/net/eventloop.cc:225-239 | the same for the deletion |
| EventLoops.EventLoop.AddTask | hl/net/eventloop.cc:250-258 | a task goes to the end of the queue |
| EventLoops.EventLoop.RunTask | hl/net/eventloop.cc:137-142 | a queued operation uses the mask its event has when it runs |
| EventLoops.EventLoop.RunPending | hl/net/eventloop.cc:130-143 | exactly the tasks queued at the swap run, in order, and exactly those added meanwhile are queued afterwards |
| EventLoops.EventLoop.QueueReady | hl/net/eventloop.cc:161-189 | every report queues its read, write and error callbacks in this order, and an error ends the watching |
| EventLoops.HandlersAre | hl/net/eventloop.cc:161-189 | a report queues its read callback, then its write callback, then its error callback, each exactly if reported |
| EventLoops.AllHandlersConcat | hl/net/eventloop.cc:161-189 | the callbacks of one report after another are queued in the order of the reports |
| EventLoops.ErredIff | hl/net/eventloop.cc:174-189 | after a turn a descriptor is watched exactly if it was and no error was reported for it, with the mask it had |
| Logs.Logger.PushLog | hl/common/log.cc:150-161 | an asynchronous logger buffers the message; a synchronous one prints it up to its first NUL, as a format if it contains a percent sign and as it is otherwise |
| Logs.Logger.SyncLoop | hl/common/log.cc:285-307 | each buffer is emptied into the queue of its own writer, as one batch, unless it is empty |
| Logs.AsyncLogger.PushLogBuffer | hl/common/log.cc:309-316 | a batch goes to the end of the queue |
| Logs.AsyncLogger.WriteBatch | hl/common/log.cc:218-269 | a turn of the writer computes `Written` and ends the thread exactly when it was told to stop |
| Logs.AsyncLogger.Redate | hl/common/log.cc:228-249 | a new date, or the first batch, opens file number 0 or the current number |
| Logs.AsyncLogger.Rotate | hl/common/log.cc:251-258 | a file beyond the limit is followed by the next number |
| LogRuns.LogConserved | hl/common/log.cc:150-316 | for one logger on a directory of its own, in every reachable state files, batch in hand, queue, syncer and front buffer together hold exactly the bytes pushed, in order, and no file was opened twice |
| LogRuns.DrainedFilesHoldAll | hl/common/log.cc:150-316 | once a pipeline that started empty has drained, its files in opening order hold exactly the bytes pushed |
| LogPair.PairConserved | hl/common/log.cc:150-316 | both loggers of a process write to files of the same names: in every reachable state each pipeline holds exactly the bytes pushed to it, in order, and every file is a shuffle of what the two writers put into it |
| LogPair.BothDrained | hl/common/log.cc:150-316 | once both have drained, what each writer put into the files, in the order it opened them, is exactly what was pushed to it |
| LogRuns.WrittenOrderly | hl/common/log.cc:228-264 | a batch goes behind everything written before it, into a file of no more than the limit, and file names increase |
| LogRuns.FilesOpened | hl/common/log.cc:228-258 | a batch opens file 0 for a new date, the current number for a first batch, and behind it the next number exactly when the open file is larger than the limit |
| LogRuns.BatchIs | hl/common/log.cc:285-307 | a swap queues the messages of the front buffer as one batch, and none when it is empty |
| LogRuns.StopWritesOnce | hl/common/log.cc:267-277 | once told to stop the writer writes at most one more batch |
| LogRuns.StopEndsWriting | hl/common/log.cc:267-277 | so behind a stop, whatever is still pushed and queued, at most one batch is written |
| MsgIds.MsgIDUtil.GenMsgID | hl/common/msg_id_util.cc:15-44 | a call computes `Next`, and returns the empty string when the random device fails |
| MsgIds.MsgIDUtil.Increment | hl/common/msg_id_util.cc:32-41 | the carry loop and the zeroing loop compute `Bump` |
| MsgIds.BumpAddsOne | hl/common/msg_id_util.cc:32-41 | the carry adds exactly one to the number the digits stand for, unless they are all nines |
| MsgIds.Seeded | hl/common/msg_id_util.cc:24-27 | each digit of a seed is its random byte modulo ten |
| MsgIds.AnySeed | hl/common/msg_id_util.cc:16-28 | every string of twenty digits can be the first id |
| MsgIds.FailedReadIs | hl/common/msg_id_util.cc:16-24 | when the random device fails nothing changes, and only a thread that needs a seed notices |
| MsgIds.CountsUp | hl/common/msg_id_util.cc:15-44 | until the run is used up, the k-th id after a seed is the seed plus k, in twenty digits |
| MsgIds.IdsIncrease | hl/common/msg_id_util.cc:15-44 | the ids of a run are pairwise distinct and increase as numbers and as strings |
| MsgIds.LexIsNumeric | hl/common/msg_id_util.cc:31-43 | digit strings of one length sort as strings exactly as they sort as numbers |
| MsgIds.StuckAtNines | hl/common/msg_id_util.cc:16-28 | from the second seed on an id of all nines is returned for ever |
| MsgIds.RepeatsIff | hl/common/msg_id_util.cc:16-42 | from the second seed on a call repeats the last id if and only if that is all nines |
| MsgIds.TwoRunsAtMost | hl/common/msg_id_util.cc:15-44 | while the random device delivers, a thread is in its first or its second run after any number of calls, so it seeds at most twice |
| MsgIds.GeneratedIdIsWireSafe | hl/common/msg_id_util.cc:18-31 | a generated id passes through the wire format unchanged |
| FdEventGroups.ServedIff | hl/net/fd_event_group.cc:38-48 | the requested index is in range if and only if it fits already or is 2 or more |
| FdEventGroups.GrownIs | hl/net/fd_event_group.cc:38-48 | the table grows to one and a half times the number asked for, and only when that is beyond its end |
| FdEventGroups.AllServed | hl/net/fd_event_group.cc:38-48 | from two slots on, every request of every run is in range and stays so |
| FdEventGroups.FdEventGroup.GetFdEvent | hl/net/fd_event_group.cc:38-48 | slot i holds an event of descriptor i, growth moves no slot, and the event returned is that of the descriptor; negative numbers and unserved ones read outside the table |
| FdEventGroups.FdEventGroup.constructor | hl/net/fd_event_group.cc:10-14 | a new table holds one event per number |
| IOThreadGroups.RoundRobin | hl/net/io_thread_group.cc:33-38 | call k gets thread k modulo the number of threads |
| IOThreadGroups.Balanced | hl/net/io_thread_group.cc:33-38 | after any m calls each of n threads was handed out m/n times, rounded down or up |
| IOThreadGroups.IOThreadGroup.GetIOThread | hl/net/io_thread_group.cc:33-38 | the index wraps at the number of threads and moves on by one; a group without threads is read beyond its end |

## Left out

- Sockets, epoll_wait, eventfd, timerfd and threads: their results are parameters (scripts of read and write results, a clock value, a list of ready descriptors), and each critical section is one atomic step. ScopeMutex and data races are not modelled.
- A method of Timer reads the clock once per call; the source may read it several times in `onTimer`.
- Callbacks and tasks are tokens: running one is recorded. What a callback does to the timer, the queue or the calls while it runs is a further step of the run; a callback that uses the connection table it is called from is not modelled.
- protobuf: payloads are byte strings, a service is a map from method names to functions that parse, run and serialise. The payload after a failed serialisation is unspecified in the source and empty in the model.
- Modest: the theorems about servers take payloads of services to be at least 1000 bytes below the largest `int`; the lengths the encoder adds up in `int` then do not overflow.
- The text of all log messages, and of error texts beyond the five the dispatcher sets.
- m_check_sum is written as 1 and never read; the model writes it and skips it too.
- Ids, names and error codes are carried by `Controller`; its error text and addresses are not.
- The connect retry, address handling and the acceptor of the TCP client and server; the connection's events in the kernel beyond whether the writable event is listened for.
- FdEvent::listen, which sets and clears the callbacks, WakeUpFdEvent, configuration, signals, StringCoder and the code generator.
- MsgIds.MsgIDUtil.GenMsgID: the read of the character before the first, which the source makes when all digits are nines, is taken to have no effect.
- TinyPBCoder.DecodeBuffer: the source does not bound how often the read index moves back in one call; the method takes the bound `patience` and reports when it is reached, and the theorems about `DecodeOn` and `FeedOn` hold for every bound.
- Logs.Logger.PushLog: what `printf` makes of a format with directives and no arguments is not modelled.
- Buffers.MoveRead: a move beyond the write index crosses the indices; the function is the identity there, `MoveReadIndex` leaves the object as `adjustBuffer` finds it, and the copy of a negative count that `adjustBuffer` then makes from the second third of the array on is not modelled. No caller in the source makes such a move.
- Buffers.MoveWrite: the same for a move of the write index below the read index.
- Reassembly.ChunkedRoundTrip: a decoder that moves back counts as one whose stream did not arrive; `ChunkedRoundTripOn` says what is known when it is followed. The same holds for `StreamRoundTrip`.
- TinyPBCoder.Encode: what an overrun of the allocation damages is not modelled; the method reports it, and `ReadRun` ends there.
- LogPair.PairConserved: a batch is written in one step. No limit on the size of a file is stated for two writers: `ftell` does not count what the other writer has added, so the model lets the answer be anything.
- Files are always opened: a failing `fopen` (log.cc:247) is not modelled.
- The indices of TcpBuffer are unbounded; an overflow of `int` in them, or in the size that `writeToBuffer` grows to, is not modelled.
- A second CallMethod on the same channel: it overwrites `m_timer_event`, so the response to the first call then cancels the timeout of the second. Every call of the model has a channel of its own.
