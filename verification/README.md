# grpcreplay capture pipeline: a verified model

The repository captures the TCP packets of gRPC servers, puts the byte streams back together, cuts
them into HTTP/2 frames, builds messages from the frames, and writes messages to files that it can
replay. This project models that pipeline in Dafny and proves what it keeps and what it delivers.

| part | modules |
|---|---|
| sequence numbers, reassembly | `SequenceNumbers`, `Reassembly`, `OrderIndependence`, `SwallowedPart`, `TCPBuffers` |
| frame parsers and printers | `BigEndians`, `Frames` |
| two goroutines on one buffer | `Pipeline`, `PipelineInvariants`, `PipelineTheorems`, `FrameLoop` |
| streams of a connection | `StreamTable`, `Http2Conns`, `Messages`, `Exchanges`, `RecordingMode`, `RecordingInvariants`, `RecordingRuns` |
| connection tracking | `StateMachine`, `Teardown`, `Tracker`, `TrackerInvariants`, `ConnectionLife`, `Processors`, `ConnectionStreams` |
| records on disk, and their replay | `Protocol`, `Text`, `CodecSimple`, `JsonExists`, `RecordFiles`, `ReplayInput` |
| dependency closure of proto files | `PbFinder` |

Where the source changes objects step by step there is a class or a method with a loop
(`TCPBuffer`, `Http2Conn`, `Processor`, `ReinforcedReader`, `FileDirOutput`, the frame loop, the
parsers that read in a loop, the graph traversal). Its `ensures` ties the new state to a function of
the old one, and the theorems are about those functions: `Reassembly.Accept`, `Frames.ParseFrames`,
`StreamTable.SlotStep`, `Tracker.StepPkg`, `RecordFiles.ReadOne`, `PbFinder.Visit`. Code of several
goroutines is a state machine whose steps may come in any order (`Pipeline`, `RecordingMode`).

## Main results

1. End to end (`PipelineTheorems.EndToEnd`): whatever pieces of a stream arrive, in any order,
   repeated, overlapping or missing, and however the packet loop and the frame loop interleave, the
   frames handed on are a prefix of the frames of the stream. With every part present they are all
   of them (`EveryOrderYieldsEveryFrame`), and whatever the schedule, the loops come to rest after a
   bounded number of steps (`EveryRunRests`).
   Through connection tracking, for one connection among many: what is delivered, its frames and
   its messages are prefixes of those of what the client sent
   (`ConnectionStreams.ConnectionDeliversPrefix`, `ConnectionMessagesPrefix`), and all of it once all
   has arrived; the same for the server's side (`ConnectionDeliversAll`,
   `ConnectionDeliversAllResponses`).
2. Both byte counters of the buffer say exactly where the bytes are, at every micro-step
   (`CountersConserved`).
3. From frames to messages: whatever else is on the connection, the frames of a whole request, and
   in recording mode of a whole response, make exactly the message that the parts sent describe, with
   all header fields and all bodies, unzipped and converted as the type of that side
   (`Exchanges.ExchangeMakesItsMessage`), or none, exactly when `NoMessageExactly` says so.
4. Streams do not disturb each other, nor do connections; the two connection maps agree over every
   run; each state of the machine is reached by exactly the event sequences that the protocol names,
   and which packet flags open, keep and close a connection is exact too (`StreamTable`,
   `StateMachine`, `Teardown`, `TrackerInvariants`, `ConnectionLife`).
5. Files of records read back as the list that was written (`RecordFiles.FilesRoundTrip`), and the
   replay queue sends each of them as often as it was recorded, whatever the timer fires first
   (`ReplayInput.FileDirInput.AllSent`, `ReplayInput.WrittenIsReplayed`).

## Where the code does less than it promises

The model follows the code; each of these is proved with its exact condition.

- The advance of the expected sequence number is taken modulo 2^32-1, not 2^32. It is right except
  where the sum is 2^32-1 (`SequenceNumbers.AdvanceExact`). Segments that arrive in order are all
  delivered if and only if no segment but the last is followed by that number
  (`OrderIndependence.InOrderExact`; `ByteLostAtMax` is an instance). Stream properties for other
  orders therefore speak of pieces that do not end there. Otherwise a stream can even come out wrong:
  with segments of one byte numbered 2^32-2, 2^32-1 and 0, the second is dropped and the third
  delivered in its place. Whatever the bytes and the order of arrival, the parts delivered are the
  first ones if and only if no part of one byte numbered 2^32-1 stands between two others
  (`SwallowedPart.AlwaysPrefixExact`).
- The window test accepts one number too many for exactly one expected number
  (`SequenceNumbers.WindowExact`, `WindowExtra`).
- The delivery loop takes entries out of the list only after its last round. `LoopEnds` says when it
  does not come back to an entry, and `Reassembly.LoopEndsExact` that this is exactly when the loop,
  stated over the list that does not change while it runs, stops. Non-empty payloads of less than a
  turn of the sequence space, or pieces of one stream, guarantee that (`FewBytesEnd`, `AcceptSafe`;
  `Processors.ShortRunEnds` for whole runs of the packet loop); an empty payload makes it run for ever
  (`EmptyPayloadLoops`), which is why the packet loop does not pass empty payloads on.
- Every order of arrival delivers everything if and only if every part starts at most 65536 bytes
  into the stream (65537 if the stream starts at 0xFFFEFFFF) and no part but the last is followed by
  2^32-1 (`OrderIndependence.OrderIndependent`): a farther part that arrives first is dropped.
- A frame whose padding is longer than its payload, or a DATA payload of 1 to 4 bytes, stops the
  program. A goroutine that runs alone stops exactly when one stream would stop it on its own frames
  (`StreamTable.StopsOnlyByOwnFrames`), in request-only mode exactly when such a frame comes
  (`FinishOncePerEndStream`, `PanicsExact`).
- A stream is finished at END_STREAM, even where CONTINUATION frames are still to come: their fields
  end up in the next request on the slot (`Exchanges.LateFieldsLeak`).
- In recording mode a second request that ends on a slot before the response to the first leaves the
  input goroutine waiting on the full token channel (`Exchanges.SecondRequestStops`).
- `ParseFrameBase` reads the stream identifier with the reserved bit: the identifier comes back
  exactly when that bit is clear (`Frames.HeaderRoundTrip`).
- Recording mode: the token that the input goroutine sends means that the request is complete. The
  token is indeed never taken before the request's END_STREAM frame was processed
  (`RecordingInvariants.TokenAfterRequest`), whatever the timers do. But the message sent by whoever
  takes it has the whole request in every interleaving if and only if no timer can fire
  (`RecordingRuns.TokenSafeExact`). Every stream that makes a message is such a stream
  (`MessageTears`): the output goroutine times out, sends its own message, and clears the request while
  the input goroutine, which has just taken its own token, is inside `toMsg` (`TokenAfterTimeout`). The
  header map is visited key by key here, as the documentation of `sync.Map.Range` has it; where Range
  takes a snapshot the body or the whole map can still be lost (`SnapshotTears`).
- When the input goroutine builds the message, END_STREAM of the response may be stored and the last
  frame's fields or bytes not yet, or not all of them. Without timers, the token means the whole
  response in every interleaving if and only if the last response frame does not matter: whatever can
  be found while it is being stored makes the same message, or none
  (`RecordingRuns.ResponseSafeExact`). A frame that carries nothing does not matter; one that adds
  header fields does, where a message can be built after none or some of them (`LastFrameCases`). When
  the output goroutine builds it, the response is whole (`RecordingInvariants.TokenMeansComplete`).
- A record can be read back if and only if its UUID has no blank or newline, its method has no
  newline and is not empty, and a response is there only when announced
  (`CodecSimple.RoundTripExact`, `RecordFiles.OneRecordExact`). A message announced with a response
  that is nil does come back.
- The replay queue is refilled by one read each time a message fires. A record that cannot be read
  leaves it one shorter, so it can run dry: exactly the recorded messages are sent if and only if no
  message comes after as many unreadable records as were scheduled at the start
  (`ReplayInput.DryExact`). Files that the output plugin wrote never run dry
  (`ReplayInput.WrittenIsReplayed`).
- On the third packet of the handshake the buffer expects that packet's number plus one. The first
  data packet starts at that packet's number itself. The connection preface puts it right: a packet
  that starts with the preface sets the expected number to what follows the packet, and is skipped
  whole (`ConnectionStreams.FirstDataNeedsPreface`). `ConnectionDeliversPrefix` therefore speaks of
  the stream after that packet. A preface that is repeated moves the expected number back, and what
  follows it is delivered twice (`RepeatedPreface`).
- A record that lost the line of its announced response is read with an empty response, one that lost
  its request stops the program (`CodecSimple.MissingResponse`, `MissingRequest`).

## Model

| member | source | states |
|---|---|---|
| SequenceNumbers.AdvanceExact | http2/tcp_buffer.go:110-112 | the advance is addition modulo 2^32 if and only if the sum is not 2^32-1, where it gives 0 |
| SequenceNumbers.WindowExact | http2/tcp_buffer.go:135-143 | for every expected number and window size: accepted if and only if at most that far ahead, plus the exact exceptions |
| SequenceNumbers.WindowExtra | http2/tcp_buffer.go:136-142 | at the one expected number with an extra member, that member is 0, one past the window, and nothing else is extra |
| SequenceNumbers.DistIsModular | http2/tcp_buffer.go:133-134 | the distance used in every statement is the difference modulo 2^32 and undoes addition |
| Reassembly.LoopEndsExact | http2/tcp_buffer.go:107-127 | LoopEnds holds if and only if the loop over the list, which does not change while it runs, comes to a number that is not listed |
| Reassembly.DrainKeeps | http2/tcp_buffer.go:107-127 | the delivery loop only takes entries out, keeps every byte, and stops where nothing follows |
| Reassembly.DrainGoesForward | http2/tcp_buffer.go:107-122 | with less than a turn of the sequence space pending, every entry taken out lies behind the new expected number |
| Reassembly.FewBytesEnd | http2/tcp_buffer.go:107-127 | non-empty payloads, less than a turn of the sequence space in all, make the loop over the unchanging list stop |
| Reassembly.EmptyPayloadLoops | http2/processor.go:56-56 | why the guard on empty payloads is needed: with an empty one at the expected number the loop never comes to a number that is not listed |
| Reassembly.DrainOfStreamEnds | http2/tcp_buffer.go:104-127 | on pieces of a stream the loop keeps delivering a prefix and ends, since the expected number moves past all it delivered |
| Reassembly.AcceptSafe | http2/tcp_buffer.go:84-131 | one AddTCP on a piece of the stream: a prefix at least as long is delivered, and the loop ends |
| Reassembly.ReassemblySafe | http2/tcp_buffer.go:84-131 | any sequence of pieces, in any order, repeated, overlapping or missing: exactly a prefix S[..k] is delivered and the expected number is the start plus k |
| Reassembly.AcceptCounts | http2/tcp_buffer.go:103-127 | conservation: an admitted segment adds exactly its bytes to delivered plus pending, any other adds none |
| OrderIndependence.EveryOrderDelivers | http2/tcp_buffer.go:84-131 | parts that start within the window: every order with repeats delivers the whole stream and leaves nothing pending |
| OrderIndependence.PartInWindow | http2/tcp_buffer.go:135-143 | a part passes the window test at the start if and only if it starts at most 65536 bytes into the stream, or 65537 for a start at 0xFFFEFFFF |
| OrderIndependence.NearPartsDeliver | http2/tcp_buffer.go:84-131 | in numbers: parts that start at most 65536 bytes into the stream, none but the last followed by 2^32-1, are delivered whole in every order |
| OrderIndependence.FarPartFirstIsLost | http2/tcp_buffer.go:88-94 | a part outside the window that comes first is lost |
| OrderIndependence.OrderIndependent | http2/tcp_buffer.go:84-131 | for any cut into non-empty parts: all orders deliver everything if and only if all parts start at most 65536 bytes into the stream (65537 for a start at 0xFFFEFFFF) and none but the last is followed by 2^32-1 |
| OrderIndependence.InOrderExact | http2/tcp_buffer.go:107-127 | in-order arrival delivers everything if and only if no part but the last is followed by 2^32-1 |
| OrderIndependence.ByteLostAtMax | http2/tcp_buffer.go:112-112 | two one-byte segments, the first numbered 2^32-2: the second is never delivered |
| SwallowedPart.AlwaysPrefixExact | http2/tcp_buffer.go:107-127 | for any cut into non-empty parts: whatever the bytes and the order of arrival, the delivered parts are the first ones if and only if no part of one byte numbered 2^32-1 stands between two others |
| TCPBuffers.TCPBuffer.AddTCP | http2/tcp_buffer.go:84-131 | the buffer afterwards is Reassembly.Accept of the one before; size grows by exactly what was admitted; bytes, counters and channel stay consistent |
| TCPBuffers.TCPBuffer.Deliver | http2/tcp_buffer.go:105-122 | the loop with removals put off delivers what taking each entry out at once would, and returns the entries to remove |
| TCPBuffers.TCPBuffer.RemoveAll | http2/tcp_buffer.go:124-127 | exactly the delivered entries leave the list |
| TCPBuffers.TCPBuffer.Read | http2/tcp_buffer.go:49-76 | hands out the next bytes in order, at least one if there is room, lowers both counters by that many, and fails or waits exactly when nothing is there |
| TCPBuffers.TCPBuffer.SetExpectedSeq | http2/tcp_buffer.go:40-42 | changes the expected number and nothing else |
| BigEndians.DecodeEncode | http2/http2.go:654-661 | decoding a big-endian number returns it |
| BigEndians.EncodeDecode | http2/http2.go:654-661 | and encoding a decoded one returns the bytes |
| Frames.ParseFrameBase | http2/http2.go:649-687 | the loop over the length bytes computes the value of the three bytes; every error and the clamped payload are those of the specification |
| Frames.HeaderRoundTrip | http2/http2.go:649-687 | parsing the nine bytes of section 4.1 of RFC 9113 returns every field; the identifier if and only if the reserved bit is clear |
| Frames.BasePayload | http2/http2.go:678-682 | the payload is the bytes the length says, or all there are if there are fewer |
| Frames.HeaderPrintParse | http2/http2.go:649-687 | every nine bytes are the layout of what is parsed from them, so no two headers are confused |
| Frames.DataRoundTrip | http2/http2.go:756-780 | section 6.1 of RFC 9113: data, with or without padding of any length, comes back |
| Frames.DataParseExact | http2/http2.go:756-780 | DATA parses if and only if its payload is such a layout; otherwise it fails in the way stated |
| Frames.HeadersRoundTrip | http2/http2.go:721-754 | section 6.2 of RFC 9113: the fragment comes back for any padding, with or without priority fields |
| Frames.HeadersParseExact | http2/http2.go:721-754 | HEADERS parses if and only if its payload is such a layout; it panics exactly where pad length, priority fields and padding do not fit |
| Frames.ParseFrameSetting | http2/http2.go:689-719 | fails if and only if the length is no multiple of 6, and which error; otherwise returns exactly the HEADER_TABLE_SIZE entries, in order |
| Frames.SettingsRoundTrip | http2/http2.go:700-717 | printing and parsing any list of settings returns it (section 6.5.1 of RFC 9113) |
| Frames.SettingsPrintParse | http2/http2.go:700-717 | and every payload of whole entries is the layout of its entries |
| Frames.MessageRoundTrip | http2/http2.go:809-815 | a length-prefixed gRPC message comes back with its format byte |
| Frames.ParseAppend | http2/http2.go:211-245 | parsing a stream in two pieces, the rest carried over, is parsing it whole |
| Frames.ParsePrefix | http2/http2.go:211-245 | the frames of a prefix are a prefix of the frames |
| Frames.FramesRoundTrip | http2/http2.go:216-244 | any list of frames, written one after the other, parses back to itself with nothing left over |
| FrameLoop.ReadFull | http2/http2.go:218-219 | io.ReadFull over Read: the bytes in order, full or as many as there were |
| FrameLoop.NextFrame | http2/http2.go:216-244 | one turn hands on exactly the one frame that the bytes it read hold, or none when they end inside it |
| FrameLoop.DealInput | http2/http2.go:211-248 | the frames handed on are exactly those of the bytes read, and unless closed all delivered bytes are read |
| PipelineInvariants.NextKeeps | http2/tcp_buffer.go:49-131 | every micro-step of either goroutine keeps the invariant: refinement of Accept, exact counters, byte order, frames of the bytes read |
| PipelineTheorems.EndToEnd | http2/http2.go:211-245 | over every run the bytes read are a prefix of the stream and the frames handed on are a prefix of its frames |
| PipelineTheorems.CountersConserved | http2/tcp_buffer.go:78-82 | at every step actualCanReadSize is what is about to be pushed, in the channel, in the residual buffer and in the reader's hand; size is that plus what only waits in the list; neither is negative |
| PipelineTheorems.MicroStepsRefineRun | http2/tcp_buffer.go:84-131 | between two AddTCP calls the shared state is that of AddTCP done in one piece |
| PipelineTheorems.EveryRunRests | http2/tcp_buffer.go:49-131 | every run without new segments, whatever its schedule, changes the state at most as often as the measure says; when nothing can change any more, and only then, the loops are at rest: no deadlock on the full channel, no livelock |
| PipelineTheorems.WriterNearer | http2/tcp_buffer.go:84-127 | each step of the packet loop that changes anything lowers the measure |
| PipelineTheorems.ReaderNearer | http2/tcp_buffer.go:49-82 | and so does each step of the frame loop |
| PipelineTheorems.ComesToRest | http2/tcp_buffer.go:49-131 | rest can be reached from every reachable state |
| PipelineTheorems.AtRest | http2/http2.go:211-245 | at rest the frames are exactly those of all delivered bytes and nothing readable is left |
| PipelineTheorems.PartIsCut | http2/tcp_buffer.go:110-112 | every part of a partition is a piece of the stream in the sense of the theorems |
| PipelineTheorems.EveryOrderYieldsEveryFrame | http2/http2.go:211-245 | frames, cut into parts anywhere within the window, arriving in any order with repeats: exactly those frames are handed on and no byte is held |
| StreamTable.SlotsDoNotInterfere | http2/http2.go:277-309 | each slot's state and messages are those of its own frames run alone |
| ConnectionStreams.FinishedPrefix | http2/http2.go:211-245 | the streams finished by the first frames are the first ones finished |
| StreamTable.StopsOnlyByOwnFrames | http2/http2.go:283-287 | one goroutine alone stops, on a full token channel or by a panic, if and only if one slot would stop it on its own frames, and for the same reason |
| StreamTable.StreamsDoNotInterfere | http2/http2.go:277-374 | streams with identifiers distinct modulo 10000: each one's state and messages are those of its own frames |
| StreamTable.NarrowSpanIsApart | http2/http2.go:279-279 | identifiers within a span below 10000 are such |
| StreamTable.RequestFrame | http2/http2.go:277-374 | request-only mode, one frame: never stuck; unless it panics, one message exactly for a frame that parses and carries END_STREAM, and then a fresh slot |
| StreamTable.FinishOncePerEndStream | http2/http2.go:292-309 | over a whole connection: it stops if and only if a frame panics; otherwise FinishStream runs once for each such frame, in wire order |
| StreamTable.RecordedFrame | http2/http2.go:277-374 | recording mode, one frame: it can only panic, or get stuck as the end of a request on a token that is still there; otherwise one finished stream exactly for END_STREAM of the response, and then a fresh slot |
| StreamTable.FinishOncePerResponseEnd | http2/http2.go:294-297 | recording mode, over a whole connection that is not stopped: FinishStream runs once for each END_STREAM frame of a response, in wire order, and never for one of a request |
| StreamTable.PanicsExact | http2/http2.go:721-815 | which frames panic, by flags and payload: padding too long, a DATA payload of 1 to 4 bytes, output frames without a response to store |
| StreamTable.ResetFrame | http2/http2.go:446-450 | after RST_STREAM the slot is that of a new stream, in both modes |
| StreamTable.SlotKnowsItsStream | http2/http2.go:277-280 | a slot holds the identifier of its last frame, or 0 after a finish or a reset; frames of other kinds do not touch it |
| Exchanges.PartOn | http2/http2.go:311-439 | a frame laid out from its meaning stores its fields and the bytes of its message, unzipped if compressed; one that does not unzip or decode stores none; both end flags are noted |
| Exchanges.BrokenFrame | http2/http2.go:729-773 | a padded frame without a pad length changes nothing |
| Exchanges.WholeExchange | http2/http2.go:277-401 | both modes: the frames of a whole request, and of a whole response that ends last, interleaved, give exactly one finished stream, at the last frame and not before; the slot is fresh again |
| Exchanges.WholeContents | http2/http2.go:311-401 | what it holds: on each side all fields, later ones winning, and the bytes of all messages in order, those of zipped messages unzipped |
| Exchanges.FieldsExact | http2/http2.go:398-401 | the stored header map gives for every name the value of the last field sent with it, and nothing else |
| Messages.TrimExact | http2/http2.go:529-529 | trimming takes off the white space at both ends, all of it and nothing else |
| Messages.ToMsgExact | http2/http2.go:528-590 | exactly which message is built of header maps and bytes: method, headers, the request as its input type and the response as its output type, or raw text for other content types |
| Exchanges.ExchangeMakesItsMessage | http2/http2.go:300-309 | among any other streams of the connection, an exchange makes exactly the message that the parts sent describe, if there is one, and leaves its slot fresh |
| Exchanges.NoMessageExactly | http2/http2.go:528-590 | no message if and only if the trimmed path is empty or a reflection call, or a side of gRPC content has no known method or does not convert |
| Exchanges.KnownMethod | http2/http2.go:551-583 | a gRPC call whose method is known: its one message has the trimmed path, all fields, the JSON of the request bytes as the input type and of the response bytes as the output type |
| Exchanges.SecondRequestStops | http2/http2.go:283-287 | recording mode: a second request that ends on a slot before the response to the first is stuck on the token |
| Exchanges.ExchangeAfterReset | http2/http2.go:446-450 | after RST_STREAM a whole exchange comes out as on a new slot, whatever was left there |
| Exchanges.LateFieldsLeak | http2/http2.go:403-439 | fields of a CONTINUATION after END_STREAM end up in the next request on the slot |
| Http2Conns.Http2Conn.FinishStream | http2/http2.go:300-309 | the message that toMsg makes of the slot, if any, is sent; the slot is fresh afterwards either way; the others are untouched |
| Http2Conns.Http2Conn.Reset | http2/http2.go:627-634 | the slot is that of a new stream |
| Http2Conns.Http2Conn.ProcessMessageFrame | http2/http2.go:277-401 | DATA and HEADERS in place on the array do the slot step of the specification and emit its messages |
| Http2Conns.Http2Conn.ProcessFrame | http2/http2.go:250-275 | every frame type does the table step of the specification, panics included; only its own slot changes, and SETTINGS sets the decoder's table size |
| Http2Conns.Http2Conn.ProcessFrameSetting | http2/http2.go:452-482 | of a frame that parses and is no acknowledgement the last HEADER_TABLE_SIZE wins, for the direction it came from |
| Http2Conns.TableSizeTaken | http2/http2.go:452-482 | a SETTINGS frame laid out from any entries sets its own direction's size to the last HEADER_TABLE_SIZE among them; acknowledgements and broken lengths set nothing |
| Http2Conns.Http2Conn.ProcessFrames | http2/http2.go:211-245 | a sequence of frames does the table run of the specification |
| RecordingMode.EffectIsItemOn | http2/http2.go:311-439 | the accesses of storing one frame, field by field, are what the frame does to the item |
| RecordingInvariants.TokenAfterRequest | http2/http2.go:283-297 | in every interleaving, timers included, the token can be taken at most once and only after the request's END_STREAM frame was fully processed |
| RecordingInvariants.TokenMeansComplete | http2/http2.go:283-309 | in every interleaving, a message sent by who left by the token, no timer having fired by then, is built from the whole request, and from the whole response if the output goroutine sent it |
| RecordingRuns.CalmTokenSafe | http2/http2.go:856-863 | for every stream, without timers the token means the whole request |
| RecordingRuns.TokenSafeExact | http2/http2.go:856-863 | for every stream of which a torn draft makes a message: the token means the whole request in all interleavings if and only if no timer can fire |
| RecordingRuns.MessageTears | http2/http2.go:528-590 | every stream that makes a message at all is such a stream |
| RecordingRuns.SnapshotTears | http2/http2.go:603-611 | with a snapshot of the header map it is one if the finder knows the method or the request has a body, and no bytes decode as a message |
| RecordingRuns.TokenAfterTimeout | http2/http2.go:528-634 | for every such stream a run with a timeout in which the token's taker sends an accepted message whose request is not the whole one |
| RecordingRuns.ResponseSafeExact | http2/http2.go:318-401 | for every stream, without timers: the token means the whole response in all interleavings if and only if nothing that can be found while the last response frame is stored, field by field, makes another message |
| RecordingRuns.LastFrameCases | http2/http2.go:384-401 | a last frame that carries nothing does not matter; one that adds header fields does, where a message can be built after none or some of them |
| StateMachine.HistoryIsPath | http2/state_machine.go:107-136 | the history is a path of the table from LISTEN with strictly rising rank, so no state is entered twice |
| StateMachine.EstablishedExactly | http2/state_machine.go:111-133 | ESTABLISHED is in the history if and only if the events contain the handshake in order with no earlier RST in LISTEN |
| StateMachine.OneCompletion | http2/state_machine.go:111-116 | the handshake completes at most once for an entry |
| StateMachine.OpenExactly | http2/state_machine.go:111-133 | the state is ESTABLISHED if and only if the handshake completed and no FIN or RST came since |
| Teardown.CloseWaitExactly | http2/state_machine.go:125-127 | the state is CLOSE_WAIT if and only if the client's FIN came while open and the server's FIN has not followed |
| Teardown.LastAckExactly | http2/state_machine.go:127-128 | the state is LAST_ACK if and only if both FINs came in that order and no ACK has followed |
| Teardown.ClosedExactly | http2/state_machine.go:125-132 | the state is CLOSED if and only if a RST came before any SYN or while open, or the client's FIN while open, the server's FIN and an ACK, in that order |
| TrackerInvariants.StepIsLocal | http2/processor.go:34-64 | an input changes what is tracked for its own connection, by a function of that alone, and nothing else |
| TrackerInvariants.TwoMaps | http2/state_machine.go:75-104 | over every run with GOAWAY: buffers only for ESTABLISHED, CLOSE_WAIT or LAST_ACK, no stored CLOSED, each entry under its key with a lawful history; conversely without GOAWAY |
| TrackerInvariants.ConnectionsDoNotInterfere | http2/processor.go:34-129 | what is tracked for a connection, its buffers included, is what its own packets alone would leave |
| TrackerInvariants.BothDirectionsOneKey | http2/processor.go:38-43 | a packet and its answer map to one key |
| TrackerInvariants.EntryHistory | http2/processor.go:44-50 | a connection's entry was made by a definite packet and its history replays the events since |
| TrackerInvariants.PayloadGate | http2/processor.go:56-62 | a payload changes a buffer only if the entry's events contain the handshake and no FIN or RST accepted since |
| TrackerInvariants.EstablishedGate | http2/processor.go:102-129 | the entry was ever, and is now, ESTABLISHED exactly when its payload-free events say so |
| TrackerInvariants.Incarnation | http2/state_machine.go:83-102 | the buffers of a reused address were made by the packet completing its last handshake and hold exactly what was fed since |
| ConnectionLife.EventByFlags | http2/processor.go:112-127 | each event is triggered by exactly the payload-free packets of one direction with the stated flags, whatever the order of the tests |
| ConnectionLife.OpeningByFlags | http2/state_machine.go:83-116 | by packet flags: SYN, SYN+ACK and ACK each take a connection one step further, a RST before the SYN ends it, nothing else matters; the last one makes buffers that expect its number plus one and its acknowledged number |
| ConnectionLife.OpenByFlags | http2/processor.go:117-126 | an open connection goes to CLOSE_WAIT on a payload-free incoming FIN without SYN, with ACK or not, is dropped from both maps on RST without SYN and FIN, and stays open on every other packet |
| ConnectionLife.ClosingByFlags | http2/processor.go:117-127 | a closing connection moves only on the server's FIN, and then only on an ACK without other flags, which drops it from both maps |
| ConnectionLife.HandshakeOpens | http2/processor.go:34-64 | SYN, SYN+ACK and ACK of a new connection, among anything on others, leave it ESTABLISHED with such buffers |
| ConnectionLife.Stays | http2/processor.go:34-64 | from ESTABLISHED on a connection stays where it is until its next closing packet, whatever else comes |
| ConnectionLife.OrderlyClose | http2/state_machine.go:98-102 | FIN, FIN and ACK, with anything harmless in between, take an open connection out of both maps, and the next SYN starts a new entry without buffers |
| ConnectionLife.ResetCloses | http2/state_machine.go:98-102 | a RST takes an open connection out of both maps at once |
| ConnectionLife.EndsExactly | http2/state_machine.go:98-102 | over every run: a packet removes its connection if and only if the events since the entry was made say that it is over; nothing is then left of it |
| ConnectionLife.GoAwayDrops | http2/http2.go:441-444 | after GOAWAY a connection has no buffers until the ACK of a later handshake; no entry is touched |
| Processors.ShortRunEnds | http2/processor.go:34-64 | in every run that feeds each buffer, between two handshakes of its connection, less than 2^32-1 bytes, every delivery loop ends |
| Processors.TCPConnectionState.constructor | http2/state_machine.go:44-50 | a new entry is in LISTEN with that history |
| Processors.Processor.Enter | http2/state_machine.go:75-104 | the effect of entering a state on the object and both maps is that of the specification, and every stored object stays under its own key |
| Processors.Processor.HandleConnectionState | http2/processor.go:102-129 | the first matching event fires, or nothing changes |
| Processors.Processor.ProcessIncomingTCPPkg | http2/processor.go:66-85 | feeds the input buffer, or moves its expected number past a preface packet, or does nothing without buffers |
| Processors.Processor.ProcessOutComingTCPPkg | http2/processor.go:87-100 | feeds the output buffer of the reversed connection |
| Processors.Processor.ProcessPkg | http2/processor.go:36-63 | one turn of the loop is the step of the specification, which also decides on the state after the event, not before |
| Processors.Processor.ProcessTCPPkg | http2/processor.go:34-64 | the loop over any packets is the run of the specification and keeps the two maps consistent |
| Processors.Processor.ProcessFrameGoAway | http2/http2.go:441-444 | GOAWAY drops the buffers and leaves the state |
| ConnectionStreams.AfterPreface | http2/processor.go:77-84 | from the preface packet on the input buffer delivers a prefix of the client's stream, whatever else is fed |
| ConnectionStreams.PrefaceText | http2/processor.go:132-142 | a payload counts as a preface if and only if its first 24 bytes are one of the two texts |
| ConnectionStreams.RepeatedPreface | http2/processor.go:77-81 | a preface that is repeated moves the expected number back: the next segment is delivered again |
| ConnectionStreams.ConnectionDeliversPrefix | http2/processor.go:34-85 | for every run over any connections: what the current incarnation delivered, and its frames, are a prefix of what its client sent |
| ConnectionStreams.ConnectionMessagesPrefix | http2/http2.go:211-309 | from packets to messages: what the current incarnation delivered makes a prefix of the messages of what its client sent |
| ConnectionStreams.ConnectionDeliversAll | http2/processor.go:34-85 | once all parts arrived within the window, in any order with repeats, among the packets of other connections: all is delivered and nothing is held back |
| ConnectionStreams.ClientPieceEnds | http2/processor.go:66-85 | a piece of the client's stream starts no endless delivery loop |
| ConnectionStreams.ServerPieceEnds | http2/processor.go:87-100 | nor does a piece of the server's stream |
| ConnectionStreams.FirstDataNeedsPreface | http2/state_machine.go:93-95 | the client's first segment after the handshake is dropped by the buffer just made, and only a connection preface moves it on |
| ConnectionStreams.ConnectionDeliversResponses | http2/processor.go:87-100 | the same for the server's side: what the current incarnation delivered, and its frames, are a prefix of the stream from the acknowledged number on |
| ConnectionStreams.ConnectionDeliversAllResponses | http2/processor.go:87-100 | once all parts of the server's stream from the acknowledged number on arrived within the window, in any order with repeats: all is delivered and nothing is held back |
| ConnectionStreams.OutputUntouched | http2/processor.go:56-62 | without recording of responses the output buffer stays as the handshake made it |
| Text.SplitJoin | protocol/codec_simple.go:54-57 | splitting joined parts returns them |
| Text.AtoiPrint | protocol/codec_simple.go:61-76 | every 64-bit number, negative ones included, is parsed back from its decimal print |
| Text.AtoiExact | protocol/codec_simple.go:61-76 | which texts parse to which number: digits in range after at most one sign |
| Text.PrintExact | protocol/codec_simple.go:24-26 | the print of a number is the one text without plus sign or leading zero that parses to it |
| CodecSimple.Line1RoundTrip | protocol/codec_simple.go:24-26 | the first line parses back to its four values |
| CodecSimple.Line1Words | protocol/codec_simple.go:24-26 | the first line is version, UUID, timestamp and 1 or 0, one blank between |
| CodecSimple.WordsParse | protocol/codec_simple.go:56-80 | which four words parse to which values; every positive flag announces a response |
| CodecSimple.MarshalLines | protocol/codec_simple.go:20-50 | the lines of a printed message: first line, method, request, and the response exactly if announced |
| CodecSimple.MissingResponse | protocol/codec_simple.go:77-95 | without the announced response line the message is read with an empty response |
| CodecSimple.MissingRequest | protocol/codec_simple.go:82-85 | without the request line the program stops |
| CodecSimple.UnmarshalClean | protocol/codec_simple.go:52-96 | whatever the text, a message that is returned can be printed and parsed again |
| CodecSimple.RoundTripExact | protocol/codec_simple.go:20-96 | parsing a printed message returns it if and only if UUID, method and response are as the format needs |
| JsonExists.LawfulExists | protocol/codec_simple.go:33-46 | an encoder with the assumed laws exists: inverted by its decoder, one non-empty line |
| RecordFiles.ReinforcedReader.ReadMessage | plugin/input_file_dir.go:193-247 | the line loop over several files, partial last lines and the end included, is the specification; it ends by files left and text left |
| RecordFiles.ReinforcedReader.NextFile | plugin/input_file_dir.go:171-191 | moves to the next file, or sets EOF after the last |
| RecordFiles.FileDirOutput.Write | plugin/output_file_dir.go:54-69 | the log is always exactly the records of the messages written, in order |
| RecordFiles.ReadRecord | plugin/input_file_dir.go:208-246 | reading at a written record returns its message and stops right behind it |
| RecordFiles.ScanAcrossFiles | plugin/input_file_dir.go:208-229 | a record goes on in the next file: whole lines are kept, what follows the last newline of a file is dropped |
| RecordFiles.FilesRoundTrip | plugin/input_file_dir.go:171-247 | messages written in groups, one file a group: reading returns all in order, then EOF, which stays |
| RecordFiles.ReadIsStorable | plugin/input_file_dir.go:233-246 | whatever the files hold, every message read could have been written and read back |
| RecordFiles.OneRecordExact | plugin/input_file_dir.go:208-246 | a message survives a file if and only if the codec can carry it and its method is not empty |
| ReplayInput.FileDirInput.Init | plugin/input_file_dir.go:44-76 | schedules the first messages, as many as asked for or as there are; the origin of time is their smallest timestamp; fatal if and only if a record among them cannot be read |
| ReplayInput.FileDirInput.Fire | plugin/input_file_dir.go:84-99 | whichever message the timer fires: it is sent, and the next record read is scheduled, or passed over if it cannot be read |
| ReplayInput.FileDirInput.AllSent | plugin/input_file_dir.go:78-102 | over any order of firing: no more messages fire than were recorded, and when none is scheduled any more exactly the recorded ones were sent, if and only if the queue could not run dry before the last |
| ReplayInput.DryExact | plugin/input_file_dir.go:86-98 | the queue runs dry too early if and only if a message comes after as many unreadable records as were scheduled at the start |
| ReplayInput.WrittenIsReplayed | plugin/output_file_dir.go:54-69 | what the output plugin wrote, in any number of files, is read in order without unreadable records, so it is replayed in full |
| PbFinder.ConstructFileDescriptorSet | http2/pb_finder.go:165-173 | the recursion over shared sets computes the traversal, and terminates |
| PbFinder.VisitGrows | http2/pb_finder.go:165-173 | without any assumption on names: the list grows by reachable files of pairwise distinct new names, and covers every reachable name |
| PbFinder.ClosureExact | http2/pb_finder.go:165-173 | with unique names the list gains exactly the reachable files not in the set before, each once |

## Left out

- Processors.Processor.ProcessPkg: the buffers of a connection are held by the value that
  `TCPBuffers.TCPBuffer` is proved to implement, not by its objects, so sharing of one buffer between
  the packet loop and the frame loop is modelled in `Pipeline` only.
- Processors.Processor.ProcessFrameGoAway: GOAWAY is one atomic deletion between two packets; the
  unguarded concurrent access to the map is not modelled.
- TCPBuffers.TCPBuffer.AddTCP: its channel is unbounded; the capacity of 100 and the wait on a full
  channel are in `Pipeline`. Its precondition `LoopEnds` is exactly that the loop ends
  (`Reassembly.LoopEndsExact`).
- TCPBuffers.TCPBuffer.Read: waiting is the result `Blocked`, and which ready case of the select is
  taken is a parameter.
- Http2Conns.Http2Conn.ProcessFrame: slots are values in an array, so two goroutines on one slot
  appear in `RecordingMode` only; what the decoder does with its table size is not modelled.
- RecordingInvariants.TokenMeansComplete: one stream on its slot, without RST_STREAM; the stream
  identifier, which no message holds, is left out. HEADERS fields are given with the frame; clearing
  a header map is one access.
- RecordingRuns.TokenSafeExact: streams of which neither the whole nor a torn draft makes a message are
  not decided when timers fire.
- PipelineTheorems.EndToEnd: stated for the input direction; `DealOutput` is the same loop.
- ConnectionStreams.ConnectionDeliversPrefix: needs the preface packet to be the client's first
  payload and not to be repeated, since a repetition would move the expected number back.
- RecordFiles.ReinforcedReader.ReadMessage: read errors other than the end of a file are left out.
- RecordFiles.ReinforcedReader.NextFile: errors of closing one file and opening the next are left out.
- RecordFiles.FilesRoundTrip: files are given by their contents in path order and split at record
  boundaries; directories, gzip, log rotation between the two writes of one record are
  left out.
- CodecSimple.RoundTripExact: text is characters, not bytes; JSON is a pair of functions with the
  stated laws; unmarshalling is into a fresh message.
- PbFinder.ConstructFileDescriptorSet: a descriptor holds its imports, so the graph is acyclic by
  construction; `Get`, its cache and `parseSymbol` are not modelled.
- Closing a buffer: in `TCPBuffers` and `FrameLoop` only, not among the micro-steps of `Pipeline`.
- HPACK, gunzip, protobuf and JSON conversion, UUIDs and clocks: parameters of the model.
- Exchanges.WholeExchange: one goroutine after the other, the response's end last; a response that
  ends before its request, and two goroutines at once, are in `RecordingMode` only.
- gRPC messages or header blocks split over several frames: the code takes each frame on its own,
  and so does the model.
- The state machine library: it is taken to call `OnEnter` only when the state changes.
- Packet capture, RST and SYN injection, interface listing, `ConnSet`, filters, emitter, rate
  limiter, RocketMQ and gRPC outputs, and when the replay timer fires.
