# Sensor TCP client: a verified Dafny model

This project models `TCPClient`, the networking core of the Sensor
Android app. The client opens a TCP connection to the sensor device. It
waits up to five seconds for the device's `connected` handshake, and
three seconds after the handshake it starts polling. Polling means
writing the 6-byte "request all" frame `AB BA 00 FF CD DC`, then sleeping
two seconds, over and over. Meanwhile a receive loop adds the incoming
text to a buffer and pulls out the response frames
`ABBA<v1>,<v2>,<v3>,<v4>,<v5>,<v6>CDDC`. It reports each frame that
decodes as one six-value reading.

The project has these modules:

- `Wrappers`: the `Option` type.
- `JavaText`: the parts of `java.lang.String` the client uses,
  namely `indexOf`, `contains`, `trim` and `split`, with their meaning
  proved. `Join` is a helper of the specification only: the client never
  joins strings, but `Join` states what `split` undoes.
- `FrameCodec`:
  - the request frame, written into a fresh byte array;
  - the decoding of one frame's text;
  - `ScanFrames`, the frame loop as a recursive function;
  - `ProcessBuffer`, the whole buffer processor, meaning the handshake
    token check followed by the frame loop;
  - the properties of both, including a round trip from a response
    frame to its reading and independence from how the stream is split
    into reads.
- `SessionSpec`: the session as a state machine over values.
  - Each public operation, each task the client submits to its executor
    and each callback it posts on its handler is a transition `After…`.
  - The threads become inputs (`Step`, `Run`) that choose which waiting
    piece of work runs next.
  - Listener calls are logged in `events` and written frames in `sent`.
- `SessionProperties`:
  - an invariant that every transition keeps;
  - the guards of the operations and the delayed callbacks;
  - split reads;
  - an end-to-end scenario.
- `Session`: `TcpClient`, a class whose fields change in place.
  - Its methods match the Java methods and task bodies.
  - Each method is proved to change the object exactly as the matching
    transition of `SessionSpec` changes a state.
  - The frame loop of `processReceivedBuffer` is the `while` loop of
    `ReportFrames`. Its loop invariant ties it to `ScanFrames`.

Float parsing is the parameter `parse`, a partial function from a field's
trimmed text to a value. The model does not read sockets; instead the
content of each read is an input, and so is the outcome of each write.

`disconnect()` has no once-only gate. It reports
`onConnectionStatusChanged(false)` on every call, including the second
call made when the receive loop exits after an earlier `disconnect()`
(TCPClient.java:216-217, 294-296).
`SessionProperties.DisconnectReportsEveryCall` states this behaviour.

## Model

| member | source | states |
|---|---|---|
| FrameCodec.BuildRequestAllFrame | app/src/main/java/com/example/sensor/TCPClient.java:181-190 | a fresh 6-element array holding AB BA 00 FF CD DC |
| FrameCodec.ParseFields | app/src/main/java/com/example/sensor/TCPClient.java:245-248 | parsing succeeds exactly when every trimmed field parses; the result holds those values in field order |
| FrameCodec.ParseReading | app/src/main/java/com/example/sensor/TCPClient.java:244-248 | the six-iteration parse loop gives up at the first field that does not parse, and otherwise returns the six values in order |
| FrameCodec.ParseFrame | app/src/main/java/com/example/sensor/TCPClient.java:238-258 | trim, split on commas, parse only when there are exactly six fields: the frame's decoded reading |
| FrameCodec.DecodeFrame | app/src/main/java/com/example/sensor/TCPClient.java:238-255 | a decoded reading always has exactly six values |
| FrameCodec.Readings | app/src/main/java/com/example/sensor/TCPClient.java:234-272 | at most one reading per frame, each of six values |
| FrameCodec.ReadingsAppend | app/src/main/java/com/example/sensor/TCPClient.java:234-272 | frames are decoded one at a time: two batches of frames give their readings concatenated in order |
| FrameCodec.Locate | app/src/main/java/com/example/sensor/TCPClient.java:233-235 | the first `ABBA`, and the first `CDDC` at least four characters after it, both lie inside the buffer |
| FrameCodec.SettledMeaning | app/src/main/java/com/example/sensor/TCPClient.java:233-270 | the buffers the frame loop leaves alone are exactly those with no `ABBA`, or with `ABBA` at index 0 and no `CDDC` from index 4 on |
| FrameCodec.KeepPartialFrame | app/src/main/java/com/example/sensor/TCPClient.java:264-268 | keeping a partial frame deletes only a prefix of the buffer |
| FrameCodec.PartialFrameSettled | app/src/main/java/com/example/sensor/TCPClient.java:264-268 | after an incomplete frame is kept from its `ABBA` on, the frame loop has nothing left to do |
| FrameCodec.ScanFrames | app/src/main/java/com/example/sensor/TCPClient.java:233-272 | the frame loop as a recursive function: no `ABBA` keeps the buffer; `ABBA` without a later `CDDC` keeps the buffer from `ABBA` on; a complete frame records the text between the markers and continues after `CDDC`. Its properties are the lemmas below |
| FrameCodec.ScanFramesSuffix | app/src/main/java/com/example/sensor/TCPClient.java:233-272 | the frame loop only ever deletes a prefix of the buffer |
| FrameCodec.ScanFramesSettled | app/src/main/java/com/example/sensor/TCPClient.java:233-272 | the frame loop never leaves a complete frame behind, and a leftover partial frame starts at index 0 |
| FrameCodec.NoFrameSettled | app/src/main/java/com/example/sensor/TCPClient.java:233-234 | with no `ABBA` the buffer is kept whole and nothing is reported |
| FrameCodec.PartialFrameStep | app/src/main/java/com/example/sensor/TCPClient.java:264-268 | `ABBA` with no `CDDC` after it: the garbage before it is deleted, the partial frame kept, and the loop stops |
| FrameCodec.CompleteFrameStep | app/src/main/java/com/example/sensor/TCPClient.java:235-262 | a complete first frame contributes its text first, and scanning continues after its `CDDC` |
| FrameCodec.SettledIsFixpoint | app/src/main/java/com/example/sensor/TCPClient.java:233-272 | the frame loop leaves a settled buffer unchanged and reports nothing |
| FrameCodec.ScanFramesIdempotent | app/src/main/java/com/example/sensor/TCPClient.java:233-272 | running the frame loop again with no new data changes nothing |
| FrameCodec.GarbageSkipped | app/src/main/java/com/example/sensor/TCPClient.java:233-268 | deleting everything before the first `ABBA` does not change what the frame loop finds |
| FrameCodec.ScanFramesChunked | app/src/main/java/com/example/sensor/TCPClient.java:233-272 | scanning `a`, then its leftover followed by `b`, leaves the same buffer and the same frames, in order, as scanning `a + b` |
| FrameCodec.LocateExtended | app/src/main/java/com/example/sensor/TCPClient.java:233-235 | appending text does not move a complete first frame |
| FrameCodec.AfterHandshakeToken | app/src/main/java/com/example/sensor/TCPClient.java:225-231 | the handshake check deletes a prefix, through the first `connected`, and only when the buffer contains `connected` |
| FrameCodec.ProcessBuffer | app/src/main/java/com/example/sensor/TCPClient.java:222-273 | the handshake token check followed by the frame loop, with each recorded frame decoded; its properties are `ProcessBufferShape`, `ProcessBufferChunked` and `ResponseRoundTrip` |
| FrameCodec.ProcessBufferShape | app/src/main/java/com/example/sensor/TCPClient.java:222-273 | processing leaves a suffix of the old buffer with no complete frame in it, and every reading has six values |
| FrameCodec.ProcessBufferChunked | app/src/main/java/com/example/sensor/TCPClient.java:200-207 | with no `connected` in the stream, processing `a` and then its leftover plus `b` gives the same buffer and the same readings, in order, as processing `a + b` |
| FrameCodec.ScanFirstFrame | app/src/main/java/com/example/sensor/TCPClient.java:233-262 | the first complete frame is found, its text is recorded before all later frames, and the garbage and the frame are deleted |
| FrameCodec.FirstFrameDecoded | app/src/main/java/com/example/sensor/TCPClient.java:233-262 | the first frame's reading, if it decodes, is reported before every reading from the rest of the buffer |
| FrameCodec.UndecodableFrameSkipped | app/src/main/java/com/example/sensor/TCPClient.java:242-262 | a frame with the wrong field count or an unparsable field reports nothing, is deleted, and scanning goes on |
| FrameCodec.FramesBeforeTokenDropped | app/src/main/java/com/example/sensor/TCPClient.java:225-231 | frames lying wholly before the first `connected` are deleted without being reported |
| FrameCodec.DecodeEncodedFields | app/src/main/java/com/example/sensor/TCPClient.java:238-248 | six numerals joined by commas decode to the six values they parse to |
| FrameCodec.ResponseRoundTrip | app/src/main/java/com/example/sensor/TCPClient.java:222-273 | a response frame for six numerals, received whole, gives exactly its one reading and leaves the buffer empty |
| FrameCodec.FrameLoopComplete | app/src/main/java/com/example/sensor/TCPClient.java:235-262 | one pass over a complete frame keeps the frame loop's invariant: what is reported so far plus what the buffer still yields is what the original buffer yields |
| FrameCodec.FrameLoopPartial | app/src/main/java/com/example/sensor/TCPClient.java:264-268 | the pass that breaks on a partial frame leaves exactly what the frame loop leaves |
| FrameCodec.FrameLoopNone | app/src/main/java/com/example/sensor/TCPClient.java:234 | the loop that ends for want of an `ABBA` has reported everything |
| JavaText.IndexOfMeaning | app/src/main/java/com/example/sensor/TCPClient.java:233-235 | `indexOf` returns the first occurrence at or after the start index, or -1 exactly when there is none |
| JavaText.ContainsMeaning | app/src/main/java/com/example/sensor/TCPClient.java:226 | `contains` holds exactly when the pattern occurs somewhere |
| JavaText.Trim | app/src/main/java/com/example/sensor/TCPClient.java:238 | the result is the input with its leading and trailing characters at or below U+0020 removed, and no more |
| JavaText.Split | app/src/main/java/com/example/sensor/TCPClient.java:242 | no piece contains the separator; text with no separator is one piece; trailing empty pieces are dropped |
| JavaText.SplitOfJoin | app/src/main/java/com/example/sensor/TCPClient.java:242 | splitting separator-free pieces joined by the separator gives back the pieces |
| JavaText.SplitIgnoresTrailingSeparator | app/src/main/java/com/example/sensor/TCPClient.java:242 | a trailing comma does not add a field (`"1,2,3,4,5,6,"` still has six) |
| SessionSpec.AfterConnect | app/src/main/java/com/example/sensor/TCPClient.java:59-63 | `connect()`: clears both handshake flags and submits one connect task |
| SessionSpec.AfterSocketOpened | app/src/main/java/com/example/sensor/TCPClient.java:64-79 | the connect task when the socket opens: the socket is open, the flag is set, `true` is reported, and the timeout post and the receive loop are submitted |
| SessionSpec.AfterSocketFailed | app/src/main/java/com/example/sensor/TCPClient.java:81-87 | the connect task when opening fails: the error is reported and `disconnect()` runs |
| SessionSpec.AfterStopPolling | app/src/main/java/com/example/sensor/TCPClient.java:170-177 | `stopPolling()`: clears the flag and reports `false` only when it was set |
| SessionSpec.AfterDisconnect | app/src/main/java/com/example/sensor/TCPClient.java:275-297 | `disconnect()`: stops polling, clears the flag, closes the socket, clears every posted callback and reports `false`, on every call |
| SessionSpec.AfterHandshake | app/src/main/java/com/example/sensor/TCPClient.java:104-119 | `handleConnectedMessage()`: acts only once per connect, swapping every posted callback for the delayed poll start |
| SessionSpec.AfterStartPolling | app/src/main/java/com/example/sensor/TCPClient.java:122-141 | `startPolling()`: an error when not connected, nothing when already polling, otherwise the flag, one `true` report and one polling loop |
| SessionSpec.AfterTimerFires | app/src/main/java/com/example/sensor/TCPClient.java:92-117 | a posted callback: the timeout acts only before the handshake and while connected; the delayed start calls `startPolling()` only while connected and with no timeout |
| SessionSpec.AfterPollerCheck | app/src/main/java/com/example/sensor/TCPClient.java:141 | the polling loop test: go on to a write while polling and connected, else the loop ends |
| SessionSpec.AfterPollerWrite | app/src/main/java/com/example/sensor/TCPClient.java:143-164 | one polling pass: a written request goes back to the test; a failed write reports the error, stops polling and disconnects; an interrupted sleep ends the loop after the request was written |
| SessionSpec.AfterReceiverCheck | app/src/main/java/com/example/sensor/TCPClient.java:197 | the receive loop test: read while connected with an open socket, else exit |
| SessionSpec.ReceiverExits | app/src/main/java/com/example/sensor/TCPClient.java:214-217 | the receive loop exit: stops polling and calls `disconnect()` |
| SessionSpec.AfterProcessReceived | app/src/main/java/com/example/sensor/TCPClient.java:222-273 | `processReceivedBuffer()`: the handshake when `connected` arrives, the buffer left by `ProcessBuffer`, and one report per reading |
| SessionSpec.AfterReadReturns | app/src/main/java/com/example/sensor/TCPClient.java:199-213 | one read: non-empty text is appended and processed, an empty read goes back to the test, the end of the stream ends the loop, and an I/O error ends it after being reported if still connected |
| SessionSpec.Emitted | app/src/main/java/com/example/sensor/TCPClient.java:251-253 | one `onAllDataReceived` call per reading, in order |
| SessionProperties.StepPreservesInvariant | app/src/main/java/com/example/sensor/TCPClient.java:59-305 | every transition keeps the invariant: polling only while connected, connected only with an open socket, at most one delayed start posted, only request frames written, six values per reading, polling reports alternating and ending in the current flag |
| SessionProperties.RunPreservesInvariant | app/src/main/java/com/example/sensor/TCPClient.java:59-305 | any run of inputs keeps the invariant |
| SessionProperties.ReachableInvariant | app/src/main/java/com/example/sensor/TCPClient.java:47-51 | every state reachable from a new client satisfies the invariant |
| SessionProperties.ConnectedQueryAgrees | app/src/main/java/com/example/sensor/TCPClient.java:299-305 | in every reachable state `isConnected()` equals the flag and is true while polling |
| SessionProperties.ConnectResetsFlags | app/src/main/java/com/example/sensor/TCPClient.java:59-63 | `connect()` clears both handshake flags and submits exactly one connect task, changing nothing else |
| SessionProperties.StopPollingReportsOnlyChange | app/src/main/java/com/example/sensor/TCPClient.java:170-177 | `stopPolling()` reports `false` exactly when it clears the flag, changes nothing else, and is idempotent |
| SessionProperties.StartPollingGuards | app/src/main/java/com/example/sensor/TCPClient.java:122-141 | an error when not connected, a no-op when already polling, otherwise one report and one polling loop; a repeated call while connected changes nothing |
| SessionProperties.DisconnectReportsEveryCall | app/src/main/java/com/example/sensor/TCPClient.java:275-297 | `disconnect()` clears both flags and every posted callback; a second call reports `false` again and changes nothing else |
| SessionProperties.TimeoutGuard | app/src/main/java/com/example/sensor/TCPClient.java:91-102 | the timeout acts only when `connected` has not arrived and the client is connected: it sets `timeoutOccurred` and reports the timeout, then disconnects; otherwise it does nothing |
| SessionProperties.DelayedPollStartGuard | app/src/main/java/com/example/sensor/TCPClient.java:113-117 | the delayed start calls `startPolling()` only while connected and when the timeout has not occurred |
| SessionProperties.HandshakeActsOnce | app/src/main/java/com/example/sensor/TCPClient.java:104-119 | the handshake acts once: it sets the flag and swaps every posted callback for the delayed start; a second handshake changes nothing |
| SessionProperties.HandshakeCancelsTimeout | app/src/main/java/com/example/sensor/TCPClient.java:225-228 | a read that brings `connected` removes the connection timeout, leaving the delayed poll start as the only posted callback |
| SessionProperties.ReadsInChunks | app/src/main/java/com/example/sensor/TCPClient.java:192-219 | with no `connected` in the buffer or either read, a read of `a`, the loop test and a read of `b` end in the same state as one read of `a + b` |
| SessionProperties.HappyPath | app/src/main/java/com/example/sensor/TCPClient.java:59-273 | connect, handshake, delayed start and one response frame report connected, polling, then that reading, in this order, with one request written |
| SessionProperties.RestartDuringSleepRunsTwoLoops | app/src/main/java/com/example/sensor/TCPClient.java:134-177 | stopping and restarting polling while a polling loop sleeps leaves two polling loops running |
| SessionProperties.InterruptedSleepLeavesFlagSet | app/src/main/java/com/example/sensor/TCPClient.java:160-163 | an interrupted poll sleep ends the loop with the flag still set, so `startPolling()` does nothing until `stopPolling()` |
| Session.TcpClient.constructor | app/src/main/java/com/example/sensor/TCPClient.java:47-51 | a new client is the initial state |
| Session.TcpClient.Connect | app/src/main/java/com/example/sensor/TCPClient.java:59-63 | changes the object as `AfterConnect` |
| Session.TcpClient.RunConnectTask | app/src/main/java/com/example/sensor/TCPClient.java:64-88 | the connect task changes the object as `AfterSocketOpened` or `AfterSocketFailed` |
| Session.TcpClient.StartConnectionTimeoutTimer | app/src/main/java/com/example/sensor/TCPClient.java:91-102 | posts the timeout and changes nothing else |
| Session.TcpClient.StartReceiving | app/src/main/java/com/example/sensor/TCPClient.java:192-195 | starts one receive loop with an empty buffer and changes nothing else |
| Session.TcpClient.HandleConnectedMessage | app/src/main/java/com/example/sensor/TCPClient.java:104-119 | changes the object as `AfterHandshake` |
| Session.TcpClient.StartPolling | app/src/main/java/com/example/sensor/TCPClient.java:122-141 | changes the object as `AfterStartPolling` |
| Session.TcpClient.StopPolling | app/src/main/java/com/example/sensor/TCPClient.java:170-177 | changes the object as `AfterStopPolling` |
| Session.TcpClient.Disconnect | app/src/main/java/com/example/sensor/TCPClient.java:275-297 | changes the object as `AfterDisconnect` |
| Session.TcpClient.TimerFires | app/src/main/java/com/example/sensor/TCPClient.java:92-101 | a posted callback changes the object as `AfterTimerFires` |
| Session.TcpClient.PollerCheck | app/src/main/java/com/example/sensor/TCPClient.java:141 | the polling loop's test changes the object as `AfterPollerCheck` |
| Session.TcpClient.PollerWrite | app/src/main/java/com/example/sensor/TCPClient.java:143-164 | one polling pass changes the object as `AfterPollerWrite` |
| Session.TcpClient.ReceiverCheck | app/src/main/java/com/example/sensor/TCPClient.java:197 | the receive loop's test changes the object as `AfterReceiverCheck` |
| Session.TcpClient.ReceiverExits | app/src/main/java/com/example/sensor/TCPClient.java:214-217 | the receive loop's exit changes the object as `SessionSpec.ReceiverExits` |
| Session.TcpClient.ReadReturns | app/src/main/java/com/example/sensor/TCPClient.java:199-213 | one receive pass changes the object as `AfterReadReturns` |
| Session.TcpClient.ProcessReceivedBuffer | app/src/main/java/com/example/sensor/TCPClient.java:222-273 | changes the object as `AfterProcessReceived`: the handshake if `connected` arrived, the buffer left by `ProcessBuffer`, and its readings reported in order |
| Session.TcpClient.ReportFrames | app/src/main/java/com/example/sensor/TCPClient.java:233-272 | the imperative frame loop returns exactly the `ScanFrames` leftover and appends one report per decodable frame, in frame order; only the event log changes |
| Session.TcpClient.IsConnected | app/src/main/java/com/example/sensor/TCPClient.java:299-301 | the flag together with an open socket |
| Session.TcpClient.IsPolling | app/src/main/java/com/example/sensor/TCPClient.java:303-305 | the polling flag |
| Session.FrameReported | app/src/main/java/com/example/sensor/TCPClient.java:251-253 | reporting one more frame adds that frame's reading to the log if it decodes, and nothing if it does not |

## Left out

- Socket I/O: opening the connection to 192.168.4.1:8080, the streams, `read`, `write` and `close`. Instead, each read's text and each write's outcome is an input to the model.
- Decoding the bytes of a read into characters with the platform charset: each read is the text it decodes to.
- Threads and the executor, meaning `ensureExecutor`, the thread pool and `shutdown`. Their interleavings are the input sequences of `Run`. `AtomicBoolean` becomes a plain flag, because every transition is atomic in the model.
- A `RejectedExecutionException` from submitting to an executor that `disconnect()` has shut down. It has no counterpart in the model, because the model has no executor.
- The delays of the two posted callbacks (5 s and 3 s) and the 2 s poll sleep: a posted callback may fire at any later step.
- `Float.parseFloat` is the parameter `parse`. The model makes no claim about floating-point values.
- `Log` calls, and the texts of exception messages. Each error report is identified by its `ErrorKind`.
- `IOException` thrown by `close()` inside `disconnect()`. The three `close()` calls share one `try` (TCPClient.java:284-290), so if `inputStream.close()` throws, the other two are skipped and the socket stays open. The model always closes the socket. The difference cannot be observed, because `isConnected` was already cleared (TCPClient.java:277) and every loop tests it.
- `destroy()` and everything in `MainActivity`.
- The listener is assumed non-null, because every callback in the source is guarded by `callback != null` and the app always passes one.
- Java's signed bytes: the request frame is modelled as octets, so `(byte) 0xAB` is 0xAB.
- Session.TcpClient.ProcessReceivedBuffer: the method keeps the buffer being processed in the local `data` and writes it back once at the end. Java instead deletes from the `StringBuilder` at each step. Nothing else reads that buffer while the method runs, so the final state is the same.
