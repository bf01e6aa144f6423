/**
  The connection, handshake and polling state machine of the TCP client,
  as values. Every public operation, every body of a task the client
  hands to its executor and every delayed callback it posts becomes a
  transition `After...` from one `ClientState` to the next; the threads
  themselves become inputs that say which pending piece of work runs
  next (`Step`). Callbacks to the listener are recorded, in order, in
  `events`; frames written to the socket are recorded in `sent`.
*/
module SessionSpec {
  import opened Wrappers
  import opened JavaText
  import opened FrameCodec

  /** The two delayed callbacks the client posts on its main-thread handler. */
  datatype Timer =
    | ConnectionTimeout   // five seconds after connecting: give up unless `connected` arrived
    | DelayedPollStart    // three seconds after `connected`: start polling

  /** The error strings the client reports, one per call site. */
  datatype ErrorKind = ConnectFailed | NotConnected | PollSendFailed | ReceiveFailed

  /** One call into the listener interface. */
  datatype Event<V> =
    | AllDataReceived(values: seq<V>)
    | ConnectionStatusChanged(connected: bool)
    | Error(kind: ErrorKind)
    | PollingStatusChanged(polling: bool)
    | ConnectionTimedOut

  /** The `socket` field: never assigned, open, or closed by `disconnect`. */
  datatype SocketState = NoSocket | Open | Closed

  /**
    A running receive loop: its own text buffer, and whether it is blocked
    in a read (otherwise it is about to test its loop condition).
  */
  datatype Receiver = Receiver(buffer: string, reading: bool)

  /** What a blocking read returns: some text, the end of the stream, or an I/O error. */
  datatype ReadOutcome = Chunk(text: string) | EndOfStream | ReadFailed

  /** How one write of the request frame, and the sleep after it, end. */
  datatype WriteOutcome = Sent | SendFailed | Interrupted

  datatype ClientState<V> = ClientState(
    isConnected: bool,
    isPolling: bool,
    connectedReceived: bool,
    timeoutOccurred: bool,
    timers: multiset<Timer>,      // callbacks posted and not yet run or removed
    socket: SocketState,
    pendingConnects: nat,         // connect tasks submitted and not yet run
    pollersAtCheck: nat,          // polling loops about to test their condition
    pollersAtWrite: nat,          // polling loops that passed it and are about to write
    receivers: seq<Receiver>,
    events: seq<Event<V>>,
    sent: seq<seq<byte>>)

  /** Which pending piece of work runs next. */
  datatype Input =
    | Connect
    | ConnectTask(succeeds: bool)
    | StartPolling
    | StopPolling
    | Disconnect
    | TimerFires(timer: Timer)
    | PollerCheck
    | PollerWrite(written: WriteOutcome)
    | ReceiverCheck(receiver: nat)
    | ReadReturns(receiver: nat, read: ReadOutcome)

  /** A freshly constructed client. */
  function Initial<V>(): ClientState<V>
  {
    ClientState(false, false, false, false, multiset{}, NoSocket, 0, 0, 0, [], [], [])
  }

  /** `connect()`: reset the handshake flags and submit the connect task. */
  function AfterConnect<V>(s: ClientState<V>): ClientState<V>
  {
    s.(connectedReceived := false, timeoutOccurred := false, pendingConnects := s.pendingConnects + 1)
  }

  /** The connect task when the socket opens: report, arm the timeout, start a receive loop. */
  function AfterSocketOpened<V>(s: ClientState<V>): ClientState<V>
    requires s.pendingConnects > 0
  {
    s.(pendingConnects := s.pendingConnects - 1,
       socket := Open,
       isConnected := true,
       events := s.events + [ConnectionStatusChanged(true)],
       timers := s.timers + multiset{ConnectionTimeout},
       receivers := s.receivers + [Receiver([], false)])
  }

  /** The connect task when opening the socket throws: report the error, then disconnect. */
  function AfterSocketFailed<V>(s: ClientState<V>): ClientState<V>
    requires s.pendingConnects > 0
  {
    AfterDisconnect(s.(pendingConnects := s.pendingConnects - 1, events := s.events + [Error(ConnectFailed)]))
  }

  /** `stopPolling()`: only a call that actually clears the flag reports it. */
  function AfterStopPolling<V>(s: ClientState<V>): ClientState<V>
  {
    if s.isPolling then s.(isPolling := false, events := s.events + [PollingStatusChanged(false)]) else s
  }

  /**
    `disconnect()`: stop polling, drop the connection, remove every posted
    callback, close the socket if there is one, and report, on every call.
  */
  function AfterDisconnect<V>(s: ClientState<V>): ClientState<V>
  {
    var t := AfterStopPolling(s);
    t.(isConnected := false,
       timers := multiset{},
       socket := if t.socket == NoSocket then NoSocket else Closed,
       events := t.events + [ConnectionStatusChanged(false)])
  }

  /**
    `handleConnectedMessage()`: the first time only, note the handshake,
    remove every posted callback (the connection timeout among them) and
    post the delayed poll start.
  */
  function AfterHandshake<V>(s: ClientState<V>): ClientState<V>
  {
    if s.connectedReceived then s
    else s.(connectedReceived := true, timers := multiset{DelayedPollStart})
  }

  /**
    `startPolling()`: an error when not connected, nothing when already
    polling, otherwise set the flag, report it and start a polling loop.
  */
  function AfterStartPolling<V>(s: ClientState<V>): ClientState<V>
  {
    if !s.isConnected then s.(events := s.events + [Error(NotConnected)])
    else if s.isPolling then s
    else s.(isPolling := true, events := s.events + [PollingStatusChanged(true)], pollersAtCheck := s.pollersAtCheck + 1)
  }

  /** A posted callback runs; each acts only under its own condition. */
  function AfterTimerFires<V>(s: ClientState<V>, t: Timer): ClientState<V>
    requires t in s.timers
  {
    var u := s.(timers := s.timers - multiset{t});
    match t
    case ConnectionTimeout =>
      if !u.connectedReceived && u.isConnected
      then AfterDisconnect(u.(timeoutOccurred := true, events := u.events + [ConnectionTimedOut]))
      else u
    case DelayedPollStart =>
      if u.isConnected && !u.timeoutOccurred then AfterStartPolling(u) else u
  }

  /** A polling loop tests `isPolling && isConnected`: continue to the write, or leave. */
  function AfterPollerCheck<V>(s: ClientState<V>): ClientState<V>
    requires s.pollersAtCheck > 0
  {
    var u := s.(pollersAtCheck := s.pollersAtCheck - 1);
    if s.isPolling && s.isConnected then u.(pollersAtWrite := u.pollersAtWrite + 1) else u
  }

  /**
    A polling loop writes the request frame and sleeps: it goes round
    again, or on a write error reports it, stops polling and disconnects,
    or leaves when its sleep is interrupted.
  */
  function AfterPollerWrite<V>(s: ClientState<V>, o: WriteOutcome): ClientState<V>
    requires s.pollersAtWrite > 0
  {
    var u := s.(pollersAtWrite := s.pollersAtWrite - 1);
    match o
    case Sent => u.(sent := u.sent + [REQUEST_ALL_FRAME], pollersAtCheck := u.pollersAtCheck + 1)
    case SendFailed => AfterDisconnect(AfterStopPolling(u.(events := u.events + [Error(PollSendFailed)])))
    case Interrupted => u.(sent := u.sent + [REQUEST_ALL_FRAME])
  }

  /** A receive loop tests `isConnected && socket != null && !socket.isClosed()`. */
  function AfterReceiverCheck<V>(s: ClientState<V>, i: nat): ClientState<V>
    requires i < |s.receivers|
  {
    if s.isConnected && s.socket == Open
    then s.(receivers := s.receivers[i := s.receivers[i].(reading := true)])
    else ReceiverExits(s, i)
  }

  /** A receive loop leaves: it stops polling and disconnects, and no longer runs. */
  function ReceiverExits<V>(s: ClientState<V>, i: nat): ClientState<V>
    requires i < |s.receivers|
  {
    var t := AfterDisconnect(AfterStopPolling(s));
    t.(receivers := s.receivers[..i] + s.receivers[i + 1..])
  }

  /** The `onAllDataReceived` calls for the readings, in order. */
  function Emitted<V>(readings: seq<seq<V>>): (r: seq<Event<V>>)
    ensures |r| == |readings|
    ensures forall k :: 0 <= k < |r| ==> r[k] == AllDataReceived(readings[k])
  {
    if readings == [] then [] else [AllDataReceived(readings[0])] + Emitted(readings[1..])
  }

  /**
    `processReceivedBuffer` on receive loop `i`'s buffer: the handshake
    token notifies the handshake, and the buffer keeps what processing
    leaves while each reading is reported.
  */
  function AfterProcessReceived<V>(s: ClientState<V>, i: nat, parse: string -> Option<V>): ClientState<V>
    requires i < |s.receivers|
  {
    var data := s.receivers[i].buffer;
    var t := if Contains(data, HANDSHAKE_TOKEN) then AfterHandshake(s) else s;
    var p := ProcessBuffer(data, parse);
    t.(receivers := t.receivers[i := Receiver(p.rest, false)], events := t.events + Emitted(p.readings))
  }

  /**
    A blocked read of receive loop `i` returns: text is appended and
    processed (an empty read does nothing), the end of the stream makes
    the loop leave, and an I/O error is reported if still connected
    before the loop leaves.
  */
  function AfterReadReturns<V>(s: ClientState<V>, i: nat, o: ReadOutcome, parse: string -> Option<V>): ClientState<V>
    requires i < |s.receivers|
  {
    match o
    case Chunk(text) =>
      var r := s.receivers[i];
      if text == [] then s.(receivers := s.receivers[i := r.(reading := false)])
      else AfterProcessReceived(s.(receivers := s.receivers[i := Receiver(r.buffer + text, false)]), i, parse)
    case EndOfStream => ReceiverExits(s, i)
    case ReadFailed =>
      ReceiverExits(if s.isConnected then s.(events := s.events + [Error(ReceiveFailed)]) else s, i)
  }

  /** `isConnected()`: the flag, and a socket that exists and is not closed. */
  predicate ReportsConnected<V>(s: ClientState<V>)
  {
    s.isConnected && s.socket == Open
  }

  /** The input can run now: there is a task, loop or callback waiting to do it. */
  predicate Enabled<V>(s: ClientState<V>, input: Input)
  {
    match input
    case ConnectTask(_) => s.pendingConnects > 0
    case TimerFires(t) => t in s.timers
    case PollerCheck => s.pollersAtCheck > 0
    case PollerWrite(_) => s.pollersAtWrite > 0
    case ReceiverCheck(i) => i < |s.receivers| && !s.receivers[i].reading
    case ReadReturns(i, _) => i < |s.receivers| && s.receivers[i].reading
    case _ => true
  }

  /** One input applied to a state, or `None` when nothing is waiting to do it. */
  function Step<V>(s: ClientState<V>, input: Input, parse: string -> Option<V>): (r: Option<ClientState<V>>)
    ensures r.Some? <==> Enabled(s, input)
  {
    if !Enabled(s, input) then None
    else
      Some(match input
        case Connect => AfterConnect(s)
        case ConnectTask(succeeds) => if succeeds then AfterSocketOpened(s) else AfterSocketFailed(s)
        case StartPolling => AfterStartPolling(s)
        case StopPolling => AfterStopPolling(s)
        case Disconnect => AfterDisconnect(s)
        case TimerFires(t) => AfterTimerFires(s, t)
        case PollerCheck => AfterPollerCheck(s)
        case PollerWrite(o) => AfterPollerWrite(s, o)
        case ReceiverCheck(i) => AfterReceiverCheck(s, i)
        case ReadReturns(i, o) => AfterReadReturns(s, i, o, parse))
  }

  /** A sequence of inputs applied in turn, or `None` if one of them cannot run. */
  function Run<V>(s: ClientState<V>, inputs: seq<Input>, parse: string -> Option<V>): Option<ClientState<V>>
    decreases |inputs|
  {
    if inputs == [] then Some(s)
    else
      match Step(s, inputs[0], parse)
      case None => None
      case Some(t) => Run(t, inputs[1..], parse)
  }

  /** The `onPollingStatusChanged` arguments in the event log, in order. */
  function PollingStatuses<V>(events: seq<Event<V>>): seq<bool>
  {
    if events == [] then []
    else (if events[0].PollingStatusChanged? then [events[0].polling] else []) + PollingStatuses(events[1..])
  }

  /** Polling reports alternate, starting with `true`. */
  predicate Alternates(bs: seq<bool>)
  {
    forall k :: 0 <= k < |bs| ==> bs[k] == (k % 2 == 0)
  }

  /** Polling only while connected, connected only with an open socket, at most one delayed poll start posted. */
  predicate FlagsAgree<V>(s: ClientState<V>)
  {
    (s.isPolling ==> s.isConnected) &&
    (s.isConnected ==> s.socket == Open) &&
    s.timers[DelayedPollStart] <= 1
  }

  /** Only the request frame is ever written. */
  predicate OnlyRequests(sent: seq<seq<byte>>)
  {
    forall k :: 0 <= k < |sent| ==> sent[k] == REQUEST_ALL_FRAME
  }

  /** Every reading reported has six values. */
  predicate ReadingsWellFormed<V>(events: seq<Event<V>>)
  {
    forall k :: 0 <= k < |events| && events[k].AllDataReceived? ==> |events[k].values| == FIELD_COUNT
  }

  /** The polling reports alternate, starting with `true`, and the last one is the current flag. */
  predicate PollingLogAgrees<V>(events: seq<Event<V>>, polling: bool)
  {
    Alternates(PollingStatuses(events)) && (polling <==> |PollingStatuses(events)| % 2 == 1)
  }

  /** What holds in every reachable state. */
  predicate Invariant<V>(s: ClientState<V>)
  {
    FlagsAgree(s) && OnlyRequests(s.sent) && ReadingsWellFormed(s.events) && PollingLogAgrees(s.events, s.isPolling)
  }
}
