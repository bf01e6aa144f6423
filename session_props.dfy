/**
  What the client's state machine guarantees: the invariant every
  transition keeps, the guards of the public operations and delayed
  callbacks, and how the receive loop treats a message split over reads.
*/
module SessionProperties {
  import opened Wrappers
  import opened JavaText
  import opened FrameCodec
  import opened SessionSpec

  // ---------------------------------------------------------------
  // The polling-status log
  // ---------------------------------------------------------------

  lemma {:induction false} PollingStatusesAppend<V>(a: seq<Event<V>>, b: seq<Event<V>>)
    ensures PollingStatuses(a + b) == PollingStatuses(a) + PollingStatuses(b)
    decreases |a|
  {
    if a == [] {
      assert a + b == b;
    } else {
      assert (a + b)[0] == a[0];
      assert (a + b)[1..] == a[1..] + b;
      PollingStatusesAppend(a[1..], b);
    }
  }

  lemma {:induction false} EmittedIsQuiet<V>(readings: seq<seq<V>>)
    ensures PollingStatuses(Emitted(readings)) == []
    decreases |readings|
  {
    if readings != [] {
      var e := Emitted(readings);
      assert e[1..] == Emitted(readings[1..]);
      EmittedIsQuiet(readings[1..]);
    }
  }

  /** Appending events that are not polling reports keeps the polling log. */
  lemma {:induction false} QuietAppend<V>(events: seq<Event<V>>, extra: seq<Event<V>>, polling: bool)
    requires PollingStatuses(extra) == []
    requires PollingLogAgrees(events, polling)
    ensures PollingLogAgrees(events + extra, polling)
  {
    PollingStatusesAppend(events, extra);
    assert PollingStatuses(events + extra) == PollingStatuses(events);
  }

  lemma {:induction false} QuietEvent<V>(events: seq<Event<V>>, e: Event<V>, polling: bool)
    requires !e.PollingStatusChanged?
    requires PollingLogAgrees(events, polling)
    ensures PollingLogAgrees(events + [e], polling)
  {
    assert [e][1..] == [];
    assert PollingStatuses([e]) == [];
    QuietAppend(events, [e], polling);
  }

  /** Reporting the opposite of the current polling flag keeps the log alternating. */
  lemma {:induction false} ToggleEvent<V>(events: seq<Event<V>>, polling: bool)
    requires PollingLogAgrees(events, polling)
    ensures PollingLogAgrees(events + [PollingStatusChanged(!polling)], !polling)
  {
    var e: Event<V> := PollingStatusChanged(!polling);
    assert [e][1..] == [];
    assert PollingStatuses([e]) == [!polling];
    PollingStatusesAppend(events, [e]);
    var ps := PollingStatuses(events);
    assert PollingStatuses(events + [e]) == ps + [!polling];
    forall k | 0 <= k < |ps + [!polling]|
      ensures (ps + [!polling])[k] == (k % 2 == 0)
    {
      if k < |ps| {
        assert (ps + [!polling])[k] == ps[k];
      }
    }
  }

  lemma {:induction false} ReadingsAppend6<V>(events: seq<Event<V>>, extra: seq<Event<V>>)
    requires ReadingsWellFormed(events) && ReadingsWellFormed(extra)
    ensures ReadingsWellFormed(events + extra)
  {
    forall k | 0 <= k < |events + extra| && (events + extra)[k].AllDataReceived?
      ensures |(events + extra)[k].values| == FIELD_COUNT
    {
      if k < |events| {
        assert (events + extra)[k] == events[k];
      } else {
        assert (events + extra)[k] == extra[k - |events|];
      }
    }
  }

  lemma {:induction false} OneEvent<V>(events: seq<Event<V>>, e: Event<V>, polling: bool)
    requires !e.PollingStatusChanged? && !e.AllDataReceived?
    requires ReadingsWellFormed(events) && PollingLogAgrees(events, polling)
    ensures ReadingsWellFormed(events + [e]) && PollingLogAgrees(events + [e], polling)
  {
    ReadingsAppend6(events, [e]);
    QuietEvent(events, e, polling);
  }

  // ---------------------------------------------------------------
  // The invariant, transition by transition
  // ---------------------------------------------------------------

  lemma {:induction false} StopPollingKeeps<V>(s: ClientState<V>)
    requires Invariant(s)
    ensures Invariant(AfterStopPolling(s)) && !AfterStopPolling(s).isPolling
  {
    if s.isPolling {
      var e: Event<V> := PollingStatusChanged(false);
      ReadingsAppend6(s.events, [e]);
      ToggleEvent(s.events, true);
    }
  }

  lemma {:induction false} DisconnectKeeps<V>(s: ClientState<V>)
    requires Invariant(s)
    ensures Invariant(AfterDisconnect(s))
  {
    StopPollingKeeps(s);
    var t := AfterStopPolling(s);
    OneEvent(t.events, ConnectionStatusChanged(false), false);
  }

  lemma {:induction false} ErrorKeeps<V>(s: ClientState<V>, kind: ErrorKind)
    requires Invariant(s)
    ensures Invariant(s.(events := s.events + [Error(kind)]))
  {
    OneEvent(s.events, Error(kind), s.isPolling);
  }

  lemma {:induction false} SocketOpenedKeeps<V>(s: ClientState<V>)
    requires Invariant(s) && s.pendingConnects > 0
    ensures Invariant(AfterSocketOpened(s))
  {
    OneEvent(s.events, ConnectionStatusChanged(true), s.isPolling);
    assert (s.timers + multiset{ConnectionTimeout})[DelayedPollStart] == s.timers[DelayedPollStart];
  }

  lemma {:induction false} SocketFailedKeeps<V>(s: ClientState<V>)
    requires Invariant(s) && s.pendingConnects > 0
    ensures Invariant(AfterSocketFailed(s))
  {
    ErrorKeeps(s.(pendingConnects := s.pendingConnects - 1), ConnectFailed);
    DisconnectKeeps(s.(pendingConnects := s.pendingConnects - 1, events := s.events + [Error(ConnectFailed)]));
  }

  lemma {:induction false} StartPollingKeeps<V>(s: ClientState<V>)
    requires Invariant(s)
    ensures Invariant(AfterStartPolling(s))
  {
    if !s.isConnected {
      ErrorKeeps(s, NotConnected);
    } else if !s.isPolling {
      var e: Event<V> := PollingStatusChanged(true);
      ReadingsAppend6(s.events, [e]);
      ToggleEvent(s.events, false);
    }
  }

  lemma {:induction false} TimerFiresKeeps<V>(s: ClientState<V>, t: Timer)
    requires Invariant(s) && t in s.timers
    ensures Invariant(AfterTimerFires(s, t))
  {
    var u := s.(timers := s.timers - multiset{t});
    assert u.timers[DelayedPollStart] <= s.timers[DelayedPollStart];
    assert Invariant(u);
    match t
    case ConnectionTimeout =>
      if !u.connectedReceived && u.isConnected {
        OneEvent(u.events, ConnectionTimedOut, u.isPolling);
        DisconnectKeeps(u.(timeoutOccurred := true, events := u.events + [ConnectionTimedOut]));
      }
    case DelayedPollStart =>
      if u.isConnected && !u.timeoutOccurred {
        StartPollingKeeps(u);
      }
  }

  lemma {:induction false} PollerWriteKeeps<V>(s: ClientState<V>, o: WriteOutcome)
    requires Invariant(s) && s.pollersAtWrite > 0
    ensures Invariant(AfterPollerWrite(s, o))
  {
    var u := s.(pollersAtWrite := s.pollersAtWrite - 1);
    match o
    case Sent =>
      assert OnlyRequests(u.sent + [REQUEST_ALL_FRAME]);
    case SendFailed =>
      ErrorKeeps(u, PollSendFailed);
      var v := u.(events := u.events + [Error(PollSendFailed)]);
      StopPollingKeeps(v);
      DisconnectKeeps(AfterStopPolling(v));
    case Interrupted =>
      assert OnlyRequests(u.sent + [REQUEST_ALL_FRAME]);
  }

  lemma {:induction false} ReceiverExitsKeeps<V>(s: ClientState<V>, i: nat)
    requires Invariant(s) && i < |s.receivers|
    ensures Invariant(ReceiverExits(s, i))
  {
    StopPollingKeeps(s);
    DisconnectKeeps(AfterStopPolling(s));
  }

  lemma {:induction false} HandshakeKeeps<V>(s: ClientState<V>)
    requires Invariant(s)
    ensures Invariant(AfterHandshake(s))
  {
    if !s.connectedReceived {
      assert multiset{DelayedPollStart}[DelayedPollStart] == 1;
    }
  }

  lemma {:induction false} ProcessReceivedKeeps<V>(s: ClientState<V>, i: nat, parse: string -> Option<V>)
    requires Invariant(s) && i < |s.receivers|
    ensures Invariant(AfterProcessReceived(s, i, parse))
  {
    var data := s.receivers[i].buffer;
    var t := if Contains(data, HANDSHAKE_TOKEN) then AfterHandshake(s) else s;
    HandshakeKeeps(s);
    assert Invariant(t);
    var p := ProcessBuffer(data, parse);
    ProcessBufferShape(data, parse);
    var extra := Emitted(p.readings);
    EmittedIsQuiet(p.readings);
    QuietAppend(t.events, extra, t.isPolling);
    assert ReadingsWellFormed(extra);
    ReadingsAppend6(t.events, extra);
  }

  lemma {:induction false} ReadReturnsKeeps<V>(s: ClientState<V>, i: nat, o: ReadOutcome, parse: string -> Option<V>)
    requires Invariant(s) && i < |s.receivers|
    ensures Invariant(AfterReadReturns(s, i, o, parse))
  {
    match o
    case Chunk(text) =>
      if text != [] {
        var r := s.receivers[i];
        ProcessReceivedKeeps(s.(receivers := s.receivers[i := Receiver(r.buffer + text, false)]), i, parse);
      }
    case EndOfStream =>
      ReceiverExitsKeeps(s, i);
    case ReadFailed =>
      if s.isConnected {
        ErrorKeeps(s, ReceiveFailed);
      }
      ReceiverExitsKeeps(if s.isConnected then s.(events := s.events + [Error(ReceiveFailed)]) else s, i);
  }

  /** Every transition keeps the invariant. */
  lemma {:induction false} StepPreservesInvariant<V>(s: ClientState<V>, input: Input, parse: string -> Option<V>)
    requires Invariant(s)
    ensures Step(s, input, parse).Some? ==> Invariant(Step(s, input, parse).value)
  {
    if Enabled(s, input) {
      match input
      case Connect =>
      case ConnectTask(succeeds) =>
        if succeeds { SocketOpenedKeeps(s); } else { SocketFailedKeeps(s); }
      case StartPolling => StartPollingKeeps(s);
      case StopPolling => StopPollingKeeps(s);
      case Disconnect => DisconnectKeeps(s);
      case TimerFires(t) => TimerFiresKeeps(s, t);
      case PollerCheck =>
      case PollerWrite(o) => PollerWriteKeeps(s, o);
      case ReceiverCheck(i) =>
        if !(s.isConnected && s.socket == Open) { ReceiverExitsKeeps(s, i); }
      case ReadReturns(i, o) => ReadReturnsKeeps(s, i, o, parse);
    }
  }

  lemma {:induction false} InitialInvariant<V>()
    ensures Invariant(Initial<V>())
  {
    assert PollingStatuses(Initial<V>().events) == [];
  }

  /**
    In every state reachable from a fresh client: polling only while
    connected, connected only over an open socket, only request frames
    written, every reading six values, and polling reports alternating
    `true`, `false`, ... with the last one equal to the polling flag.
  */
  lemma {:induction false} RunPreservesInvariant<V>(s: ClientState<V>, inputs: seq<Input>, parse: string -> Option<V>)
    requires Invariant(s)
    ensures Run(s, inputs, parse).Some? ==> Invariant(Run(s, inputs, parse).value)
    decreases |inputs|
  {
    if inputs != [] {
      StepPreservesInvariant(s, inputs[0], parse);
      var t := Step(s, inputs[0], parse);
      if t.Some? {
        RunPreservesInvariant(t.value, inputs[1..], parse);
      }
    }
  }

  lemma {:induction false} ReachableInvariant<V>(inputs: seq<Input>, parse: string -> Option<V>)
    ensures Run(Initial<V>(), inputs, parse).Some? ==> Invariant(Run(Initial<V>(), inputs, parse).value)
  {
    InitialInvariant<V>();
    RunPreservesInvariant(Initial<V>(), inputs, parse);
  }

  /**
    In every reachable state the `isConnected()` query agrees with the
    flag, and it reports a connection whenever polling is on.
  */
  lemma {:induction false} ConnectedQueryAgrees<V>(inputs: seq<Input>, parse: string -> Option<V>)
    requires Run(Initial<V>(), inputs, parse).Some?
    ensures var s := Run(Initial<V>(), inputs, parse).value;
      (ReportsConnected(s) <==> s.isConnected) && (s.isPolling ==> ReportsConnected(s))
  {
    ReachableInvariant(inputs, parse);
  }

  // ---------------------------------------------------------------
  // Guards of the public operations and of the delayed callbacks
  // ---------------------------------------------------------------

  /** `connect()` clears both handshake flags and queues exactly one connect task. */
  lemma {:induction false} ConnectResetsFlags<V>(s: ClientState<V>)
    ensures var t := AfterConnect(s);
      !t.connectedReceived && !t.timeoutOccurred &&
      t.pendingConnects == s.pendingConnects + 1 &&
      t.(connectedReceived := s.connectedReceived, timeoutOccurred := s.timeoutOccurred, pendingConnects := s.pendingConnects) == s
  {
  }

  /**
    `stopPolling()` reports `false` exactly when it clears the flag, and a
    second call changes nothing.
  */
  lemma {:induction false} StopPollingReportsOnlyChange<V>(s: ClientState<V>)
    ensures var t := AfterStopPolling(s);
      !t.isPolling &&
      t.events == s.events + (if s.isPolling then [PollingStatusChanged(false)] else []) &&
      t.(isPolling := s.isPolling, events := s.events) == s &&
      AfterStopPolling(t) == t
  {
  }

  /**
    `startPolling()` while disconnected reports an error and changes
    nothing else; while already polling it does nothing; otherwise it sets
    the flag, reports `true` once and starts one polling loop. So calling
    it twice while connected is the same as calling it once.
  */
  lemma {:induction false} StartPollingGuards<V>(s: ClientState<V>)
    ensures !s.isConnected ==> AfterStartPolling(s) == s.(events := s.events + [Error(NotConnected)])
    ensures s.isConnected && s.isPolling ==> AfterStartPolling(s) == s
    ensures s.isConnected && !s.isPolling ==>
      AfterStartPolling(s) == s.(isPolling := true, events := s.events + [PollingStatusChanged(true)], pollersAtCheck := s.pollersAtCheck + 1)
    ensures s.isConnected ==> AfterStartPolling(AfterStartPolling(s)) == AfterStartPolling(s)
  {
  }

  /**
    `disconnect()` reports `false` on every call: disconnecting twice
    reports it twice, and the second call changes nothing else.
  */
  lemma {:induction false} DisconnectReportsEveryCall<V>(s: ClientState<V>)
    ensures var t := AfterDisconnect(s);
      !t.isConnected && !t.isPolling && t.timers == multiset{} &&
      AfterDisconnect(t) == t.(events := t.events + [ConnectionStatusChanged(false)])
  {
  }

  /** The connection timeout acts only when no `connected` arrived and the client is still connected. */
  lemma {:induction false} TimeoutGuard<V>(s: ClientState<V>)
    requires ConnectionTimeout in s.timers
    ensures var u := s.(timers := s.timers - multiset{ConnectionTimeout});
      var t := AfterTimerFires(s, ConnectionTimeout);
      if !s.connectedReceived && s.isConnected then
        t.timeoutOccurred && !t.isConnected && t.timers == multiset{} &&
        t.events == u.events + [ConnectionTimedOut] + (if u.isPolling then [PollingStatusChanged(false)] else []) + [ConnectionStatusChanged(false)]
      else t == u
  {
  }

  /** The delayed poll start acts only while connected and when the timeout has not fired. */
  lemma {:induction false} DelayedPollStartGuard<V>(s: ClientState<V>)
    requires DelayedPollStart in s.timers
    ensures var u := s.(timers := s.timers - multiset{DelayedPollStart});
      AfterTimerFires(s, DelayedPollStart) == if s.isConnected && !s.timeoutOccurred then AfterStartPolling(u) else u
  {
  }

  /** `handleConnectedMessage()` acts once: a second handshake changes nothing. */
  lemma {:induction false} HandshakeActsOnce<V>(s: ClientState<V>)
    ensures AfterHandshake(AfterHandshake(s)) == AfterHandshake(s)
    ensures AfterHandshake(s).connectedReceived
    ensures !s.connectedReceived ==> AfterHandshake(s).timers == multiset{DelayedPollStart}
    ensures s.connectedReceived ==> AfterHandshake(s) == s
  {
  }

  /**
    A read that brings the `connected` token to a client still waiting for
    it cancels the connection timeout: afterwards the timeout can no longer
    fire, and the delayed poll start is the one callback posted.
  */
  lemma {:induction false} HandshakeCancelsTimeout<V>(s: ClientState<V>, i: nat, text: string, parse: string -> Option<V>)
    requires i < |s.receivers| && s.receivers[i].reading
    requires !s.connectedReceived && text != []
    requires Contains(s.receivers[i].buffer + text, HANDSHAKE_TOKEN)
    ensures var t := Step(s, ReadReturns(i, Chunk(text)), parse);
      t.Some? && t.value.connectedReceived && t.value.timers == multiset{DelayedPollStart} &&
      Step(t.value, TimerFires(ConnectionTimeout), parse) == None
  {
    var r := s.receivers[i];
    var s1 := s.(receivers := s.receivers[i := Receiver(r.buffer + text, false)]);
    assert s1.receivers[i].buffer == r.buffer + text;
    var t := AfterProcessReceived(s1, i, parse);
    assert t.timers == multiset{DelayedPollStart};
    assert ConnectionTimeout !in t.timers;
  }

  // ---------------------------------------------------------------
  // Messages split over reads
  // ---------------------------------------------------------------

  lemma {:induction false} EmittedAppend<V>(a: seq<seq<V>>, b: seq<seq<V>>)
    ensures Emitted(a) + Emitted(b) == Emitted(a + b)
  {
    assert |Emitted(a) + Emitted(b)| == |Emitted(a + b)|;
    forall k | 0 <= k < |Emitted(a + b)|
      ensures (Emitted(a) + Emitted(b))[k] == Emitted(a + b)[k]
    {
      if k < |a| {
        assert (a + b)[k] == a[k];
      } else {
        assert (a + b)[k] == b[k - |a|];
      }
    }
  }

  /** Text that has no token in it cannot gain one by losing a prefix. */
  lemma {:induction false} NoTokenInSuffix(t: string, x: string, b: string)
    requires IsSuffix(t, x) && !Contains(x + b, HANDSHAKE_TOKEN)
    ensures !Contains(t + b, HANDSHAKE_TOKEN)
  {
    var p := x[..|x| - |t|];
    assert x + b == p + (t + b);
    if Contains(t + b, HANDSHAKE_TOKEN) {
      ContainsFromSuffix(p, t + b, HANDSHAKE_TOKEN);
    }
  }

  lemma {:induction false} UpdateTwice<T>(xs: seq<T>, i: nat, a: T, b: T)
    requires i < |xs|
    ensures xs[i := a][i := b] == xs[i := b]
  {
  }

  lemma {:induction false} AppendTwice<T>(xs: seq<T>, a: seq<T>, b: seq<T>)
    ensures xs + a + b == xs + (a + b)
  {
  }

  /**
    A non-empty read once the handshake is done, or bringing no token: the
    buffer is processed and its readings reported, nothing else changes.
  */
  lemma {:induction false} TokenFreeRead<V>(s: ClientState<V>, i: nat, text: string, p: Processed<V>, parse: string -> Option<V>)
    requires i < |s.receivers| && text != []
    requires s.connectedReceived || !Contains(s.receivers[i].buffer + text, HANDSHAKE_TOKEN)
    requires p == ProcessBuffer(s.receivers[i].buffer + text, parse)
    ensures AfterReadReturns(s, i, Chunk(text), parse) ==
      s.(receivers := s.receivers[i := Receiver(p.rest, false)], events := s.events + Emitted(p.readings))
  {
    var r := s.receivers[i];
    var s1 := s.(receivers := s.receivers[i := Receiver(r.buffer + text, false)]);
    assert s1.receivers[i].buffer == r.buffer + text;
    assert s1.receivers[i := Receiver(p.rest, false)] == s.receivers[i := Receiver(p.rest, false)];
  }

  /**
    The receive loop does not depend on how the stream is cut into reads
    when `connected` appears nowhere in the buffer or in either read: a
    read of `a`, the loop test and a read of `b` leave the same buffer and
    report the same readings, in the same order, as one read of `a + b`.
    The condition is needed, because every read checks for the token
    again and deletes through it: reading a complete frame and then
    `connected` reports the frame, while reading both at once deletes it.
  */
  lemma {:induction false} ReadsInChunks<V>(s: ClientState<V>, i: nat, a: string, b: string, parse: string -> Option<V>)
    requires i < |s.receivers| && s.receivers[i].reading
    requires s.isConnected && s.socket == Open
    requires a != [] && b != []
    requires !Contains(s.receivers[i].buffer + a + b, HANDSHAKE_TOKEN)
    ensures var s1 := AfterReadReturns(s, i, Chunk(a), parse);
      i < |s1.receivers| &&
      var s2 := AfterReceiverCheck(s1, i);
      i < |s2.receivers| &&
      AfterReadReturns(s2, i, Chunk(b), parse) == AfterReadReturns(s, i, Chunk(a + b), parse)
  {
    var buf := s.receivers[i].buffer;
    var p1 := ProcessBuffer(buf + a, parse);
    var p2 := ProcessBuffer(p1.rest + b, parse);
    var p := ProcessBuffer(buf + (a + b), parse);
    ProcessedSuffix(buf + a, p1, parse);
    ChunkedTokenFree(buf, a, b, p1.rest);
    ProcessedInChunks(buf + a, b, buf + (a + b), p1, p2, p, parse);
    var s2 := FirstReadThenTest(s, i, a, p1, parse);
    assert s2.receivers[i].buffer == p1.rest;
    TokenFreeRead(s2, i, b, p2, parse);
    TokenFreeRead(s, i, a + b, p, parse);
    ChunkedStates(s, i, s2, p1, p2, p);
  }

  /** The states of `ReadsInChunks`: two reads and one read end in the same state. */
  lemma {:induction false} ChunkedStates<V>(s: ClientState<V>, i: nat, s2: ClientState<V>, p1: Processed<V>,
                                            p2: Processed<V>, p: Processed<V>)
    requires i < |s.receivers|
    requires s2 == s.(receivers := s.receivers[i := Receiver(p1.rest, true)], events := s.events + Emitted(p1.readings))
    requires p2.rest == p.rest && p1.readings + p2.readings == p.readings
    ensures s2.(receivers := s2.receivers[i := Receiver(p2.rest, false)], events := s2.events + Emitted(p2.readings)) ==
            s.(receivers := s.receivers[i := Receiver(p.rest, false)], events := s.events + Emitted(p.readings))
  {
    UpdateTwice(s.receivers, i, Receiver(p1.rest, true), Receiver(p.rest, false));
    AppendTwice(s.events, Emitted(p1.readings), Emitted(p2.readings));
    EmittedAppend(p1.readings, p2.readings);
  }

  /** The first read of `ReadsInChunks` and the loop test after it. */
  lemma {:induction false} FirstReadThenTest<V>(s: ClientState<V>, i: nat, a: string, p1: Processed<V>, parse: string -> Option<V>)
      returns (s2: ClientState<V>)
    requires i < |s.receivers| && s.isConnected && s.socket == Open && a != []
    requires !Contains(s.receivers[i].buffer + a, HANDSHAKE_TOKEN)
    requires p1 == ProcessBuffer(s.receivers[i].buffer + a, parse)
    ensures s2 == s.(receivers := s.receivers[i := Receiver(p1.rest, true)], events := s.events + Emitted(p1.readings))
    ensures var s1 := AfterReadReturns(s, i, Chunk(a), parse);
      i < |s1.receivers| && AfterReceiverCheck(s1, i) == s2
  {
    TokenFreeRead(s, i, a, p1, parse);
    var s1 := s.(receivers := s.receivers[i := Receiver(p1.rest, false)], events := s.events + Emitted(p1.readings));
    s2 := s.(receivers := s.receivers[i := Receiver(p1.rest, true)], events := s.events + Emitted(p1.readings));
    assert s1.receivers[i := s1.receivers[i].(reading := true)] == s2.receivers;
  }

  /** What processing leaves is a suffix of the buffer, with the result given by name. */
  lemma {:induction false} ProcessedSuffix<V>(data: string, p: Processed<V>, parse: string -> Option<V>)
    requires p == ProcessBuffer(data, parse)
    ensures IsSuffix(p.rest, data)
  {
    ProcessBufferShape(data, parse);
  }

  /** `ProcessBufferChunked` with its four buffers given by name. */
  lemma {:induction false} ProcessedInChunks<V>(x: string, b: string, xb: string, p1: Processed<V>, p2: Processed<V>,
                                                p: Processed<V>, parse: string -> Option<V>)
    requires !Contains(xb, HANDSHAKE_TOKEN) && xb == x + b
    requires p1 == ProcessBuffer(x, parse) && p2 == ProcessBuffer(p1.rest + b, parse) && p == ProcessBuffer(xb, parse)
    ensures p2.rest == p.rest && p1.readings + p2.readings == p.readings
  {
    ProcessBufferChunked(x, b, parse);
  }

  /** With no token in `buf + a + b`, none in its parts or in a suffix of `buf + a` followed by `b`. */
  lemma {:induction false} ChunkedTokenFree(buf: string, a: string, b: string, rest: string)
    requires !Contains(buf + a + b, HANDSHAKE_TOKEN) && IsSuffix(rest, buf + a)
    ensures buf + (a + b) == buf + a + b
    ensures !Contains(buf + a, HANDSHAKE_TOKEN) && !Contains(buf + (a + b), HANDSHAKE_TOKEN)
    ensures !Contains(rest + b, HANDSHAKE_TOKEN)
  {
    var x := buf + a;
    assert x + b == buf + (a + b);
    if Contains(x, HANDSHAKE_TOKEN) {
      ContainsFromPrefix(x, b, HANDSHAKE_TOKEN);
    }
    NoTokenInSuffix(rest, x, b);
  }

  // ---------------------------------------------------------------
  // Scenarios
  // ---------------------------------------------------------------

  lemma {:induction false} RunConcat<V>(s: ClientState<V>, a: seq<Input>, b: seq<Input>, parse: string -> Option<V>)
    requires Run(s, a, parse).Some?
    ensures Run(s, a + b, parse) == Run(Run(s, a, parse).value, b, parse)
    decreases |a|
  {
    if a == [] {
      assert a + b == b;
    } else {
      assert (a + b)[0] == a[0];
      assert (a + b)[1..] == a[1..] + b;
      RunConcat(Step(s, a[0], parse).value, a[1..], b, parse);
    }
  }

  lemma {:induction false} RunCons<V>(s: ClientState<V>, x: Input, rest: seq<Input>, parse: string -> Option<V>)
    requires Step(s, x, parse).Some?
    ensures Run(s, [x] + rest, parse) == Run(Step(s, x, parse).value, rest, parse)
  {
    assert ([x] + rest)[1..] == rest;
  }

  lemma {:induction false} RunThen<V>(s: ClientState<V>, a: seq<Input>, b: seq<Input>, t: ClientState<V>, u: ClientState<V>, parse: string -> Option<V>)
    requires Run(s, a, parse) == Some(t) && Run(t, b, parse) == Some(u)
    ensures Run(s, a + b, parse) == Some(u)
  {
    RunConcat(s, a, b, parse);
  }

  lemma {:induction false} RunTwo<V>(s: ClientState<V>, x: Input, y: Input, parse: string -> Option<V>)
    requires Step(s, x, parse).Some? && Step(Step(s, x, parse).value, y, parse).Some?
    ensures Run(s, [x, y], parse) == Step(Step(s, x, parse).value, y, parse)
  {
    var t := Step(s, x, parse).value;
    RunCons(t, y, [], parse);
    assert [y] + [] == [y];
    RunCons(s, x, [y], parse);
    assert [x] + [y] == [x, y];
  }

  /** The client after connecting, with its receive loop blocked in its first read. */
  function Connected<V>(): ClientState<V>
  {
    ClientState(true, false, false, false, multiset{ConnectionTimeout}, Open, 0, 0, 0,
      [Receiver([], true)], [ConnectionStatusChanged(true)], [])
  }

  lemma {:induction false} ConnectStage<V>(parse: string -> Option<V>)
    ensures Run(Initial<V>(), [Connect, ConnectTask(true), ReceiverCheck(0)], parse) == Some(Connected<V>())
  {
    var inputs := [Connect, ConnectTask(true), ReceiverCheck(0)];
    var s1 := AfterConnect(Initial<V>());
    var s2 := AfterSocketOpened(s1);
    assert s2.receivers == [Receiver([], false)];
    var s3 := AfterReceiverCheck(s2, 0);
    assert s3 == Connected<V>();
    assert inputs[1..][1..][1..] == [];
    assert Run(s3, [], parse) == Some(s3);
    assert Run(s2, inputs[1..][1..], parse) == Some(s3);
    assert Run(s1, inputs[1..], parse) == Some(s3);
  }

  lemma {:induction false} HandshakeStage<V>(parse: string -> Option<V>)
    ensures Step(Connected<V>(), ReadReturns(0, Chunk(HANDSHAKE_TOKEN)), parse) ==
      Some(Connected<V>().(connectedReceived := true, timers := multiset{DelayedPollStart}, receivers := [Receiver([], false)]))
  {
    var c := Connected<V>();
    assert [] + HANDSHAKE_TOKEN == HANDSHAKE_TOKEN;
    assert OccursAt(HANDSHAKE_TOKEN, HANDSHAKE_TOKEN, 0);
    ContainsMeaning(HANDSHAKE_TOKEN, HANDSHAKE_TOKEN);
    IndexOfMeaning(HANDSHAKE_TOKEN, HANDSHAKE_TOKEN, 0);
    assert AfterHandshakeToken(HANDSHAKE_TOKEN) == [];
    assert Locate([]) == NoFrame;
    assert ScanFrames([]) == Scan([], []);
    assert Readings<V>([], parse) == [];
    assert ProcessBuffer(HANDSHAKE_TOKEN, parse) == Processed([], []);
    var s1 := c.(receivers := [Receiver(HANDSHAKE_TOKEN, false)]);
    assert s1.receivers[0].buffer == HANDSHAKE_TOKEN;
    var t := AfterHandshake(s1);
    assert t == c.(connectedReceived := true, timers := multiset{DelayedPollStart}, receivers := [Receiver(HANDSHAKE_TOKEN, false)]);
    assert Emitted<V>([]) == [];
    assert t.events + [] == t.events;
    assert t.receivers[0 := Receiver([], false)] == [Receiver([], false)];
    var want := c.(connectedReceived := true, timers := multiset{DelayedPollStart}, receivers := [Receiver([], false)]);
    assert Contains(s1.receivers[0].buffer, HANDSHAKE_TOKEN);
    assert AfterProcessReceived(s1, 0, parse) == want;
    assert c.receivers[0 := Receiver(c.receivers[0].buffer + HANDSHAKE_TOKEN, false)] == s1.receivers;
    assert AfterReadReturns(c, 0, Chunk(HANDSHAKE_TOKEN), parse) == want;
  }

  /** Connected, not polling, and the delayed poll start the only callback posted. */
  predicate AwaitingPollStart<V>(s: ClientState<V>)
  {
    s.isConnected && !s.isPolling && !s.timeoutOccurred && s.timers == multiset{DelayedPollStart} &&
    s.pollersAtCheck == 0 && s.pollersAtWrite == 0
  }

  lemma {:induction false} PollStage<V>(s: ClientState<V>, parse: string -> Option<V>)
    requires AwaitingPollStart(s)
    ensures Run(s, [TimerFires(DelayedPollStart), PollerCheck, PollerWrite(Sent)], parse) ==
      Some(s.(timers := multiset{}, isPolling := true, events := s.events + [PollingStatusChanged(true)],
              pollersAtCheck := 1, sent := s.sent + [REQUEST_ALL_FRAME]))
  {
    var inputs := [TimerFires(DelayedPollStart), PollerCheck, PollerWrite(Sent)];
    assert multiset{DelayedPollStart} - multiset{DelayedPollStart} == multiset{};
    var s1 := AfterTimerFires(s, DelayedPollStart);
    var s2 := AfterPollerCheck(s1);
    var s3 := AfterPollerWrite(s2, Sent);
    assert inputs[1..][1..][1..] == [];
    assert Run(s3, [], parse) == Some(s3);
    assert Run(s2, inputs[1..][1..], parse) == Some(s3);
    assert Run(s1, inputs[1..], parse) == Some(s3);
  }

  lemma {:induction false} StepReadReturns<V>(s: ClientState<V>, i: nat, o: ReadOutcome, parse: string -> Option<V>)
    requires i < |s.receivers| && s.receivers[i].reading
    ensures Step(s, ReadReturns(i, o), parse) == Some(AfterReadReturns(s, i, o, parse))
  {
    assert Enabled(s, ReadReturns(i, o));
  }

  lemma {:induction false} FrameReadReturns<V>(s: ClientState<V>, frame: string, values: seq<V>, parse: string -> Option<V>)
    requires s.connectedReceived && s.receivers == [Receiver([], true)]
    requires frame != [] && ProcessBuffer(frame, parse) == Processed([], [values])
    ensures AfterReadReturns(s, 0, Chunk(frame), parse) ==
      s.(receivers := [Receiver([], false)], events := s.events + [AllDataReceived(values)])
  {
    var p := Processed([], [values]);
    assert s.receivers[0].buffer + frame == frame;
    TokenFreeRead(s, 0, frame, p, parse);
    OneFrameState(s, values);
  }

  lemma {:induction false} OneFrameState<V>(s: ClientState<V>, values: seq<V>)
    requires s.receivers == [Receiver([], true)]
    ensures s.(receivers := s.receivers[0 := Receiver([], false)], events := s.events + Emitted([values])) ==
      s.(receivers := [Receiver([], false)], events := s.events + [AllDataReceived(values)])
  {
    assert Emitted([values]) == [AllDataReceived(values)];
    assert s.receivers[0 := Receiver([], false)] == [Receiver([], false)];
  }

  lemma {:induction false} LoopTestStep<V>(s: ClientState<V>, parse: string -> Option<V>)
    requires s.isConnected && s.socket == Open && s.receivers == [Receiver([], false)]
    ensures Step(s, ReceiverCheck(0), parse) == Some(s.(receivers := [Receiver([], true)]))
  {
    assert s.receivers[0 := Receiver([], true)] == [Receiver([], true)];
  }

  /** The client polling after the handshake, its receive loop about to test its condition. */
  function Polling<V>(): ClientState<V>
  {
    ClientState(true, true, true, false, multiset{}, Open, 0, 1, 0,
      [Receiver([], false)], [ConnectionStatusChanged(true), PollingStatusChanged(true)], [REQUEST_ALL_FRAME])
  }

  /** The client once `connected` has arrived, before the delayed poll start runs. */
  function Handshaken<V>(): ClientState<V>
  {
    Connected<V>().(connectedReceived := true, timers := multiset{DelayedPollStart}, receivers := [Receiver([], false)])
  }

  /** The inputs that take a fresh client to `Handshaken()`. */
  function HandshakeInputs(): seq<Input>
  {
    [Connect, ConnectTask(true), ReceiverCheck(0)] + [ReadReturns(0, Chunk(HANDSHAKE_TOKEN))]
  }

  /** The inputs that take a fresh client to `Polling()`. */
  function StartupInputs(): seq<Input>
  {
    HandshakeInputs() + [TimerFires(DelayedPollStart), PollerCheck, PollerWrite(Sent)]
  }

  lemma {:induction false} HandshakeRun<V>(parse: string -> Option<V>)
    ensures Run(Initial<V>(), HandshakeInputs(), parse) == Some(Handshaken<V>())
  {
    var b := ReadReturns(0, Chunk(HANDSHAKE_TOKEN));
    ConnectStage<V>(parse);
    HandshakeStage<V>(parse);
    RunCons(Connected<V>(), b, [], parse);
    assert [b] + [] == [b];
    RunConcat(Initial<V>(), [Connect, ConnectTask(true), ReceiverCheck(0)], [b], parse);
  }

  lemma {:induction false} StartupRun<V>(parse: string -> Option<V>)
    ensures Run(Initial<V>(), StartupInputs(), parse) == Some(Polling<V>())
  {
    HandshakeRun<V>(parse);
    PollingAfterHandshake(Initial<V>(), Handshaken<V>(), HandshakeInputs(), parse);
  }

  lemma {:induction false} PollingAfterHandshake<V>(s0: ClientState<V>, s2: ClientState<V>, h: seq<Input>, parse: string -> Option<V>)
    requires s2 == Handshaken<V>() && Run(s0, h, parse) == Some(s2)
    ensures Run(s0, h + [TimerFires(DelayedPollStart), PollerCheck, PollerWrite(Sent)], parse) == Some(Polling<V>())
  {
    assert AwaitingPollStart(s2);
    PollStage(s2, parse);
    var c := [TimerFires(DelayedPollStart), PollerCheck, PollerWrite(Sent)];
    var s3 := s2.(timers := multiset{}, isPolling := true, events := s2.events + [PollingStatusChanged(true)],
                  pollersAtCheck := 1, sent := s2.sent + [REQUEST_ALL_FRAME]);
    assert s3 == Polling<V>();
    RunConcat(s0, h, c, parse);
  }

  lemma {:induction false} FrameStage<V>(s: ClientState<V>, fields: seq<string>, values: seq<V>, parse: string -> Option<V>)
    requires s.isConnected && s.socket == Open && s.connectedReceived && s.receivers == [Receiver([], false)]
    requires Encodes(fields, values, parse)
    ensures Run(s, [ReceiverCheck(0), ReadReturns(0, Chunk(ResponseFrame(fields)))], parse) ==
      Some(s.(events := s.events + [AllDataReceived(values)]))
  {
    ResponseRoundTrip(fields, values, parse);
    var frame := ResponseFrame(fields);
    assert frame != [];
    LoopTestStep(s, parse);
    var s1 := s.(receivers := [Receiver([], true)]);
    FrameReadReturns(s1, frame, values, parse);
    StepReadReturns(s1, 0, Chunk(frame), parse);
    RunTwo(s, ReceiverCheck(0), ReadReturns(0, Chunk(frame)), parse);
  }

  /**
    A fresh client that connects, receives `connected`, waits for the
    delayed start and then receives one well-formed response frame has
    reported the connection, the start of polling and that one reading,
    in this order, and has written one request frame.
  */
  lemma {:induction false} HappyPath<V>(fields: seq<string>, values: seq<V>, parse: string -> Option<V>)
    requires Encodes(fields, values, parse)
    ensures var t := Run(Initial<V>(), StartupInputs() + [ReceiverCheck(0), ReadReturns(0, Chunk(ResponseFrame(fields)))], parse);
      t.Some? &&
      t.value.events == [ConnectionStatusChanged(true), PollingStatusChanged(true), AllDataReceived(values)] &&
      t.value.sent == [REQUEST_ALL_FRAME] &&
      t.value.isConnected && t.value.isPolling && t.value.connectedReceived &&
      t.value.receivers == [Receiver([], false)]
  {
    StartupRun<V>(parse);
    FrameStage(Polling<V>(), fields, values, parse);
    RunConcat(Initial<V>(), StartupInputs(), [ReceiverCheck(0), ReadReturns(0, Chunk(ResponseFrame(fields)))], parse);
  }

  /**
    `stopPolling()` followed by `startPolling()` while the old polling loop
    sleeps leaves two polling loops: when the old one wakes it finds the
    flag set again, and both go on writing request frames.
  */
  lemma {:induction false} RestartDuringSleepRunsTwoLoops<V>(s: ClientState<V>, parse: string -> Option<V>)
    requires s.isConnected && s.isPolling && s.pollersAtCheck == 0 && s.pollersAtWrite == 1
    ensures var t := Run(s, [StopPolling, StartPolling, PollerWrite(Sent), PollerCheck, PollerCheck], parse);
      t.Some? && t.value.isPolling && t.value.pollersAtCheck == 0 && t.value.pollersAtWrite == 2 &&
      t.value.sent == s.sent + [REQUEST_ALL_FRAME] &&
      t.value.events == s.events + [PollingStatusChanged(false), PollingStatusChanged(true)]
  {
  }

  /**
    A polling loop whose sleep is interrupted leaves without clearing the
    flag: no loop is left, yet `startPolling()` now does nothing, until
    `stopPolling()` clears the flag. Within the app only `destroy()`
    interrupts the sleep, and it calls `disconnect()` first, which clears
    the flag; the state here needs another thread to call
    `startPolling()` between those two steps.
  */
  lemma {:induction false} InterruptedSleepLeavesFlagSet<V>(s: ClientState<V>)
    requires s.isConnected && s.isPolling && s.pollersAtCheck == 0 && s.pollersAtWrite == 1
    ensures var t := AfterPollerWrite(s, Interrupted);
      t.isPolling && t.pollersAtCheck == 0 && t.pollersAtWrite == 0 &&
      AfterStartPolling(t) == t &&
      AfterStartPolling(AfterStopPolling(t)).pollersAtCheck == 1
  {
  }
}
