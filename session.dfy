/**
  The TCP client as an object whose methods update its fields in place.
  Each public operation, each task body the client hands to its executor
  and each delayed callback it posts is a method here, and each is proved
  to move the object exactly as the matching transition of `SessionSpec`
  moves a `ClientState`; what those transitions guarantee is proved in
  `SessionProperties`.
*/
module Session {
  import opened Wrappers
  import opened JavaText
  import opened FrameCodec
  import opened SessionSpec
  import opened SessionProperties

  class TcpClient<V> {
    /** How one trimmed field of a response is turned into a value (`Float.parseFloat`). */
    const parse: string -> Option<V>

    var isConnected: bool
    var isPolling: bool
    var connectedReceived: bool
    var timeoutOccurred: bool
    /** Callbacks posted on the main-thread handler and not yet run or removed. */
    var timers: multiset<Timer>
    var socket: SocketState
    /** Connect tasks submitted to the executor and not yet run. */
    var pendingConnects: nat
    /** Polling loops about to test their loop condition. */
    var pollersAtCheck: nat
    /** Polling loops that passed their loop condition and are about to write. */
    var pollersAtWrite: nat
    /** The running receive loops, each with its own text buffer. */
    var receivers: seq<Receiver>
    /** The listener calls made so far, in order. */
    var events: seq<Event<V>>
    /** The frames written to the socket so far, in order. */
    var sent: seq<seq<byte>>

    /** The object's fields as a value of the state machine. */
    function State(): ClientState<V>
      reads this
    {
      ClientState(isConnected, isPolling, connectedReceived, timeoutOccurred, timers, socket,
                  pendingConnects, pollersAtCheck, pollersAtWrite, receivers, events, sent)
    }

    /** A new client: not connected, not polling, nothing posted or running. */
    constructor (parse: string -> Option<V>)
      ensures State() == Initial() && this.parse == parse
    {
      this.parse := parse;
      isConnected := false;
      isPolling := false;
      connectedReceived := false;
      timeoutOccurred := false;
      timers := multiset{};
      socket := NoSocket;
      pendingConnects := 0;
      pollersAtCheck := 0;
      pollersAtWrite := 0;
      receivers := [];
      events := [];
      sent := [];
    }

    /** `connect()`: reset the handshake flags and submit the connect task. */
    method Connect()
      modifies this`connectedReceived, this`timeoutOccurred, this`pendingConnects
      ensures State() == AfterConnect(old(State()))
    {
      connectedReceived := false;
      timeoutOccurred := false;
      pendingConnects := pendingConnects + 1;
    }

    /**
      The connect task: on success mark the connection, report it, arm the
      timeout and start a receive loop; on failure report and disconnect.
    */
    method RunConnectTask(succeeds: bool)
      requires pendingConnects > 0
      modifies this
      ensures succeeds ==> State() == AfterSocketOpened(old(State()))
      ensures !succeeds ==> State() == AfterSocketFailed(old(State()))
    {
      pendingConnects := pendingConnects - 1;
      ghost var u := State();
      if succeeds {
        socket := Open;
        isConnected := true;
        events := events + [ConnectionStatusChanged(true)];
        StartConnectionTimeoutTimer();
        StartReceiving();
      } else {
        events := events + [Error(ConnectFailed)];
        assert State() == u.(events := u.events + [Error(ConnectFailed)]);
        Disconnect();
      }
    }

    /** `startConnectionTimeoutTimer()`: post the timeout callback. */
    method StartConnectionTimeoutTimer()
      modifies this`timers
      ensures State() == old(State()).(timers := old(timers) + multiset{ConnectionTimeout})
    {
      timers := timers + multiset{ConnectionTimeout};
    }

    /** `startReceiving()`: submit a receive loop with an empty buffer. */
    method StartReceiving()
      modifies this`receivers
      ensures State() == old(State()).(receivers := old(receivers) + [Receiver([], false)])
    {
      receivers := receivers + [Receiver([], false)];
    }

    /** `handleConnectedMessage()`: the first time only, swap the timeout for the delayed poll start. */
    method HandleConnectedMessage()
      modifies this`connectedReceived, this`timers
      ensures State() == AfterHandshake(old(State()))
    {
      if !connectedReceived {
        connectedReceived := true;
        timers := multiset{DelayedPollStart};
      }
    }

    /** `startPolling()`. */
    method StartPolling()
      modifies this`isPolling, this`events, this`pollersAtCheck
      ensures State() == AfterStartPolling(old(State()))
    {
      if !isConnected {
        events := events + [Error(NotConnected)];
        return;
      }
      if isPolling {
        return;
      }
      isPolling := true;
      events := events + [PollingStatusChanged(true)];
      pollersAtCheck := pollersAtCheck + 1;
    }

    /** `stopPolling()`: the compare-and-set from `true` to `false`, reported only when it succeeds. */
    method StopPolling()
      modifies this`isPolling, this`events
      ensures State() == AfterStopPolling(old(State()))
    {
      if isPolling {
        isPolling := false;
        events := events + [PollingStatusChanged(false)];
      }
    }

    /** `disconnect()`. */
    method Disconnect()
      modifies this
      ensures State() == AfterDisconnect(old(State()))
    {
      StopPolling();
      isConnected := false;
      timers := multiset{};
      if socket != NoSocket {
        socket := Closed;
      }
      events := events + [ConnectionStatusChanged(false)];
    }

    /** A posted callback runs and is no longer pending. */
    method TimerFires(t: Timer)
      requires t in timers
      modifies this
      ensures State() == AfterTimerFires(old(State()), t)
    {
      ghost var s := State();
      timers := timers - multiset{t};
      ghost var u := State();
      assert u == s.(timers := s.timers - multiset{t});
      match t
      case ConnectionTimeout =>
        if !connectedReceived && isConnected {
          timeoutOccurred := true;
          events := events + [ConnectionTimedOut];
          assert State() == u.(timeoutOccurred := true, events := u.events + [ConnectionTimedOut]);
          Disconnect();
        }
      case DelayedPollStart =>
        if isConnected && !timeoutOccurred {
          StartPolling();
        }
    }

    /** A polling loop tests `isPolling.get() && isConnected`. */
    method PollerCheck()
      requires pollersAtCheck > 0
      modifies this
      ensures State() == AfterPollerCheck(old(State()))
    {
      pollersAtCheck := pollersAtCheck - 1;
      if isPolling && isConnected {
        pollersAtWrite := pollersAtWrite + 1;
      }
    }

    /** A polling loop builds the request frame, writes it and sleeps, with the outcome `o`. */
    method PollerWrite(o: WriteOutcome)
      requires pollersAtWrite > 0
      modifies this
      ensures State() == AfterPollerWrite(old(State()), o)
    {
      pollersAtWrite := pollersAtWrite - 1;
      ghost var u := State();
      var request := BuildRequestAllFrame();
      match o
      case Sent =>
        sent := sent + [request[..]];
        pollersAtCheck := pollersAtCheck + 1;
        assert State() == u.(sent := u.sent + [REQUEST_ALL_FRAME], pollersAtCheck := u.pollersAtCheck + 1);
      case SendFailed =>
        events := events + [Error(PollSendFailed)];
        assert State() == u.(events := u.events + [Error(PollSendFailed)]);
        StopPolling();
        Disconnect();
      case Interrupted =>
        sent := sent + [request[..]];
        assert State() == u.(sent := u.sent + [REQUEST_ALL_FRAME]);
    }

    /** Receive loop `i` tests `isConnected && socket != null && !socket.isClosed()`. */
    method ReceiverCheck(i: nat)
      requires i < |receivers|
      modifies this
      ensures State() == AfterReceiverCheck(old(State()), i)
    {
      if isConnected && socket == Open {
        receivers := receivers[i := receivers[i].(reading := true)];
      } else {
        ReceiverExits(i);
      }
    }

    /** Receive loop `i` leaves its loop: stop polling, disconnect, and end. */
    method ReceiverExits(i: nat)
      requires i < |receivers|
      modifies this
      ensures State() == SessionSpec.ReceiverExits(old(State()), i)
    {
      StopPolling();
      Disconnect();
      receivers := receivers[..i] + receivers[i + 1..];
    }

    /** The blocked read of receive loop `i` returns `o`. */
    method ReadReturns(i: nat, o: ReadOutcome)
      requires i < |receivers|
      modifies this
      ensures State() == AfterReadReturns(old(State()), i, o, parse)
    {
      match o
      case Chunk(text) =>
        if text == [] {
          receivers := receivers[i := receivers[i].(reading := false)];
        } else {
          receivers := receivers[i := Receiver(receivers[i].buffer + text, false)];
          ProcessReceivedBuffer(i);
        }
      case EndOfStream =>
        ReceiverExits(i);
      case ReadFailed =>
        if isConnected {
          events := events + [Error(ReceiveFailed)];
        }
        ReceiverExits(i);
    }

    /**
      `processReceivedBuffer` on receive loop `i`'s buffer, which the loop
      runs between two reads: notice the handshake token and delete
      through it, then run the frame loop on what is left.
    */
    method ProcessReceivedBuffer(i: nat)
      requires i < |receivers| && !receivers[i].reading
      modifies this
      ensures State() == AfterProcessReceived(old(State()), i, parse)
    {
      var data := receivers[i].buffer;
      if Contains(data, HANDSHAKE_TOKEN) {
        HandleConnectedMessage();
        data := data[IndexOf(data, HANDSHAKE_TOKEN, 0) + |HANDSHAKE_TOKEN|..];
      }
      data := ReportFrames(data);
      receivers := receivers[i := Receiver(data, false)];
    }

    /**
      The frame loop of `processReceivedBuffer` on the buffer `buffer`:
      report and delete every complete frame in turn, keep a trailing
      partial frame from its `ABBA` on, and return what the buffer holds
      then.
    */
    method ReportFrames(buffer: string) returns (data: string)
      modifies this`events
      ensures data == ScanFrames(buffer).rest
      ensures events == old(events) + Emitted(Readings(ScanFrames(buffer).frames, parse))
    {
      data := buffer;
      ghost var readings: seq<seq<V>> := [];
      FrameLoopStarts(buffer, parse);
      var startIndex := IndexOf(data, FRAME_START, 0);
      while startIndex != -1
        invariant startIndex == IndexOf(data, FRAME_START, 0)
        invariant FrameLoopAgrees(buffer, data, readings, parse)
        invariant events == old(events) + Emitted(readings)
        decreases |data|
      {
        var endIndex := IndexOf(data, FRAME_END, startIndex + 4);
        if endIndex != -1 {
          ghost var text := data[startIndex + 4..endIndex];
          var values := ParseFrame(data[startIndex + 4..endIndex], parse);
          if values.Some? {
            events := events + [AllDataReceived(values.value)];
          }
          FrameLoopComplete(buffer, data, readings, startIndex, endIndex, parse);
          FrameReported(old(events), readings, text, parse);
          readings := readings + Emit(DecodeFrame(text, parse));
          data := data[endIndex + 4..];
        } else {
          FrameLoopPartial(buffer, data, readings, parse);
          if startIndex > 0 {
            data := data[startIndex..];
          }
          return;
        }
        startIndex := IndexOf(data, FRAME_START, 0);
      }
      FrameLoopNone(buffer, data, readings, parse);
    }

    /** `isConnected()`. */
    method IsConnected() returns (r: bool)
      ensures r == ReportsConnected(State())
    {
      r := isConnected && socket == Open;
    }

    /** `isPolling()`. */
    method IsPolling() returns (r: bool)
      ensures r == State().isPolling
    {
      r := isPolling;
    }
  }

  /** Reporting one more frame's reading, if it decodes, extends the listener log accordingly. */
  lemma {:induction false} FrameReported<V>(log: seq<Event<V>>, readings: seq<seq<V>>, text: string, parse: string -> Option<V>)
    ensures var r := DecodeFrame(text, parse);
      log + Emitted(readings + Emit(r)) ==
        log + Emitted(readings) + (if r.Some? then [AllDataReceived(r.value)] else [])
  {
    var r := DecodeFrame(text, parse);
    EmittedAppend(readings, Emit(r));
    EmittedOfEmit(r);
    AppendTwice(log, Emitted(readings), Emitted(Emit(r)));
  }

  /** A decode result is reported as one `onAllDataReceived` call, or none. */
  lemma {:induction false} EmittedOfEmit<V>(r: Option<seq<V>>)
    ensures Emitted(Emit(r)) == if r.Some? then [AllDataReceived(r.value)] else []
  {
    if r.Some? {
      assert Emit(r) == [r.value];
    }
  }
}
