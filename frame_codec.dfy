/**
  The wire format of the sensor protocol and the receive-buffer frame
  scanner. Requests are a fixed 6-byte binary frame; responses are text
  frames `ABBA<v1>,...,<v6>CDDC` embedded in the character stream, and
  the handshake token `connected` may appear anywhere in it.

  Number parsing (`Float.parseFloat`) is not modelled: every function that
  needs it takes `parse`, an arbitrary partial function from a field's
  text to a value of the type parameter `V`.
*/
module FrameCodec {
  import opened Wrappers
  import opened JavaText

  /** An octet on the wire. */
  newtype byte = x: int | 0 <= x < 256

  const HANDSHAKE_TOKEN: string := "connected"
  const FRAME_START: string := "ABBA"
  const FRAME_END: string := "CDDC"
  const FIELD_SEPARATOR: char := ','
  const FIELD_COUNT: nat := 6

  /** The "request all readings" frame: AB BA, command 00, selector FF (all), CD DC. */
  const REQUEST_ALL_FRAME: seq<byte> := [0xAB, 0xBA, 0x00, 0xFF, 0xCD, 0xDC]

  /** Builds the request frame into a new byte array, one element at a time. */
  method BuildRequestAllFrame() returns (frame: array<byte>)
    ensures fresh(frame)
    ensures frame.Length == 6 && frame[..] == REQUEST_ALL_FRAME
  {
    frame := new byte[6];
    frame[0] := 0xAB;
    frame[1] := 0xBA;
    frame[2] := 0x00;
    frame[3] := 0xFF;
    frame[4] := 0xCD;
    frame[5] := 0xDC;
  }

  /** Parses every field after trimming it; `None` as soon as one field does not parse. */
  function ParseFields<V>(parts: seq<string>, parse: string -> Option<V>): (r: Option<seq<V>>)
    ensures r.Some? <==> forall i {:trigger parse(Trim(parts[i]))} :: 0 <= i < |parts| ==> parse(Trim(parts[i])).Some?
    ensures r.Some? ==> |r.value| == |parts|
    ensures r.Some? ==> forall i {:trigger parse(Trim(parts[i]))} :: 0 <= i < |parts| ==> parse(Trim(parts[i])) == Some(r.value[i])
  {
    if parts == [] then Some([])
    else
      match parse(Trim(parts[0]))
      case None => None
      case Some(v) =>
        match ParseFields(parts[1..], parse)
        case None => None
        case Some(vs) => Some([v] + vs)
  }

  /**
    The value loop of the frame parser: fills the six readings in order and
    gives up at the first field that does not parse (the exception that
    the source catches and logs).
  */
  method ParseReading<V>(parts: seq<string>, parse: string -> Option<V>) returns (values: Option<seq<V>>)
    requires |parts| == FIELD_COUNT
    ensures values == ParseFields(parts, parse)
  {
    var vs: seq<V> := [];
    for i := 0 to FIELD_COUNT
      invariant |vs| == i
      invariant forall j :: 0 <= j < i ==> parse(Trim(parts[j])) == Some(vs[j])
    {
      var p := parse(Trim(parts[i]));
      if p.None? {
        assert ParseFields(parts, parse).None?;
        return None;
      }
      vs := vs + [p.value];
    }
    values := Some(vs);
    assert ParseFields(parts, parse).value == vs;
  }

  /**
    The reading carried by the text between the markers: trimmed, split on
    commas, exactly six fields, each of which parses after trimming.
  */
  function DecodeFrame<V>(raw: string, parse: string -> Option<V>): (r: Option<seq<V>>)
    ensures r.Some? ==> |r.value| == FIELD_COUNT
  {
    var parts := Split(Trim(raw), FIELD_SEPARATOR);
    if |parts| == FIELD_COUNT then ParseFields(parts, parse) else None
  }

  /**
    The body of a complete frame's pass: trim the text between the
    markers, split it on commas, and parse the six fields when there are
    exactly six.
  */
  method ParseFrame<V>(raw: string, parse: string -> Option<V>) returns (r: Option<seq<V>>)
    ensures r == DecodeFrame(raw, parse)
  {
    var content := Trim(raw);
    var parts := Split(content, FIELD_SEPARATOR);
    if |parts| == FIELD_COUNT {
      r := ParseReading(parts, parse);
    } else {
      r := None;
    }
  }

  /** The readings a decode result contributes to the output: one or none. */
  function Emit<V>(r: Option<seq<V>>): seq<seq<V>>
  {
    if r.Some? then [r.value] else []
  }

  /** What the frame loop leaves in the buffer, and the text of each frame it deleted, in order. */
  datatype Scan = Scan(rest: string, frames: seq<string>)

  /** What is left in the buffer and the readings produced, in order. */
  datatype Processed<V> = Processed(rest: string, readings: seq<seq<V>>)

  /** Where the frame loop finds the first frame of a buffer. */
  datatype Location = NoFrame | PartialFrame(start: nat) | CompleteFrame(start: nat, end: nat)

  /**
    The two marker searches of the frame loop: the first `ABBA`, then the
    first `CDDC` at or after four characters past it.
  */
  function Locate(data: string): (l: Location)
    ensures l.PartialFrame? ==> l.start + 4 <= |data|
    ensures l.CompleteFrame? ==> l.start + 4 <= l.end && l.end + 4 <= |data|
  {
    var start := IndexOf(data, FRAME_START, 0);
    if start == -1 then NoFrame
    else
      var end := IndexOf(data, FRAME_END, start + 4);
      if end == -1 then PartialFrame(start) else CompleteFrame(start, end)
  }

  /**
    The buffer is one the frame loop leaves alone: it finds no complete
    frame in it, and a partial frame, if any, starts at index 0.
  */
  predicate Settled(s: string)
  {
    match Locate(s)
    case NoFrame => true
    case PartialFrame(start) => start == 0
    case CompleteFrame(_, _) => false
  }

  /**
    A settled buffer holds no `ABBA` at all, or an `ABBA` at its very start
    with no `CDDC` at or after index 4, and only such buffers are settled.
  */
  lemma {:induction false} SettledMeaning(s: string)
    ensures Settled(s) <==>
            (forall k :: !OccursAt(s, FRAME_START, k)) ||
            (OccursAt(s, FRAME_START, 0) && forall k :: 4 <= k ==> !OccursAt(s, FRAME_END, k))
  {
    IndexOfMeaning(s, FRAME_START, 0);
    var start := IndexOf(s, FRAME_START, 0);
    if start != -1 {
      IndexOfMeaning(s, FRAME_END, start + 4);
      if OccursAt(s, FRAME_START, 0) {
        assert start == 0;
      }
    }
  }

  /**
    The incomplete-frame case of the frame loop: the characters before the
    `ABBA` are deleted when there are any, and the partial frame is kept
    for the next read to complete.
  */
  function KeepPartialFrame(data: string, start: nat): (r: string)
    requires start <= |data|
    ensures IsSuffix(r, data)
  {
    if start > 0 then data[start..] else data
  }

  /** A partial frame kept for the next read leaves no complete frame behind. */
  lemma {:induction false} PartialFrameSettled(data: string, start: nat)
    requires OccursAt(data, FRAME_START, start)
    requires forall k :: start + 4 <= k ==> !OccursAt(data, FRAME_END, k)
    ensures Settled(KeepPartialFrame(data, start))
  {
    var rest := KeepPartialFrame(data, start);
    assert rest[0..4] == data[start..start + 4];
    IndexOfIsFirst(rest, FRAME_START, 0, 0);
    forall k | 4 <= k ensures !OccursAt(rest, FRAME_END, k) {
      assert !OccursAt(data, FRAME_END, start + k);
      if k + 4 <= |rest| {
        assert rest[k..k + 4] == data[start + k..start + k + 4];
      }
    }
    IndexOfMeaning(rest, FRAME_END, 4);
  }

  /**
    The frame loop of the receive-buffer processor: find the first `ABBA`,
    the first `CDDC` at or after four characters past it, decode what lies
    between, delete through the `CDDC` and repeat; an `ABBA` without a
    `CDDC` keeps the partial frame and drops whatever precedes it.
  */
  function ScanFrames(data: string): Scan
    decreases |data|
  {
    match Locate(data)
    case NoFrame => Scan(data, [])
    case PartialFrame(start) => Scan(KeepPartialFrame(data, start), [])
    case CompleteFrame(start, end) =>
      var tail := ScanFrames(data[end + 4..]);
      Scan(tail.rest, [data[start + 4..end]] + tail.frames)
  }

  /** The readings the frame texts decode to, in frame order; undecodable frames yield none. */
  function Readings<V>(frames: seq<string>, parse: string -> Option<V>): (r: seq<seq<V>>)
    ensures |r| <= |frames|
    ensures forall i :: 0 <= i < |r| ==> |r[i]| == FIELD_COUNT
  {
    if frames == [] then []
    else
      var here := Emit(DecodeFrame(frames[0], parse));
      here + Readings(frames[1..], parse)
  }

  /** Decoding is frame by frame, so frames decoded in two batches give the same readings. */
  lemma {:induction false} ReadingsAppend<V>(a: seq<string>, b: seq<string>, parse: string -> Option<V>)
    ensures Readings(a + b, parse) == Readings(a, parse) + Readings(b, parse)
    decreases |a|
  {
    if a != [] {
      var t := a[1..];
      assert (a + b)[1..] == t + b && (a + b)[0] == a[0];
      ReadingsAppend(t, b, parse);
      var here := Emit(DecodeFrame(a[0], parse));
      ReadingsRegrouped(Readings(a + b, parse), here, Readings(t, parse), Readings(t + b, parse), Readings(b, parse));
    } else {
      assert a + b == b;
    }
  }

  /** A frame loop's outcome with every frame text decoded. */
  function Decoded<V>(s: Scan, parse: string -> Option<V>): Processed<V>
  {
    Processed(s.rest, Readings(s.frames, parse))
  }

  /** The frame loop only ever deletes a prefix of the buffer. */
  lemma {:induction false} ScanFramesSuffix(data: string)
    ensures IsSuffix(ScanFrames(data).rest, data)
    decreases |data|
  {
    var l := Locate(data);
    if l.NoFrame? {
      NoFrameSettled(data);
      assert data[|data| - |data|..] == data;
    } else if l.PartialFrame? {
      PartialFrameStep(data);
    } else {
      var rest := data[l.end + 4..];
      ScanFramesSuffix(rest);
      CompleteFrameSuffix(data, rest, ScanFrames(rest).rest);
    }
  }

  /** The inductive step of `ScanFramesSuffix`. */
  lemma {:induction false} CompleteFrameSuffix(data: string, rest: string, left: string)
    requires Locate(data).CompleteFrame? && rest == data[Locate(data).end + 4..]
    requires left == ScanFrames(rest).rest && IsSuffix(left, rest)
    ensures IsSuffix(ScanFrames(data).rest, data)
  {
    CompleteFrameStep(data, Locate(data).start, Locate(data).end);
    assert IsSuffix(rest, data);
    SuffixOfSuffix(left, rest, data);
  }

  /** The frame loop runs until no complete frame is left in the buffer. */
  lemma {:induction false} ScanFramesSettled(data: string)
    ensures Settled(ScanFrames(data).rest)
    decreases |data|
  {
    var l := Locate(data);
    if l.NoFrame? {
      NoFrameSettled(data);
    } else if l.PartialFrame? {
      PartialFrameStep(data);
    } else {
      var r := data[l.end + 4..];
      ScanFramesSettled(r);
      CompleteFrameSettled(data, l.start, l.end, ScanFrames(r).rest);
    }
  }

  lemma {:induction false} CompleteFrameSettled(data: string, start: nat, end: nat, left: string)
    requires Locate(data) == CompleteFrame(start, end)
    requires left == ScanFrames(data[end + 4..]).rest && Settled(left)
    ensures Settled(ScanFrames(data).rest)
  {
    CompleteFrameStep(data, start, end);
  }

  /** With no `ABBA` at all the frame loop leaves the buffer as it is. */
  lemma {:induction false} NoFrameSettled(data: string)
    requires Locate(data).NoFrame?
    ensures ScanFrames(data) == Scan(data, [])
    ensures Settled(data)
  {
  }

  /** With an `ABBA` but no `CDDC` after it the frame loop keeps the partial frame and stops. */
  lemma {:induction false} PartialFrameStep(data: string)
    requires Locate(data).PartialFrame?
    ensures ScanFrames(data) == Scan(KeepPartialFrame(data, Locate(data).start), [])
    ensures Settled(ScanFrames(data).rest)
  {
    var start := Locate(data).start;
    IndexOfMeaning(data, FRAME_START, 0);
    IndexOfMeaning(data, FRAME_END, start + 4);
    PartialFrameSettled(data, start);
  }

  /** With a complete frame first the frame loop records its text and goes on after its `CDDC`. */
  lemma {:induction false} CompleteFrameStep(data: string, start: nat, end: nat)
    requires Locate(data) == CompleteFrame(start, end)
    ensures ScanFrames(data).rest == ScanFrames(data[end + 4..]).rest
    ensures ScanFrames(data).frames == [data[start + 4..end]] + ScanFrames(data[end + 4..]).frames
  {
  }

  /** Two scan results with the same leftover and the same frames are the same. */
  lemma {:induction false} SameScan(x: Scan, y: Scan)
    requires x.rest == y.rest && x.frames == y.frames
    ensures x == y
  {
  }

  /** Seen from its first `ABBA`, a buffer has its first frame at index 0 and the same end marker. */
  lemma {:induction false} LocateFromStart(data: string, start: nat)
    requires IndexOf(data, FRAME_START, 0) == start
    ensures Locate(data[start..]) ==
            match Locate(data)
            case CompleteFrame(_, end) => CompleteFrame(0, end - start)
            case _ => PartialFrame(0)
  {
    var e := data[start..];
    var garbage := data[..start];
    MarkerStartsRest(data, start, garbage, e);
    IndexOfShift(garbage, e, FRAME_END, 4);
  }

  /** Cut at its first `ABBA`, a buffer is the garbage before it and a rest starting with it. */
  lemma {:induction false} MarkerStartsRest(data: string, start: nat, garbage: string, e: string)
    requires IndexOf(data, FRAME_START, 0) == start && garbage == data[..start] && e == data[start..]
    ensures garbage + e == data && |garbage| == start
    ensures IndexOf(e, FRAME_START, 0) == 0
  {
    IndexOfMeaning(data, FRAME_START, 0);
    assert e[0..4] == data[start..start + 4];
    IndexOfIsFirst(e, FRAME_START, 0, 0);
  }

  /** The frame loop leaves a settled buffer as it is. */
  lemma {:induction false} SettledIsFixpoint(s: string)
    requires Settled(s)
    ensures ScanFrames(s) == Scan(s, [])
  {
    if Locate(s).PartialFrame? {
      PartialFrameStep(s);
    }
  }

  /** Running the frame loop again, with nothing new received, changes nothing. */
  lemma {:induction false} ScanFramesIdempotent(data: string)
    ensures ScanFrames(ScanFrames(data).rest) == Scan(ScanFrames(data).rest, [])
  {
    ScanFramesSettled(data);
    SettledIsFixpoint(ScanFrames(data).rest);
  }

  /**
    Deleting the characters before the first `ABBA` does not change what
    the frame loop finds.
  */
  lemma {:induction false} GarbageSkipped(data: string, start: nat)
    requires IndexOf(data, FRAME_START, 0) == start
    ensures ScanFrames(data[start..]) == ScanFrames(data)
  {
    var e := data[start..];
    LocateFromStart(data, start);
    match Locate(data)
    case PartialFrame(_) =>
      PartialFrameSkipped(data, start, e);
    case CompleteFrame(_, end) =>
      CompleteFrameSkipped(data, start, end, e);
      SameScan(ScanFrames(e), ScanFrames(data));
  }

  /** `GarbageSkipped` when the buffer holds only a partial frame. */
  lemma {:induction false} PartialFrameSkipped(data: string, start: nat, e: string)
    requires Locate(data) == PartialFrame(start) && e == data[start..] && Locate(e) == PartialFrame(0)
    ensures ScanFrames(e) == ScanFrames(data)
  {
    PartialFrameStep(data);
    PartialFrameStep(e);
    assert KeepPartialFrame(data, start) == e;
  }

  /** `GarbageSkipped` when the buffer holds a complete frame. */
  lemma {:induction false} CompleteFrameSkipped(data: string, start: nat, end: nat, e: string)
    requires Locate(data) == CompleteFrame(start, end) && e == data[start..]
    requires Locate(e) == CompleteFrame(0, end - start)
    ensures ScanFrames(e).rest == ScanFrames(data).rest
    ensures ScanFrames(e).frames == ScanFrames(data).frames
  {
    var k := end - start;
    var tail := data[end + 4..];
    var text := data[start + 4..end];
    FrameSeenFromStart(data, e, start, end);
    CompleteFrameTail(data, start, end, tail, text);
    CompleteFrameTail(e, 0, k, tail, text);
  }

  /** A frame's text and what follows it, seen from the frame's `ABBA`. */
  lemma {:induction false} FrameSeenFromStart(data: string, e: string, start: nat, end: nat)
    requires start + 4 <= end && end + 4 <= |data| && e == data[start..]
    ensures e[4..end - start] == data[start + 4..end]
    ensures e[end - start + 4..] == data[end + 4..]
  {
  }

  /** `CompleteFrameStep` with the frame's text and the text after it given by name. */
  lemma {:induction false} CompleteFrameTail(data: string, start: nat, end: nat, tail: string, text: string)
    requires Locate(data) == CompleteFrame(start, end) && tail == data[end + 4..] && text == data[start + 4..end]
    ensures ScanFrames(data).rest == ScanFrames(tail).rest
    ensures ScanFrames(data).frames == [text] + ScanFrames(tail).frames
  {
    CompleteFrameStep(data, start, end);
  }

  /**
    The stream may arrive in any chunks: running the frame loop on a first
    chunk and then again on what it left plus the next chunk deletes the
    same prefix and finds the same frames, in the same order, as running it
    once on both chunks together.
  */
  lemma {:induction false} ScanFramesChunked(a: string, b: string)
    ensures ChunkedAgrees(a, b)
    decreases |a|
  {
    var l := Locate(a);
    if l.NoFrame? {
      NoFrameSettled(a);
      assert [] + ScanFrames(a + b).frames == ScanFrames(a + b).frames;
    } else if l.PartialFrame? {
      PartialFrameChunked(a, b);
      assert [] + ScanFrames(a + b).frames == ScanFrames(a + b).frames;
    } else {
      ScanFramesChunked(a[l.end + 4..], b);
      CompleteFrameChunked(a, b, l.start, l.end, a[l.end + 4..]);
    }
  }

  /** Scanning `a` and then its leftover with `b` agrees with scanning `a + b`. */
  predicate ChunkedAgrees(a: string, b: string)
  {
    ScanFrames(ScanFrames(a).rest + b).rest == ScanFrames(a + b).rest &&
    ScanFrames(a).frames + ScanFrames(ScanFrames(a).rest + b).frames == ScanFrames(a + b).frames
  }

  /** The inductive step of chunking: a complete first frame of `a` is also the first frame of `a + b`. */
  lemma {:induction false} CompleteFrameChunked(a: string, b: string, start: nat, end: nat, r: string)
    requires Locate(a) == CompleteFrame(start, end) && end + 4 <= |a| && r == a[end + 4..]
    requires ChunkedAgrees(r, b)
    ensures ChunkedAgrees(a, b)
  {
    CompleteFrameStep(a, start, end);
    CompleteFrameExtended(a, b, start, end);
    ChunkAlgebra(a[start + 4..end], ScanFrames(a), ScanFrames(r), ScanFrames(a + b), ScanFrames(r + b),
                 ScanFrames(ScanFrames(r).rest + b));
  }

  /** The frame loop's first turn on `a + b` when `a` holds a complete frame. */
  lemma {:induction false} CompleteFrameExtended(a: string, b: string, start: nat, end: nat)
    requires Locate(a) == CompleteFrame(start, end)
    ensures ScanFrames(a + b).rest == ScanFrames(a[end + 4..] + b).rest
    ensures ScanFrames(a + b).frames == [a[start + 4..end]] + ScanFrames(a[end + 4..] + b).frames
  {
    LocateExtended(a, b);
    SliceOfConcat(a, b, start + 4, end);
    SliceOfConcat(a, b, end + 4, end + 4);
    CompleteFrameTail(a + b, start, end, a[end + 4..] + b, a[start + 4..end]);
  }

  /** The bookkeeping of the chunking step, on the scan results alone. */
  lemma {:induction false} ChunkAlgebra(x: string, sa: Scan, sr: Scan, sab: Scan, srb: Scan, t: Scan)
    requires sa.rest == sr.rest && sa.frames == [x] + sr.frames
    requires sab.rest == srb.rest && sab.frames == [x] + srb.frames
    requires t.rest == srb.rest && sr.frames + t.frames == srb.frames
    ensures t.rest == sab.rest && sa.frames + t.frames == sab.frames
  {
    assert ([x] + sr.frames) + t.frames == [x] + (sr.frames + t.frames);
  }

  /** A partial frame kept from one chunk is scanned with the next as if both had come at once. */
  lemma {:induction false} PartialFrameChunked(a: string, b: string)
    requires Locate(a).PartialFrame?
    ensures ScanFrames(a) == Scan(KeepPartialFrame(a, Locate(a).start), [])
    ensures ScanFrames(ScanFrames(a).rest + b) == ScanFrames(a + b)
  {
    var start := Locate(a).start;
    var kept := KeepPartialFrame(a, start);
    PartialFrameStep(a);
    PartialFrameExtended(a, b, start, kept);
    GarbageSkipped(a + b, start);
  }

  /** The partial frame kept from `a`, followed by `b`, is `a + b` from its first `ABBA` on. */
  lemma {:induction false} PartialFrameExtended(a: string, b: string, start: nat, kept: string)
    requires Locate(a) == PartialFrame(start) && kept == KeepPartialFrame(a, start)
    ensures IndexOf(a + b, FRAME_START, 0) == start
    ensures (a + b)[start..] == kept + b
  {
    IndexOfInPrefix(a, b, FRAME_START, 0);
    SliceOfConcat(a, b, start, start);
  }

  /** A complete first frame of one chunk stays the first frame when the next chunk is appended. */
  lemma {:induction false} LocateExtended(a: string, b: string)
    requires Locate(a).CompleteFrame?
    ensures Locate(a + b) == Locate(a)
  {
    IndexOfInPrefix(a, b, FRAME_START, 0);
    IndexOfInPrefix(a, b, FRAME_END, Locate(a).start + 4);
  }

  /** The buffer after the handshake check: everything through the first `connected` is gone. */
  function AfterHandshakeToken(data: string): (r: string)
    ensures IsSuffix(r, data)
    ensures !Contains(data, HANDSHAKE_TOKEN) ==> r == data
  {
    if Contains(data, HANDSHAKE_TOKEN)
    then data[IndexOf(data, HANDSHAKE_TOKEN, 0) + |HANDSHAKE_TOKEN|..]
    else data
  }

  /**
    The buffer and readings the receive-buffer processor leaves behind:
    handshake token first, then the frame loop on what remains. Processing
    only ever deletes a prefix, and never leaves a complete frame behind.
  */
  function ProcessBuffer<V>(data: string, parse: string -> Option<V>): Processed<V>
  {
    Decoded(ScanFrames(AfterHandshakeToken(data)), parse)
  }

  /**
    Processing only ever deletes a prefix of the buffer, never leaves a
    complete frame behind, and emits only six-value readings.
  */
  lemma {:induction false} ProcessBufferShape<V>(data: string, parse: string -> Option<V>)
    ensures IsSuffix(ProcessBuffer(data, parse).rest, data)
    ensures Settled(ProcessBuffer(data, parse).rest)
    ensures forall i :: 0 <= i < |ProcessBuffer(data, parse).readings| ==>
              |ProcessBuffer(data, parse).readings[i]| == FIELD_COUNT
  {
    var afterToken := AfterHandshakeToken(data);
    ScanFramesSuffix(afterToken);
    ScanFramesSettled(afterToken);
    SuffixOfSuffix(ScanFrames(afterToken).rest, afterToken, data);
  }

  /**
    Once the handshake token is out of the way, the stream may arrive in
    any chunks: processing a first chunk and then what it left plus the
    next chunk leaves the same buffer and delivers the same readings, in
    the same order, as processing both chunks at once.
  */
  lemma {:induction false} ProcessBufferChunked<V>(a: string, b: string, parse: string -> Option<V>)
    requires !Contains(a + b, HANDSHAKE_TOKEN)
    ensures ProcessBuffer(ProcessBuffer(a, parse).rest + b, parse).rest == ProcessBuffer(a + b, parse).rest
    ensures ProcessBuffer(a, parse).readings + ProcessBuffer(ProcessBuffer(a, parse).rest + b, parse).readings ==
            ProcessBuffer(a + b, parse).readings
  {
    if Contains(a, HANDSHAKE_TOKEN) {
      ContainsFromPrefix(a, b, HANDSHAKE_TOKEN);
    }
    var rest := ScanFrames(a).rest;
    ScanFramesSuffix(a);
    var dropped := a[..|a| - |rest|];
    assert a + b == dropped + (rest + b);
    if Contains(rest + b, HANDSHAKE_TOKEN) {
      ContainsFromSuffix(dropped, rest + b, HANDSHAKE_TOKEN);
    }
    ScanFramesChunked(a, b);
    ReadingsAppend(ScanFrames(a).frames, ScanFrames(rest + b).frames, parse);
  }

  /**
    The first complete frame is handled first: with no `ABBA` in the
    garbage before it (not even one overlapping its own marker) and no
    `CDDC` inside it, it contributes its reading (or nothing, when it does
    not decode) ahead of everything the rest of the buffer yields, and the
    garbage and the frame itself are deleted.
  */
  lemma {:induction false} ScanFirstFrame(garbage: string, content: string, tail: string)
    requires IndexOf(garbage + FRAME_START, FRAME_START, 0) == |garbage|
    requires IndexOf(content + FRAME_END, FRAME_END, 0) == |content|
    ensures ScanFrames(garbage + FRAME_START + content + FRAME_END + tail) ==
            Scan(ScanFrames(tail).rest, [content] + ScanFrames(tail).frames)
  {
    var data := garbage + FRAME_START + content + FRAME_END + tail;
    var start := |garbage|;
    var end := |garbage| + 4 + |content|;
    FirstFrameLocated(garbage, content, tail);
    CompleteFrameTail(data, start, end, tail, content);
    SameScan(ScanFrames(data), Scan(ScanFrames(tail).rest, [content] + ScanFrames(tail).frames));
  }

  /** Where the frame loop finds the first frame of `ScanFirstFrame`'s buffer. */
  lemma {:induction false} FirstFrameLocated(garbage: string, content: string, tail: string)
    requires IndexOf(garbage + FRAME_START, FRAME_START, 0) == |garbage|
    requires IndexOf(content + FRAME_END, FRAME_END, 0) == |content|
    ensures var data := garbage + FRAME_START + content + FRAME_END + tail;
            Locate(data) == CompleteFrame(|garbage|, |garbage| + 4 + |content|) &&
            data[|garbage| + 4..|garbage| + 4 + |content|] == content &&
            data[|garbage| + 4 + |content| + 4..] == tail
  {
    var data := garbage + FRAME_START + content + FRAME_END + tail;
    var start := |garbage|;
    var end := |garbage| + 4 + |content|;
    assert IndexOf(data, FRAME_START, 0) == start by {
      assert data == (garbage + FRAME_START) + (content + FRAME_END + tail);
      IndexOfInPrefix(garbage + FRAME_START, content + FRAME_END + tail, FRAME_START, 0);
    }
    assert IndexOf(data, FRAME_END, start + 4) == end by {
      var body := content + FRAME_END + tail;
      assert data == (garbage + FRAME_START) + body;
      assert body == (content + FRAME_END) + tail;
      IndexOfInPrefix(content + FRAME_END, tail, FRAME_END, 0);
      IndexOfShift(garbage + FRAME_START, body, FRAME_END, 0);
    }
    assert data[start + 4..end] == content;
    assert data[end + 4..] == tail;
  }

  /**
    The first frame's reading comes first: a frame that decodes emits
    exactly its one reading, ahead of every reading of the frames after it.
  */
  lemma {:induction false} FirstFrameDecoded<V>(garbage: string, content: string, tail: string, parse: string -> Option<V>)
    requires IndexOf(garbage + FRAME_START, FRAME_START, 0) == |garbage|
    requires IndexOf(content + FRAME_END, FRAME_END, 0) == |content|
    ensures Decoded(ScanFrames(garbage + FRAME_START + content + FRAME_END + tail), parse) ==
            Processed(ScanFrames(tail).rest, Emit(DecodeFrame(content, parse)) + Readings(ScanFrames(tail).frames, parse))
  {
    ScanFirstFrame(garbage, content, tail);
    var fs := ScanFrames(tail).frames;
    assert ([content] + fs)[1..] == fs;
  }

  /**
    A frame that does not decode (wrong field count, or a field that does
    not parse) emits nothing, is deleted, and scanning goes on with what
    follows it.
  */
  lemma {:induction false} UndecodableFrameSkipped<V>(content: string, tail: string, parse: string -> Option<V>)
    requires IndexOf(content + FRAME_END, FRAME_END, 0) == |content|
    requires DecodeFrame(content, parse) == None
    ensures Decoded(ScanFrames(FRAME_START + content + FRAME_END + tail), parse) ==
            Decoded(ScanFrames(tail), parse)
  {
    assert [] + FRAME_START == FRAME_START;
    FirstFrameDecoded([], content, tail, parse);
    assert [] + FRAME_START + content + FRAME_END + tail == FRAME_START + content + FRAME_END + tail;
  }

  /**
    The handshake token is handled before any frame: when the buffer holds
    `connected`, everything through its first occurrence, frames included,
    is deleted first, so a frame lying wholly before the token is never
    emitted.
  */
  lemma {:induction false} FramesBeforeTokenDropped<V>(before: string, after: string, parse: string -> Option<V>)
    requires IndexOf(before + HANDSHAKE_TOKEN, HANDSHAKE_TOKEN, 0) == |before|
    ensures ProcessBuffer(before + HANDSHAKE_TOKEN + after, parse) == Decoded(ScanFrames(after), parse)
  {
    var data := before + HANDSHAKE_TOKEN + after;
    IndexOfInPrefix(before + HANDSHAKE_TOKEN, after, HANDSHAKE_TOKEN, 0);
    assert data[|before| + |HANDSHAKE_TOKEN|..] == after;
  }

  /** Characters a decimal number in a response frame is written with. */
  const NUMERAL_CHARS: set<char> := {'0', '1', '2', '3', '4', '5', '6', '7', '8', '9', '.', '-', '+', 'e', 'E'}

  /** A field written as a decimal number: non-empty, numeral characters only. */
  predicate IsNumeral(f: string)
  {
    f != [] && forall i :: 0 <= i < |f| ==> f[i] in NUMERAL_CHARS
  }

  /** The response frame the device sends for the given fields. */
  function ResponseFrame(fields: seq<string>): string
  {
    FRAME_START + Join(fields, FIELD_SEPARATOR) + FRAME_END
  }

  /** Six numerals that parse to six values. */
  ghost predicate Encodes<V>(fields: seq<string>, values: seq<V>, parse: string -> Option<V>)
  {
    |fields| == FIELD_COUNT && |values| == FIELD_COUNT &&
    forall i :: 0 <= i < FIELD_COUNT ==> IsNumeral(fields[i]) && parse(fields[i]) == Some(values[i])
  }

  /** No character of a join of numerals is a marker or token initial. */
  lemma {:induction false} JoinOfNumeralsChars(fields: seq<string>, c: char)
    requires forall i :: 0 <= i < |fields| ==> IsNumeral(fields[i])
    requires c !in NUMERAL_CHARS && c != FIELD_SEPARATOR
    ensures c !in Join(fields, FIELD_SEPARATOR)
    decreases |fields|
  {
    if |fields| > 1 {
      JoinOfNumeralsChars(fields[1..], c);
      assert c !in fields[0] by {
        forall i | 0 <= i < |fields[0]| ensures fields[0][i] != c {
          assert fields[0][i] in NUMERAL_CHARS;
        }
      }
    } else if |fields| == 1 {
      forall i | 0 <= i < |fields[0]| ensures fields[0][i] != c {
        assert fields[0][i] in NUMERAL_CHARS;
      }
    }
  }

  /** The text between the markers when it holds no 'C' at all. */
  lemma {:induction false} FrameEndFirst(content: string)
    requires 'C' !in content
    ensures IndexOf(content + FRAME_END, FRAME_END, 0) == |content|
  {
    var s := content + FRAME_END;
    forall j | 0 <= j < |content| ensures !OccursAt(s, FRAME_END, j) {
      assert s[j..j + 4][0] == content[j];
      assert content[j] in content;
    }
    assert s[|content|..|content| + 4] == FRAME_END;
    IndexOfIsFirst(s, FRAME_END, 0, |content|);
  }

  /** A numeral holds no comma and nothing `trim` would remove. */
  lemma {:induction false} NumeralIsPlain(f: string)
    requires IsNumeral(f)
    ensures FIELD_SEPARATOR !in f && Trim(f) == f
  {
    assert f[0] in NUMERAL_CHARS && f[|f| - 1] in NUMERAL_CHARS;
    forall j | 0 <= j < |f| ensures f[j] != FIELD_SEPARATOR {
      assert f[j] in NUMERAL_CHARS;
    }
  }

  /** Six numerals joined by commas decode to the six values they encode. */
  lemma {:induction false} DecodeEncodedFields<V>(fields: seq<string>, values: seq<V>, parse: string -> Option<V>)
    requires Encodes(fields, values, parse)
    ensures DecodeFrame(Join(fields, FIELD_SEPARATOR), parse) == Some(values)
  {
    var text := Join(fields, FIELD_SEPARATOR);
    SplitOfNumerals(fields);
    var r := ParseFields(fields, parse);
    assert r.Some?;
    assert r.value == values;
  }

  /** Six numerals joined by commas are trimmed to themselves and split back into the six. */
  lemma {:induction false} SplitOfNumerals(fields: seq<string>)
    requires |fields| == FIELD_COUNT && forall i :: 0 <= i < |fields| ==> IsNumeral(fields[i])
    ensures Split(Trim(Join(fields, FIELD_SEPARATOR)), FIELD_SEPARATOR) == fields
    ensures forall i :: 0 <= i < |fields| ==> Trim(fields[i]) == fields[i]
  {
    var text := Join(fields, FIELD_SEPARATOR);
    forall i | 0 <= i < |fields| ensures FIELD_SEPARATOR !in fields[i] && Trim(fields[i]) == fields[i] {
      NumeralIsPlain(fields[i]);
    }
    JoinFirst(fields, FIELD_SEPARATOR);
    JoinLast(fields, FIELD_SEPARATOR);
    assert fields[0][0] in NUMERAL_CHARS && fields[5][|fields[5]| - 1] in NUMERAL_CHARS;
    assert Trim(text) == text;
    SplitOfJoin(fields, FIELD_SEPARATOR);
  }

  /**
    Round trip: a response frame for six numerals, received in one piece,
    yields exactly their six values and leaves the buffer empty.
  */
  lemma {:induction false} ResponseRoundTrip<V>(fields: seq<string>, values: seq<V>, parse: string -> Option<V>)
    requires Encodes(fields, values, parse)
    ensures ProcessBuffer(ResponseFrame(fields), parse) == Processed([], [values])
  {
    var text := Join(fields, FIELD_SEPARATOR);
    ResponseFrameTokenFree(fields);
    ResponseFrameScanned(fields);
    DecodeEncodedFields(fields, values, parse);
    assert [text][1..] == [];
  }

  /** A response frame of numerals holds no handshake token. */
  lemma {:induction false} ResponseFrameTokenFree(fields: seq<string>)
    requires forall i :: 0 <= i < |fields| ==> IsNumeral(fields[i])
    ensures AfterHandshakeToken(ResponseFrame(fields)) == ResponseFrame(fields)
  {
    JoinOfNumeralsChars(fields, 'c');
    NoOccurrenceWithoutFirstChar(ResponseFrame(fields), HANDSHAKE_TOKEN);
    ContainsMeaning(ResponseFrame(fields), HANDSHAKE_TOKEN);
  }

  /** The frame loop finds a response frame of numerals whole, and nothing else. */
  lemma {:induction false} ResponseFrameScanned(fields: seq<string>)
    requires forall i :: 0 <= i < |fields| ==> IsNumeral(fields[i])
    ensures ScanFrames(ResponseFrame(fields)) == Scan([], [Join(fields, FIELD_SEPARATOR)])
  {
    var text := Join(fields, FIELD_SEPARATOR);
    JoinOfNumeralsChars(fields, 'C');
    FrameEndFirst(text);
    assert IndexOf([] + FRAME_START, FRAME_START, 0) == 0 by {
      assert ([] + FRAME_START)[0..4] == FRAME_START;
    }
    ScanFirstFrame([], text, []);
    assert [] + FRAME_START + text + FRAME_END + [] == ResponseFrame(fields);
    assert ScanFrames([]) == Scan([], []) by {
      assert IndexOf([], FRAME_START, 0) == -1;
    }
    assert [text] + [] == [text];
  }

  /**
    The frame loop, part way through: what the buffer `data` still yields
    once `readings` have been reported is what the whole buffer `whole`
    yields from the start.
  */
  ghost predicate FrameLoopAgrees<V>(whole: string, data: string, readings: seq<seq<V>>, parse: string -> Option<V>)
  {
    ScanFrames(whole).rest == ScanFrames(data).rest &&
    Readings(ScanFrames(whole).frames, parse) == readings + Readings(ScanFrames(data).frames, parse)
  }

  /** Before the first pass nothing is reported and the whole buffer is still to come. */
  lemma {:induction false} FrameLoopStarts<V>(whole: string, parse: string -> Option<V>)
    ensures FrameLoopAgrees(whole, whole, [], parse)
  {
    assert [] + Readings(ScanFrames(whole).frames, parse) == Readings(ScanFrames(whole).frames, parse);
  }

  /** A pass over a complete frame reports what its text decodes to and deletes through its `CDDC`. */
  lemma {:induction false} FrameLoopComplete<V>(whole: string, data: string, readings: seq<seq<V>>,
                                                start: nat, end: nat, parse: string -> Option<V>)
    requires Locate(data) == CompleteFrame(start, end)
    requires FrameLoopAgrees(whole, data, readings, parse)
    ensures FrameLoopAgrees(whole, data[end + 4..], readings + Emit(DecodeFrame(data[start + 4..end], parse)), parse)
  {
    var tail := data[end + 4..];
    var text := data[start + 4..end];
    CompleteFrameTail(data, start, end, tail, text);
    ReadingsCons(text, ScanFrames(tail).frames, parse);
    ReadingsRegrouped(Readings(ScanFrames(whole).frames, parse), readings, Emit(DecodeFrame(text, parse)),
                      Readings(ScanFrames(data).frames, parse), Readings(ScanFrames(tail).frames, parse));
  }

  /** Moving one frame's readings from what is still to come to what was reported. */
  lemma {:induction false} ReadingsRegrouped<V>(all: seq<seq<V>>, reported: seq<seq<V>>, here: seq<seq<V>>,
                                                toCome: seq<seq<V>>, after: seq<seq<V>>)
    requires all == reported + toCome && toCome == here + after
    ensures all == (reported + here) + after
  {
  }

  /** `Readings` of a frame list is that of its head followed by that of its tail. */
  lemma {:induction false} ReadingsCons<V>(text: string, frames: seq<string>, parse: string -> Option<V>)
    ensures Readings([text] + frames, parse) == Emit(DecodeFrame(text, parse)) + Readings(frames, parse)
  {
    assert ([text] + frames)[1..] == frames;
  }

  /** The last pass, over a partial frame: the loop has reported everything. */
  lemma {:induction false} FrameLoopPartial<V>(whole: string, data: string, readings: seq<seq<V>>, parse: string -> Option<V>)
    requires Locate(data).PartialFrame?
    requires FrameLoopAgrees(whole, data, readings, parse)
    ensures ScanFrames(whole).rest == KeepPartialFrame(data, Locate(data).start)
    ensures Readings(ScanFrames(whole).frames, parse) == readings
  {
    PartialFrameStep(data);
    assert readings + [] == readings;
  }

  /** The loop ends with no `ABBA` left: the buffer is what remains and everything was reported. */
  lemma {:induction false} FrameLoopNone<V>(whole: string, data: string, readings: seq<seq<V>>, parse: string -> Option<V>)
    requires Locate(data).NoFrame?
    requires FrameLoopAgrees(whole, data, readings, parse)
    ensures ScanFrames(whole).rest == data
    ensures Readings(ScanFrames(whole).frames, parse) == readings
  {
    NoFrameSettled(data);
    assert readings + [] == readings;
  }
}
