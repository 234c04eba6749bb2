/**
 Docker's multiplexed log stream: frames of an 8-byte header and a payload of
 newline-terminated lines, each line optionally led by a timestamp.

 Go strings are byte sequences. Whether a prefix is an RFC 3339 timestamp is the
 parameter `isTimestamp`; the empty string is not one.
 */
module LogFrames {
  import opened Wrappers

  type byte = x: int | 0 <= x < 256

  const NL: byte := 10
  const CR: byte := 13
  const SPACE: byte := 32
  const HEADER := 8

  datatype StreamType = Stdout | Stderr

  datatype LogLine = LogLine(text: seq<byte>, timestamp: seq<byte>, stream: StreamType)

  // ----- lines -----

  function IndexOf(s: seq<byte>, b: byte): (r: int)
    ensures -1 <= r < |s|
    ensures r >= 0 ==> s[r] == b && forall i :: 0 <= i < r ==> s[i] != b
    ensures r < 0 ==> b !in s
  {
    if s == [] then -1
    else if s[0] == b then 0
    else
      var k := IndexOf(s[1..], b);
      assert forall i :: 1 <= i < |s| ==> s[i] == s[1..][i - 1];
      if k < 0 then -1 else k + 1
  }

  /** `strings.Split(s, "\n")`. */
  function Split(s: seq<byte>): (r: seq<seq<byte>>)
    ensures |r| >= 1
    decreases |s|
  {
    var k := IndexOf(s, NL);
    if k < 0 then [s] else [s[..k]] + Split(s[k + 1..])
  }

  /** The pieces but for an empty last one. */
  function DropEmptyLast(pieces: seq<seq<byte>>): seq<seq<byte>>
    requires |pieces| >= 1
  {
    if pieces[|pieces| - 1] == [] then pieces[..|pieces| - 1] else pieces
  }

  function Lines(payload: seq<byte>): seq<seq<byte>> {
    DropEmptyLast(Split(payload))
  }

  function TrimCR(line: seq<byte>): seq<byte> {
    if line != [] && line[|line| - 1] == CR then line[..|line| - 1] else line
  }

  function ParseLine(isTimestamp: seq<byte> -> bool, line: seq<byte>, stream: StreamType): LogLine {
    var k := IndexOf(line, SPACE);
    if k >= 0 && isTimestamp(line[..k]) then LogLine(line[k + 1..], line[..k], stream) else LogLine(line, [], stream)
  }

  function StreamOf(kind: byte): StreamType {
    if kind == 2 then Stderr else Stdout
  }

  function ParseAll(isTimestamp: seq<byte> -> bool, lines: seq<seq<byte>>, stream: StreamType): (r: seq<LogLine>)
    ensures |r| == |lines|
    ensures forall i :: 0 <= i < |lines| ==> r[i] == ParseLine(isTimestamp, TrimCR(lines[i]), stream)
  {
    seq(|lines|, i requires 0 <= i < |lines| => ParseLine(isTimestamp, TrimCR(lines[i]), stream))
  }

  // ----- frames -----

  function BigEndian(b: seq<byte>): (n: nat)
    requires |b| == 4
    ensures n == b[0] as int * 16_777_216 + b[1] as int * 65_536 + b[2] as int * 256 + b[3] as int
  {
    (((b[0] as int) * 256 + b[1] as int) * 256 + b[2] as int) * 256 + b[3] as int
  }

  function ToBigEndian(n: nat): (r: seq<byte>)
    requires n < 0x1_0000_0000
    ensures |r| == 4 && BigEndian(r) == n
  {
    var n1 := n / 256;
    var n2 := n1 / 256;
    var n3 := n2 / 256;
    [n3, n2 % 256, n1 % 256, n % 256]
  }

  /** What the decoder sends for a byte stream that ends where `stream` ends. */
  function Decode(isTimestamp: seq<byte> -> bool, stream: seq<byte>): seq<LogLine>
    decreases |stream|
  {
    if |stream| < HEADER then []
    else
      var size := BigEndian(stream[4..8]);
      if |stream| < HEADER + size then []
      else ParseAll(isTimestamp, Lines(stream[HEADER..HEADER + size]), StreamOf(stream[0]))
           + Decode(isTimestamp, stream[HEADER + size..])
  }

  /** A frame as the daemon writes it; the decoder does not look at the padding. */
  datatype Frame = Frame(kind: byte, padding: seq<byte>, payload: seq<byte>)

  predicate WellFormed(f: Frame) {
    |f.padding| == 3 && |f.payload| < 0x1_0000_0000
  }

  function Encode(f: Frame): (r: seq<byte>)
    requires WellFormed(f)
    ensures |r| == HEADER + |f.payload|
  {
    [f.kind] + f.padding + ToBigEndian(|f.payload|) + f.payload
  }

  function EncodeAll(frames: seq<Frame>): seq<byte>
    requires forall i :: 0 <= i < |frames| ==> WellFormed(frames[i])
  {
    if frames == [] then [] else Encode(frames[0]) + EncodeAll(frames[1..])
  }

  function FrameLines(isTimestamp: seq<byte> -> bool, f: Frame): seq<LogLine> {
    ParseAll(isTimestamp, Lines(f.payload), StreamOf(f.kind))
  }

  function AllLines(isTimestamp: seq<byte> -> bool, frames: seq<Frame>): seq<LogLine> {
    if frames == [] then [] else FrameLines(isTimestamp, frames[0]) + AllLines(isTimestamp, frames[1..])
  }

  /** How many leading frames end within the first `cut` bytes. */
  function Complete(frames: seq<Frame>, cut: nat): (r: nat)
    requires forall i :: 0 <= i < |frames| ==> WellFormed(frames[i])
    ensures r <= |frames|
  {
    if frames == [] || |Encode(frames[0])| > cut then 0
    else 1 + Complete(frames[1..], cut - |Encode(frames[0])|)
  }

  /** Decoding a stream that starts with a whole frame. */
  lemma DecodeFirst(isTimestamp: seq<byte> -> bool, f: Frame, rest: seq<byte>)
    requires WellFormed(f)
    ensures Decode(isTimestamp, Encode(f) + rest) == FrameLines(isTimestamp, f) + Decode(isTimestamp, rest)
  {
    var stream := Encode(f) + rest;
    assert stream[4..8] == ToBigEndian(|f.payload|);
    assert stream[HEADER..HEADER + |f.payload|] == f.payload;
    assert stream[HEADER + |f.payload|..] == rest;
    assert stream[0] == f.kind;
  }

  /** A frame cut anywhere before its end yields nothing. */
  lemma DecodePartial(isTimestamp: seq<byte> -> bool, f: Frame, rest: seq<byte>, cut: nat)
    requires WellFormed(f) && cut < |Encode(f)|
    ensures Decode(isTimestamp, (Encode(f) + rest)[..cut]) == []
  {
    var stream := (Encode(f) + rest)[..cut];
    if cut >= HEADER {
      assert stream[4..8] == ToBigEndian(|f.payload|);
    }
  }

  lemma CutAfterFirst(f: seq<byte>, rest: seq<byte>, cut: nat)
    requires |f| <= cut <= |f| + |rest|
    ensures (f + rest)[..cut] == f + rest[..cut - |f|]
  {
  }

  lemma {:induction false} AllLinesFirst(isTimestamp: seq<byte> -> bool, frames: seq<Frame>, n: nat)
    requires n < |frames|
    ensures AllLines(isTimestamp, frames[..n + 1]) ==
            FrameLines(isTimestamp, frames[0]) + AllLines(isTimestamp, frames[1..][..n])
  {
    assert frames[..n + 1][1..] == frames[1..][..n];
  }

  /** Cutting the stream anywhere yields exactly the lines of the frames that are complete. */
  lemma {:induction false} TruncationKeepsCompleteFrames(isTimestamp: seq<byte> -> bool, frames: seq<Frame>, cut: nat)
    requires forall i :: 0 <= i < |frames| ==> WellFormed(frames[i])
    requires cut <= |EncodeAll(frames)|
    ensures Decode(isTimestamp, EncodeAll(frames)[..cut]) == AllLines(isTimestamp, frames[..Complete(frames, cut)])
    decreases |frames|
  {
    if frames != [] {
      var first, rest := Encode(frames[0]), EncodeAll(frames[1..]);
      if |first| > cut {
        DecodePartial(isTimestamp, frames[0], rest, cut);
      } else {
        var cut' := cut - |first|;
        CutAfterFirst(first, rest, cut);
        DecodeFirst(isTimestamp, frames[0], rest[..cut']);
        AllLinesFirst(isTimestamp, frames, Complete(frames[1..], cut'));
        TruncationKeepsCompleteFrames(isTimestamp, frames[1..], cut');
      }
    }
  }

  lemma {:induction false} CompleteAll(frames: seq<Frame>)
    requires forall i :: 0 <= i < |frames| ==> WellFormed(frames[i])
    ensures Complete(frames, |EncodeAll(frames)|) == |frames|
    decreases |frames|
  {
    if frames != [] {
      CompleteAll(frames[1..]);
    }
  }

  lemma TakeAll<T>(s: seq<T>)
    ensures s[..|s|] == s
  {
  }

  /** Decoding any concatenation of encoded frames yields every line of every frame, in order. */
  lemma DecodeEncodeAll(isTimestamp: seq<byte> -> bool, frames: seq<Frame>)
    requires forall i :: 0 <= i < |frames| ==> WellFormed(frames[i])
    ensures Decode(isTimestamp, EncodeAll(frames)) == AllLines(isTimestamp, frames)
  {
    CompleteAll(frames);
    TakeAll(EncodeAll(frames));
    TakeAll(frames);
    TruncationKeepsCompleteFrames(isTimestamp, frames, |EncodeAll(frames)|);
  }

  // ----- lines survive the trip -----

  /** The payload of lines, each ended by a newline. */
  function Terminated(lines: seq<seq<byte>>): seq<byte> {
    if lines == [] then [] else lines[0] + [NL] + Terminated(lines[1..])
  }

  lemma SplitFirst(line: seq<byte>, rest: seq<byte>)
    requires NL !in line
    ensures Split(line + [NL] + rest) == [line] + Split(rest)
  {
    var s := line + [NL] + rest;
    assert s[|line|] == NL;
    assert forall i :: 0 <= i < |line| ==> s[i] == line[i];
    assert s[..|line|] == line && s[|line| + 1..] == rest;
  }

  /** Splitting finds the lines again, and what follows the last newline. */
  lemma {:induction false} SplitTerminated(lines: seq<seq<byte>>, tail: seq<byte>)
    requires forall i :: 0 <= i < |lines| ==> NL !in lines[i]
    requires NL !in tail
    ensures Split(Terminated(lines) + tail) == lines + [tail]
    decreases |lines|
  {
    if lines == [] {
      assert Terminated(lines) + tail == tail;
    } else {
      SplitTerminated(lines[1..], tail);
      var rest := Terminated(lines[1..]) + tail;
      assert Terminated(lines) + tail == lines[0] + [NL] + rest;
      SplitFirst(lines[0], rest);
      assert [lines[0]] + (lines[1..] + [tail]) == lines + [tail];
    }
  }

  lemma CutAtNewline(s: seq<byte>, k: nat)
    requires k < |s| && s[k] == NL
    ensures s[..k] + [NL] + (s[k + 1..] + [NL]) == s + [NL]
  {
  }

  /** Any payload is its lines again: no byte is lost. */
  lemma {:induction false} SplitLosesNothing(s: seq<byte>)
    ensures Terminated(Split(s)) == s + [NL]
    decreases |s|
  {
    var k := IndexOf(s, NL);
    if k < 0 {
      TerminatedFirst(s, []);
      assert [s] + [] == [s];
    } else {
      var first, rest := s[..k], s[k + 1..];
      SplitLosesNothing(rest);
      TerminatedFirst(first, Split(rest));
      CutAtNewline(s, k);
    }
  }

  /** No line contains a newline. */
  lemma {:induction false} SplitHasNoNewline(s: seq<byte>)
    ensures forall i :: 0 <= i < |Split(s)| ==> NL !in Split(s)[i]
    decreases |s|
  {
    var k := IndexOf(s, NL);
    if k >= 0 {
      SplitHasNoNewline(s[k + 1..]);
    }
  }

  lemma {:induction false} TerminatedSnoc(lines: seq<seq<byte>>, tail: seq<byte>)
    ensures Terminated(lines + [tail]) == Terminated(lines) + tail + [NL]
    decreases |lines|
  {
    if lines == [] {
      assert lines + [tail] == [tail] + [];
      TerminatedFirst(tail, []);
    } else {
      TerminatedSnoc(lines[1..], tail);
      assert lines + [tail] == [lines[0]] + (lines[1..] + [tail]);
      TerminatedFirst(lines[0], lines[1..] + [tail]);
    }
  }

  /**
   The pieces of a payload are the only newline-free ones that make it up when each but the
   last is followed by a newline.
   */
  lemma SplitIsUnique(s: seq<byte>, lines: seq<seq<byte>>, tail: seq<byte>)
    ensures Split(s) == lines + [tail] <==>
            Terminated(lines) + tail == s && NL !in tail && forall i :: 0 <= i < |lines| ==> NL !in lines[i]
  {
    if Split(s) == lines + [tail] {
      SplitHasNoNewline(s);
      SplitLosesNothing(s);
      TerminatedSnoc(lines, tail);
      assert (lines + [tail])[|lines|] == tail;
      assert forall i :: 0 <= i < |lines| ==> (lines + [tail])[i] == lines[i];
      SameBeforeLast(s, Terminated(lines) + tail, NL);
    } else if Terminated(lines) + tail == s && NL !in tail && forall i :: 0 <= i < |lines| ==> NL !in lines[i] {
      SplitTerminated(lines, tail);
    }
  }

  lemma SameBeforeLast(a: seq<byte>, b: seq<byte>, x: byte)
    requires a + [x] == b + [x]
    ensures a == b
  {
    assert (a + [x])[..|a|] == a && (b + [x])[..|b|] == b;
  }

  lemma TerminatedFirst(line: seq<byte>, lines: seq<seq<byte>>)
    ensures Terminated([line] + lines) == line + [NL] + Terminated(lines)
  {
    assert ([line] + lines)[1..] == lines;
  }

  /** The line a message was made from. */
  function Rebuild(l: LogLine): seq<byte> {
    if l.timestamp == [] then l.text else l.timestamp + [SPACE] + l.text
  }

  /** Timestamp and text make up the line. */
  lemma ParseLosesNothing(isTimestamp: seq<byte> -> bool, line: seq<byte>, stream: StreamType)
    requires !isTimestamp([])
    ensures Rebuild(ParseLine(isTimestamp, line, stream)) == line
    ensures ParseLine(isTimestamp, line, stream).stream == stream
  {
    var k := IndexOf(line, SPACE);
    if k >= 0 {
      assert line[..k] + [SPACE] + line[k + 1..] == line;
    }
  }

  /** A message is from stderr exactly when the first byte of its frame is 2. */
  lemma FrameStream(isTimestamp: seq<byte> -> bool, f: Frame)
    ensures forall m :: m in FrameLines(isTimestamp, f) ==> (m.stream == Stderr <==> f.kind == 2)
  {
  }

  // ----- the whole trip -----

  /** A line as a container writes it, with or without a timestamp in front, ended by CR LF or by LF alone. */
  datatype Line = Line(timestamp: Option<seq<byte>>, text: seq<byte>, cr: bool)

  function Raw(l: Line): seq<byte> {
    match l.timestamp
    case Some(t) => t + [32] + l.text
    case None => l.text
  }

  function Bytes(l: Line): seq<byte> {
    if l.cr then Raw(l) + [13] else Raw(l)
  }

  /**
   What makes a line one line, and tells its timestamp from its text: no newline in it, no
   carriage return at its end but the one that belongs there, no space in the timestamp, and
   no timestamp in front of the first space of a line that has none.
   */
  ghost predicate Legible(isTimestamp: seq<byte> -> bool, l: Line) {
    && 10 !in Raw(l)
    && (!l.cr && Raw(l) != [] ==> Raw(l)[|Raw(l)| - 1] != 13)
    && (l.timestamp.Some? ==> isTimestamp(l.timestamp.value) && 32 !in l.timestamp.value)
    && (l.timestamp.None? ==>
          forall k :: 0 <= k < |l.text| && l.text[k] == 32 && 32 !in l.text[..k] ==> !isTimestamp(l.text[..k]))
  }

  /** A batch of lines of one stream, written as one frame. */
  datatype Batch = Batch(stream: StreamType, padding: seq<byte>, lines: seq<Line>)

  function Payload(lines: seq<Line>): seq<byte> {
    if lines == [] then [] else Bytes(lines[0]) + [10] + Payload(lines[1..])
  }

  ghost predicate Sendable(isTimestamp: seq<byte> -> bool, b: Batch) {
    && |b.padding| == 3 && |Payload(b.lines)| < 0x1_0000_0000
    && forall i :: 0 <= i < |b.lines| ==> Legible(isTimestamp, b.lines[i])
  }

  /** The daemon's numbers for the streams. */
  function ToFrame(b: Batch): Frame {
    Frame(if b.stream == Stdout then 1 else 2, b.padding, Payload(b.lines))
  }

  /** The message a line should arrive as. */
  function Arriving(l: Line, stream: StreamType): LogLine {
    LogLine(l.text, if l.timestamp.Some? then l.timestamp.value else [], stream)
  }

  function Delivered(b: Batch): seq<LogLine> {
    seq(|b.lines|, i requires 0 <= i < |b.lines| => Arriving(b.lines[i], b.stream))
  }

  function AllDelivered(batches: seq<Batch>): seq<LogLine> {
    if batches == [] then [] else Delivered(batches[0]) + AllDelivered(batches[1..])
  }

  lemma FirstSpace(line: seq<byte>, k: nat)
    requires k < |line| && line[k] == 32 && 32 !in line[..k]
    ensures IndexOf(line, SPACE) == k
  {
  }

  lemma BytesTrimmed(isTimestamp: seq<byte> -> bool, l: Line)
    requires Legible(isTimestamp, l)
    ensures TrimCR(Bytes(l)) == Raw(l)
  {
    if l.cr {
      assert (Raw(l) + [13])[..|Raw(l)|] == Raw(l);
    }
  }

  /** What is before the first space is the timestamp, if it is one, and what follows the space is the text. */
  lemma StampedLine(isTimestamp: seq<byte> -> bool, t: seq<byte>, text: seq<byte>, stream: StreamType)
    requires isTimestamp(t) && 32 !in t
    ensures ParseLine(isTimestamp, t + [32] + text, stream) == LogLine(text, t, stream)
  {
    var line := t + [32] + text;
    assert line[..|t|] == t && line[|t|] == 32 && line[|t| + 1..] == text;
    FirstSpace(line, |t|);
  }

  /** Otherwise the whole line is the text. */
  lemma BareLine(isTimestamp: seq<byte> -> bool, text: seq<byte>, stream: StreamType)
    requires forall k :: 0 <= k < |text| && text[k] == 32 && 32 !in text[..k] ==> !isTimestamp(text[..k])
    ensures ParseLine(isTimestamp, text, stream) == LogLine(text, [], stream)
  {
    var k := IndexOf(text, SPACE);
    if k >= 0 {
      assert text[k] == 32 && 32 !in text[..k];
    }
  }

  /** A line arrives with its timestamp, its text and nothing else. */
  lemma LineRoundTrip(isTimestamp: seq<byte> -> bool, l: Line, stream: StreamType)
    requires Legible(isTimestamp, l)
    ensures ParseLine(isTimestamp, TrimCR(Bytes(l)), stream) == Arriving(l, stream)
  {
    BytesTrimmed(isTimestamp, l);
    if l.timestamp.Some? {
      StampedLine(isTimestamp, l.timestamp.value, l.text, stream);
    } else {
      BareLine(isTimestamp, l.text, stream);
    }
  }

  function AllBytes(lines: seq<Line>): (r: seq<seq<byte>>)
    ensures |r| == |lines| && forall i :: 0 <= i < |r| ==> r[i] == Bytes(lines[i])
  {
    seq(|lines|, i requires 0 <= i < |lines| => Bytes(lines[i]))
  }

  lemma {:induction false} PayloadIsTerminated(lines: seq<Line>)
    ensures Payload(lines) == Terminated(AllBytes(lines))
    decreases |lines|
  {
    if lines != [] {
      PayloadIsTerminated(lines[1..]);
      assert AllBytes(lines)[1..] == AllBytes(lines[1..]);
    }
  }

  lemma BytesHaveNoNewline(isTimestamp: seq<byte> -> bool, l: Line)
    requires Legible(isTimestamp, l)
    ensures NL !in Bytes(l)
  {
  }

  lemma LinesOfPayload(isTimestamp: seq<byte> -> bool, lines: seq<Line>)
    requires forall i :: 0 <= i < |lines| ==> Legible(isTimestamp, lines[i])
    ensures Lines(Payload(lines)) == AllBytes(lines)
  {
    forall i | 0 <= i < |lines|
      ensures NL !in AllBytes(lines)[i]
    {
      BytesHaveNoNewline(isTimestamp, lines[i]);
    }
    PayloadIsTerminated(lines);
    SplitTerminated(AllBytes(lines), []);
    assert Terminated(AllBytes(lines)) + [] == Payload(lines);
    assert (AllBytes(lines) + [[]])[..|lines|] == AllBytes(lines);
  }

  lemma LinesArrive(isTimestamp: seq<byte> -> bool, b: Batch)
    requires forall i :: 0 <= i < |b.lines| ==> Legible(isTimestamp, b.lines[i])
    ensures ParseAll(isTimestamp, AllBytes(b.lines), b.stream) == Delivered(b)
  {
    forall i | 0 <= i < |b.lines|
      ensures ParseLine(isTimestamp, TrimCR(AllBytes(b.lines)[i]), b.stream) == Arriving(b.lines[i], b.stream)
    {
      LineRoundTrip(isTimestamp, b.lines[i], b.stream);
    }
  }

  /** One frame gives back exactly its lines, in order, with their timestamps and their stream. */
  lemma BatchRoundTrip(isTimestamp: seq<byte> -> bool, b: Batch)
    requires Sendable(isTimestamp, b)
    ensures FrameLines(isTimestamp, ToFrame(b)) == Delivered(b)
  {
    LinesOfPayload(isTimestamp, b.lines);
    LinesArrive(isTimestamp, b);
  }

  function Frames(batches: seq<Batch>): (r: seq<Frame>)
    ensures |r| == |batches| && forall i :: 0 <= i < |r| ==> r[i] == ToFrame(batches[i])
  {
    seq(|batches|, i requires 0 <= i < |batches| => ToFrame(batches[i]))
  }

  lemma FramesPrefix(batches: seq<Batch>, n: nat)
    requires n <= |batches|
    ensures Frames(batches)[..n] == Frames(batches[..n])
  {
  }

  lemma {:induction false} LinesAreDelivered(isTimestamp: seq<byte> -> bool, batches: seq<Batch>)
    requires forall i :: 0 <= i < |batches| ==> Sendable(isTimestamp, batches[i])
    ensures AllLines(isTimestamp, Frames(batches)) == AllDelivered(batches)
    decreases |batches|
  {
    if batches != [] {
      BatchRoundTrip(isTimestamp, batches[0]);
      LinesAreDelivered(isTimestamp, batches[1..]);
      assert Frames(batches)[1..] == Frames(batches[1..]);
    }
  }

  /** The bytes the daemon writes for the batches. */
  ghost function Sent(isTimestamp: seq<byte> -> bool, batches: seq<Batch>): seq<byte>
    requires forall i :: 0 <= i < |batches| ==> Sendable(isTimestamp, batches[i])
  {
    assert forall i :: 0 <= i < |batches| ==> Sendable(isTimestamp, batches[i]) && WellFormed(Frames(batches)[i]);
    EncodeAll(Frames(batches))
  }

  /**
   The whole trip: whatever was written, batch by batch, and wherever the stream is cut, the
   messages are exactly the lines of the batches that arrived whole, in order, each with its
   text, its timestamp if it had one, and its stream.
   */
  lemma StreamRoundTrip(isTimestamp: seq<byte> -> bool, batches: seq<Batch>, cut: nat) returns (n: nat)
    requires forall i :: 0 <= i < |batches| ==> Sendable(isTimestamp, batches[i])
    requires cut <= |Sent(isTimestamp, batches)|
    ensures n <= |batches| && Decode(isTimestamp, Sent(isTimestamp, batches)[..cut]) == AllDelivered(batches[..n])
    ensures |Sent(isTimestamp, batches[..n])| <= cut
    ensures n < |batches| ==> cut < |Sent(isTimestamp, batches[..n + 1])|
  {
    assert forall i :: 0 <= i < |batches| ==> Sendable(isTimestamp, batches[i]) && WellFormed(Frames(batches)[i]);
    n := Complete(Frames(batches), cut);
    TruncationKeepsCompleteFrames(isTimestamp, Frames(batches), cut);
    FramesPrefix(batches, n);
    LinesAreDelivered(isTimestamp, batches[..n]);
    CompleteFits(Frames(batches), cut);
    if n < |batches| {
      FramesPrefix(batches, n + 1);
    }
  }

  /** The complete frames are those that fit before the cut. */
  lemma {:induction false} CompleteFits(frames: seq<Frame>, cut: nat)
    requires forall i :: 0 <= i < |frames| ==> WellFormed(frames[i])
    ensures var n := Complete(frames, cut);
            && |EncodeAll(frames[..n])| <= cut
            && (n < |frames| ==> cut < |EncodeAll(frames[..n + 1])|)
    decreases |frames|
  {
    if frames != [] {
      var n := Complete(frames, cut);
      if n == 0 {
        assert frames[..1][1..] == [];
      } else {
        CompleteFits(frames[1..], cut - |Encode(frames[0])|);
        assert frames[..n][1..] == frames[1..][..n - 1];
        if n < |frames| {
          assert frames[..n + 1][1..] == frames[1..][..n];
        }
      }
    }
  }

  // ----- the read loop -----

  /** A reader over the bytes that will ever arrive. */
  class Reader {
    const data: seq<byte>
    var pos: nat

    ghost predicate Valid()
      reads this
    {
      pos <= |data|
    }

    ghost function Remaining(): seq<byte>
      requires Valid()
      reads this
    {
      data[pos..]
    }

    constructor (data: seq<byte>)
      ensures Valid() && this.data == data && pos == 0
    {
      this.data := data;
      pos := 0;
    }

    /** Fills the buffer, or fails at the end of the data. */
    method ReadFull(buffer: array<byte>) returns (ok: bool)
      requires Valid()
      modifies this, buffer
      ensures Valid()
      ensures ok <==> buffer.Length <= |old(Remaining())|
      ensures ok ==> buffer[..] == old(Remaining())[..buffer.Length] && Remaining() == old(Remaining())[buffer.Length..]
    {
      ok := buffer.Length <= |data| - pos;
      if ok {
        forall i | 0 <= i < buffer.Length {
          buffer[i] := data[pos + i];
        }
        pos := pos + buffer.Length;
      } else {
        pos := |data|;
      }
    }
  }

  /**
   The message of a line: without its carriage return, split at the first space if what is
   before that is a timestamp, and from stderr exactly for kind 2.
   */
  ghost predicate Tells(isTimestamp: seq<byte> -> bool, m: LogLine, rawLine: seq<byte>, kind: byte) {
    var line := if rawLine != [] && rawLine[|rawLine| - 1] == 13 then rawLine[..|rawLine| - 1] else rawLine;
    && (m.stream == Stderr <==> kind == 2)
    && (32 !in line ==> m.text == line && m.timestamp == [])
    && (forall k :: 0 <= k < |line| && line[k] == 32 && 32 !in line[..k] ==>
          if isTimestamp(line[..k]) then m.timestamp == line[..k] && m.text == line[k + 1..]
          else m.timestamp == [] && m.text == line)
  }

  method ToMessage(isTimestamp: seq<byte> -> bool, rawLine: seq<byte>, kind: byte) returns (m: LogLine)
    ensures m == ParseLine(isTimestamp, TrimCR(rawLine), StreamOf(kind))
  {
    var line := TrimCR(rawLine);
    var timestamp, text := [], line;
    var idx := IndexOf(line, SPACE);
    if idx != -1 {
      var potential := line[..idx];
      if isTimestamp(potential) {
        timestamp, text := potential, line[idx + 1..];
      }
    }
    var stream := Stdout;
    if kind == 2 {
      stream := Stderr;
    }
    m := LogLine(text, timestamp, stream);
  }

  lemma ParseTells(isTimestamp: seq<byte> -> bool, rawLine: seq<byte>, kind: byte)
    ensures Tells(isTimestamp, ParseLine(isTimestamp, TrimCR(rawLine), StreamOf(kind)), rawLine, kind)
  {
    var line := TrimCR(rawLine);
    forall k | 0 <= k < |line| && line[k] == 32 && 32 !in line[..k]
      ensures k == IndexOf(line, SPACE)
    {
      FirstSpace(line, k);
    }
  }

  lemma SentTell(isTimestamp: seq<byte> -> bool, lines: seq<seq<byte>>, sent: seq<LogLine>, kind: byte)
    requires |lines| >= 1 && |sent| == |DropEmptyLast(lines)|
    requires forall k :: 0 <= k < |sent| ==>
               sent[k] == ParseLine(isTimestamp, TrimCR(DropEmptyLast(lines)[k]), StreamOf(kind))
    ensures forall i :: 0 <= i < |sent| ==> Tells(isTimestamp, sent[i], lines[i], kind)
  {
    forall i | 0 <= i < |sent|
      ensures Tells(isTimestamp, sent[i], lines[i], kind)
    {
      ParseTells(isTimestamp, lines[i], kind);
    }
  }

  method SendLines(isTimestamp: seq<byte> -> bool, lines: seq<seq<byte>>, kind: byte) returns (sent: seq<LogLine>)
    requires |lines| >= 1
    ensures sent == ParseAll(isTimestamp, DropEmptyLast(lines), StreamOf(kind))
    ensures |sent| == if lines[|lines| - 1] == [] then |lines| - 1 else |lines|
    ensures forall i :: 0 <= i < |sent| ==> Tells(isTimestamp, sent[i], lines[i], kind)
  {
    sent := [];
    ghost var wanted := DropEmptyLast(lines);
    var i := 0;
    while i < |lines|
      invariant 0 <= i <= |wanted|
      invariant |sent| == i
      invariant forall k :: 0 <= k < i ==> sent[k] == ParseLine(isTimestamp, TrimCR(wanted[k]), StreamOf(kind))
    {
      if i == |lines| - 1 && lines[i] == [] {
        break;
      }
      var m := ToMessage(isTimestamp, lines[i], kind);
      sent := sent + [m];
      i := i + 1;
    }
    assert |sent| == |wanted|;
    SentTell(isTimestamp, lines, sent, kind);
  }

  /** One round of the loop, on what is left of the stream. */
  lemma DecodeRound(isTimestamp: seq<byte> -> bool, left: seq<byte>, header: seq<byte>, afterHeader: seq<byte>)
    requires |left| >= HEADER && header == left[..HEADER] && afterHeader == left[HEADER..]
    ensures var size := BigEndian(header[4..8]);
            Decode(isTimestamp, left) ==
              if |afterHeader| < size then []
              else
                ParseAll(isTimestamp, Lines(afterHeader[..size]), StreamOf(header[0]))
                  + Decode(isTimestamp, afterHeader[size..])
  {
    var size := BigEndian(header[4..8]);
    assert header[4..8] == left[4..8];
    if |afterHeader| >= size {
      assert afterHeader[..size] == left[HEADER..HEADER + size];
      assert afterHeader[size..] == left[HEADER + size..];
    }
  }

  /** Reads one frame through the shared header buffer, or fails where the data ends. */
  method ReadFrame(reader: Reader, header: array<byte>, ghost isTimestamp: seq<byte> -> bool)
    returns (ok: bool, kind: byte, payload: seq<byte>)
    requires reader.Valid() && header.Length == HEADER
    modifies reader, header
    ensures reader.Valid()
    ensures ok ==> |reader.Remaining()| + HEADER <= |old(reader.Remaining())|
    ensures Decode(isTimestamp, old(reader.Remaining())) ==
            if ok then ParseAll(isTimestamp, Lines(payload), StreamOf(kind)) + Decode(isTimestamp, reader.Remaining())
            else []
  {
    kind, payload := 0, [];
    ghost var left := reader.Remaining();
    ok := reader.ReadFull(header);
    if !ok {
      return;
    }
    ghost var bytes, afterHeader := header[..], reader.Remaining();
    DecodeRound(isTimestamp, left, bytes, afterHeader);
    kind := header[0];
    assert bytes[4..8] == header[4..8];
    var size := BigEndian(header[4..8]);
    var buffer := new byte[size];
    ok := reader.ReadFull(buffer);
    payload := buffer[..];
  }

  lemma Regroup(a: seq<LogLine>, b: seq<LogLine>, c: seq<LogLine>)
    ensures a + (b + c) == (a + b) + c
  {
  }

  /** Reads frame by frame until the data ends; each round uses at least the header. */
  method StreamLogs(isTimestamp: seq<byte> -> bool, data: seq<byte>) returns (sent: seq<LogLine>)
    ensures sent == Decode(isTimestamp, data)
  {
    sent := [];
    var reader := new Reader(data);
    var header := new byte[HEADER];
    var open := true;
    ghost var whole := Decode(isTimestamp, data);
    ghost var rest := whole;
    while open
      invariant reader.Valid() && fresh(reader) && fresh(header) && header.Length == HEADER
      invariant open ==> rest == Decode(isTimestamp, reader.Remaining())
      invariant !open ==> rest == []
      invariant whole == sent + rest
      decreases open, |reader.Remaining()|
    {
      var ok, kind, payload := ReadFrame(reader, header, isTimestamp);
      if ok {
        var lines := SendLines(isTimestamp, Split(payload), kind);
        rest := Decode(isTimestamp, reader.Remaining());
        Regroup(sent, lines, rest);
        sent := sent + lines;
      } else {
        open := false;
      }
    }
  }
}
