/** The neural engine's training run: the page posts a training request,
    reads the response body as a stream of text chunks and turns every
    `data: ` line into a terminal log line, until a `[STREAM_END]` frame.

    The network is abstracted into a `Reply` value (the status, and the
    decoded chunks the body yields); the wall-clock time stamp a log line
    gets is the parameter `stamp`, indexed by the position of the line in
    the log. */
module TrainingStream {
  import opened Wrappers
  import opened Strings

  const Esc: char := '\U{001B}'

  const DataPrefix: string := "data: "
  const StreamEnd: string := "[STREAM_END]"

  /** The single line the log is reset to when training starts. */
  const InitLine: string := [Esc] + "[33m[INIT] Connecting to training pipeline..." + [Esc] + "[0m"

  function Green(msg: string): string { [Esc] + "[32m" + msg + [Esc] + "[0m" }
  function Red(msg: string): string { [Esc] + "[31m" + msg + [Esc] + "[0m" }

  /** The red line the error handler appends, for an error whose text is
      `error`. */
  function FailLine(error: string): string { Red("[ERROR] Training failed: " + error) }

  /** What a read of the response body yields: decoded chunks, then either
      the end of the stream or a read failure with its text. */
  datatype Body = Body(chunks: seq<string>, readError: Option<string>)

  /** The outcome of the request: a failure before any response, or a
      response with its status and (possibly missing) body. */
  datatype Reply =
    | NetworkError(error: string)
    | Response(status: nat, body: Option<Body>)

  /** The page state a training run leaves behind. `statsFetches` counts
      the model-statistics refreshes the run triggers. */
  datatype Session = Session(logs: seq<string>, training: bool, statsFetches: nat)

  /** Progress through the lines: either still reading or stopped by a
      `[STREAM_END]` frame. */
  datatype Step = Reading(logs: seq<string>) | Ended(logs: seq<string>)

  /** What a `data: ` line carries: the end marker or a message. */
  datatype Frame = End | Message(text: string)

  /** The frame of a line: its payload is the line without the six
      characters of `data: `; lines without that prefix carry none. */
  function FrameOf(line: string): Option<Frame> {
    if StartsWith(line, DataPrefix) then
      if line[6..] == StreamEnd then Some(End) else Some(Message(line[6..]))
    else None
  }

  /** A line carries a frame iff it starts with `data: `; the frame is the
      end marker iff the line is exactly `data: [STREAM_END]`, and a
      message frame is the rest of the line. */
  lemma FrameOfLine(line: string)
    ensures FrameOf(line).Some? <==> StartsWith(line, DataPrefix)
    ensures FrameOf(line) == Some(End) <==> line == DataPrefix + StreamEnd
    ensures FrameOf(line).Some? && FrameOf(line).value.Message? ==> line == DataPrefix + FrameOf(line).value.text
  {
    if StartsWith(line, DataPrefix) {
      assert line == DataPrefix + line[6..];
    }
  }

  /** The log line for payload `msg`: green for `[DONE]`, red for
      `[ERROR]`, otherwise prefixed with the bracketed time stamp. */
  function LogLine(msg: string, time: string): string {
    if StartsWith(msg, "[DONE]") then Green(msg)
    else if StartsWith(msg, "[ERROR]") then Red(msg)
    else "[" + time + "] " + msg
  }

  /** The inner loop over the lines of one chunk. */
  function ConsumeLines(lines: seq<string>, logs: seq<string>, stamp: nat -> string): (r: Step)
    ensures logs <= r.logs
    ensures |r.logs| <= |logs| + |lines|
  {
    if |lines| == 0 then Reading(logs)
    else
      match FrameOf(lines[0])
      case None => ConsumeLines(lines[1..], logs, stamp)
      case Some(End) => Ended(logs)
      case Some(Message(msg)) => ConsumeLines(lines[1..], logs + [LogLine(msg, stamp(|logs|))], stamp)
  }

  /** The outer loop over the chunks: each chunk is split on newlines by
      itself, with nothing carried over to the next chunk. */
  function ConsumeChunks(chunks: seq<string>, logs: seq<string>, stamp: nat -> string): (r: Step)
    ensures logs <= r.logs
  {
    if |chunks| == 0 then Reading(logs)
    else
      match ConsumeLines(Lines(chunks[0]), logs, stamp)
      case Ended(l) => Ended(l)
      case Reading(l) => ConsumeChunks(chunks[1..], l, stamp)
  }

  /** `startTraining`. The log is reset to the single init line and then
      only appended to; the run always ends with `training` false. A
      failed request, a non-2xx status, a missing body or a failed read
      appends exactly one red failure line; a `[STREAM_END]` frame ends
      the run with no further line and refreshes the statistics twice
      (once before returning and once on the way out); a stream that
      simply ends appends nothing more. */
  function StartTraining(reply: Reply, stamp: nat -> string): (r: Session)
    ensures !r.training
    ensures |r.logs| >= 1 && r.logs[0] == InitLine
    ensures reply.NetworkError? ==> r.logs == [InitLine, FailLine(reply.error)]
    ensures reply.Response? && !Ok(reply.status) ==>
      r.logs == [InitLine, FailLine("Error: HTTP " + NatToString(reply.status))]
    ensures reply.Response? && Ok(reply.status) && reply.body.None? ==>
      r.logs == [InitLine, FailLine("Error: No response stream")]
    ensures reply.Response? && Ok(reply.status) && reply.body.Some? ==>
      var lines := ChunkLines(reply.body.value.chunks);
      var shown := [InitLine] + Render(UntilEnd(Frames(lines)), 1, stamp);
      if End in Frames(lines) then r.logs == shown && r.statsFetches == 2
      else if reply.body.value.readError.Some? then
        r.logs == shown + [FailLine(reply.body.value.readError.value)] && r.statsFetches == 1
      else r.logs == shown && r.statsFetches == 1
  {
    var start := [InitLine];
    match reply
    case NetworkError(e) => Session(start + [FailLine(e)], false, 1)
    case Response(status, body) =>
      if !Ok(status) then
        Session(start + [FailLine("Error: HTTP " + NatToString(status))], false, 1)
      else if body.None? then
        Session(start + [FailLine("Error: No response stream")], false, 1)
      else
        var b := body.value;
        ChunksAreLines(b.chunks, start, stamp);
        LinesFollowFrames(ChunkLines(b.chunks), start, stamp);
        LinesStopAtEnd(ChunkLines(b.chunks), start, stamp);
        match ConsumeChunks(b.chunks, start, stamp)
        case Ended(l) => Session(l, false, 2)
        case Reading(l) =>
          if b.readError.Some? then Session(l + [FailLine(b.readError.value)], false, 1)
          else Session(l, false, 1)
  }

  /** `response.ok`: a status in the 2xx range. */
  predicate Ok(status: nat) {
    200 <= status <= 299
  }

  // ---------------------------------------------------------------------
  // Reference reading: all lines, their frames, and the frames shown.

  /** The lines of one chunk. */
  function Lines(chunk: string): seq<string> {
    Split(chunk, '\n')
  }

  /** The lines of every chunk, in order. */
  function ChunkLines(chunks: seq<string>): seq<string> {
    FlatMap(Lines, chunks)
  }

  /** `f` of every element, concatenated. */
  function FlatMap<T, U>(f: T -> seq<U>, xs: seq<T>): seq<U> {
    if |xs| == 0 then [] else f(xs[0]) + FlatMap(f, xs[1..])
  }

  /** The frames of the `data: ` lines, in order. */
  function Frames(lines: seq<string>): (r: seq<Frame>)
    ensures |r| <= |lines|
  {
    if |lines| == 0 then []
    else
      match FrameOf(lines[0])
      case Some(f) => [f] + Frames(lines[1..])
      case None => Frames(lines[1..])
  }

  /** The messages before the first end marker. */
  function UntilEnd(frames: seq<Frame>): (r: seq<string>)
    ensures |r| <= |frames|
    ensures End !in frames ==> |r| == |frames| && forall i | 0 <= i < |r| :: frames[i] == Message(r[i])
  {
    if |frames| == 0 then []
    else match frames[0]
      case End => []
      case Message(m) => [m] + UntilEnd(frames[1..])
  }

  /** The log lines for frames `msgs` appended at log positions `n`,
      `n + 1`, … */
  function Render(msgs: seq<string>, n: nat, stamp: nat -> string): (r: seq<string>)
    ensures |r| == |msgs|
  {
    if |msgs| == 0 then [] else [LogLine(msgs[0], stamp(n))] + Render(msgs[1..], n + 1, stamp)
  }

  /** Line `i` of the rendering is message `i`, stamped with its own log
      position. */
  lemma {:induction false} RenderAt(msgs: seq<string>, n: nat, stamp: nat -> string, i: nat)
    requires i < |msgs|
    ensures Render(msgs, n, stamp)[i] == LogLine(msgs[i], stamp(n + i))
    decreases i
  {
    if i > 0 {
      RenderAt(msgs[1..], n + 1, stamp, i - 1);
    }
  }

  lemma {:induction false} FramesAppend(a: seq<string>, b: seq<string>)
    ensures Frames(a + b) == Frames(a) + Frames(b)
  {
    if |a| == 0 {
      assert a + b == b;
    } else {
      FramesAppend(a[1..], b);
      assert (a + b)[1..] == a[1..] + b;
    }
  }

  /** The line loop appends exactly the rendered frames before the first
      `[STREAM_END]`, and stops iff there is one. */
  lemma {:induction false} LinesFollowFrames(lines: seq<string>, logs: seq<string>, stamp: nat -> string)
    ensures ConsumeLines(lines, logs, stamp).logs == logs + Render(UntilEnd(Frames(lines)), |logs|, stamp)
    decreases |lines|, 1
  {
    if |lines| == 0 {
      assert logs + [] == logs;
    } else {
      match FrameOf(lines[0])
      case None => SkipLineFollowsFrames(lines, logs, stamp);
      case Some(End) => EndLineFollowsFrames(lines, logs, stamp);
      case Some(Message(msg)) => MessageLineFollowsFrames(lines, logs, stamp, msg);
    }
  }

  /** `LinesFollowFrames` when the first line carries no frame. */
  lemma {:induction false} SkipLineFollowsFrames(lines: seq<string>, logs: seq<string>, stamp: nat -> string)
    requires |lines| > 0 && FrameOf(lines[0]).None?
    ensures ConsumeLines(lines, logs, stamp).logs == logs + Render(UntilEnd(Frames(lines)), |logs|, stamp)
    decreases |lines|, 0
  {
    assert Frames(lines) == Frames(lines[1..]);
    assert ConsumeLines(lines, logs, stamp) == ConsumeLines(lines[1..], logs, stamp);
    LinesFollowFrames(lines[1..], logs, stamp);
  }

  /** `LinesFollowFrames` when the first line is the end marker. */
  lemma EndLineFollowsFrames(lines: seq<string>, logs: seq<string>, stamp: nat -> string)
    requires |lines| > 0 && FrameOf(lines[0]) == Some(End)
    ensures ConsumeLines(lines, logs, stamp).logs == logs + Render(UntilEnd(Frames(lines)), |logs|, stamp)
  {
    var fs := [End] + Frames(lines[1..]);
    assert Frames(lines) == fs;
    assert fs[0] == End;
    assert UntilEnd(fs) == [];
    assert logs + Render([], |logs|, stamp) == logs;
  }

  /** `LinesFollowFrames` when the first line carries message `msg`. */
  lemma {:induction false} MessageLineFollowsFrames(lines: seq<string>, logs: seq<string>, stamp: nat -> string, msg: string)
    requires |lines| > 0 && FrameOf(lines[0]) == Some(Message(msg))
    ensures ConsumeLines(lines, logs, stamp).logs == logs + Render(UntilEnd(Frames(lines)), |logs|, stamp)
    decreases |lines|, 0
  {
    var tail := Frames(lines[1..]);
    assert Frames(lines) == [Message(msg)] + tail;
    var line := LogLine(msg, stamp(|logs|));
    var logs' := logs + [line];
    assert ConsumeLines(lines, logs, stamp) == ConsumeLines(lines[1..], logs', stamp);
    LinesFollowFrames(lines[1..], logs', stamp);
    var rest := UntilEnd(tail);
    UntilEndMessage(msg, tail);
    RenderCons(msg, rest, |logs|, stamp);
    AppendAssoc(logs, [line], Render(rest, |logs'|, stamp));
  }

  lemma AppendAssoc<T>(a: seq<T>, b: seq<T>, c: seq<T>)
    ensures (a + b) + c == a + (b + c)
  {
  }

  lemma UntilEndMessage(msg: string, tail: seq<Frame>)
    ensures UntilEnd([Message(msg)] + tail) == [msg] + UntilEnd(tail)
  {
    assert ([Message(msg)] + tail)[1..] == tail;
  }

  lemma RenderCons(msg: string, rest: seq<string>, n: nat, stamp: nat -> string)
    ensures Render([msg] + rest, n, stamp) == [LogLine(msg, stamp(n))] + Render(rest, n + 1, stamp)
  {
    assert ([msg] + rest)[1..] == rest;
  }

  /** The line loop stops iff some line is a `[STREAM_END]` frame. */
  lemma {:induction false} LinesStopAtEnd(lines: seq<string>, logs: seq<string>, stamp: nat -> string)
    ensures ConsumeLines(lines, logs, stamp).Ended? <==> End in Frames(lines)
  {
    if |lines| > 0 {
      var tail := Frames(lines[1..]);
      match FrameOf(lines[0])
      case None =>
        assert Frames(lines) == tail;
        LinesStopAtEnd(lines[1..], logs, stamp);
      case Some(End) =>
        assert Frames(lines)[0] == End;
      case Some(Message(msg)) =>
        var fs := [Message(msg)] + tail;
        assert Frames(lines) == fs;
        LinesStopAtEnd(lines[1..], logs + [LogLine(msg, stamp(|logs|))], stamp);
        assert End in fs <==> End in tail;
    }
  }

  /** Consuming line lists one after another is consuming their
      concatenation. */
  lemma {:induction false} ConsumeLinesAppend(a: seq<string>, b: seq<string>, logs: seq<string>, stamp: nat -> string)
    ensures ConsumeLines(a + b, logs, stamp) ==
      match ConsumeLines(a, logs, stamp)
      case Ended(l) => Ended(l)
      case Reading(l) => ConsumeLines(b, l, stamp)
  {
    if |a| == 0 {
      assert a + b == b;
    } else {
      assert (a + b)[1..] == a[1..] + b;
      match FrameOf(a[0])
      case None => ConsumeLinesAppend(a[1..], b, logs, stamp);
      case Some(End) =>
      case Some(Message(msg)) =>
        ConsumeLinesAppend(a[1..], b, logs + [LogLine(msg, stamp(|logs|))], stamp);
    }
  }

  /** The chunk loop behaves as the line loop over all lines of all
      chunks: in particular a `[STREAM_END]` frame stops everything after
      it, in its own chunk and in every later one. */
  lemma {:induction false} ChunksAreLines(chunks: seq<string>, logs: seq<string>, stamp: nat -> string)
    ensures ConsumeChunks(chunks, logs, stamp) == ConsumeLines(ChunkLines(chunks), logs, stamp)
  {
    if |chunks| > 0 {
      ConsumeLinesAppend(Lines(chunks[0]), ChunkLines(chunks[1..]), logs, stamp);
      match ConsumeLines(Lines(chunks[0]), logs, stamp)
      case Ended(l) =>
      case Reading(l) => ChunksAreLines(chunks[1..], l, stamp);
    }
  }

  /** Once a chunk carries `[STREAM_END]`, whatever the later chunks hold
      is never read. */
  lemma StopIgnoresLaterChunks(chunks: seq<string>, later: seq<string>, logs: seq<string>, stamp: nat -> string)
    requires ConsumeChunks(chunks, logs, stamp).Ended?
    ensures ConsumeChunks(chunks + later, logs, stamp) == ConsumeChunks(chunks, logs, stamp)
  {
    ChunksAreLines(chunks, logs, stamp);
    ChunksAreLines(chunks + later, logs, stamp);
    FlatMapAppend(Lines, chunks, later);
    ConsumeLinesAppend(ChunkLines(chunks), ChunkLines(later), logs, stamp);
  }

  lemma {:induction false} FlatMapAppend<T, U>(f: T -> seq<U>, a: seq<T>, b: seq<T>)
    ensures FlatMap(f, a + b) == FlatMap(f, a) + FlatMap(f, b)
  {
    if |a| == 0 {
      assert a + b == b;
    } else {
      FlatMapAppend(f, a[1..], b);
      assert (a + b)[1..] == a[1..] + b;
    }
  }

  /** A line with no newline is one line, and with a newline appended it
      is that line followed by an empty one. */
  lemma LinesOfLine(x: string)
    requires '\n' !in x
    ensures Lines(x) == [x]
    ensures Lines(x + "\n") == [x, ""]
  {
    SplitNoSeparator(x, '\n');
    SplitNoSeparator("", '\n');
    SplitAround(x, "", '\n');
    assert x + "\n" == x + ['\n'] + "";
  }

  /** An empty line carries no frame, so a trailing one changes nothing. */
  lemma FramesDropEmptyLine(lines: seq<string>)
    ensures Frames(lines + [""]) == Frames(lines)
  {
    FramesAppend(lines, [""]);
    assert FrameOf("").None?;
    assert Frames([""]) == Frames([""][1..]) == [];
  }

  /** A chunk ending in a newline splits into the lines before it and one
      empty line. */
  lemma LinesOfTerminated(x: string)
    ensures Lines(x + "\n") == Lines(x) + [""]
  {
    SplitAround(x, "", '\n');
    SplitNoSeparator("", '\n');
    assert x + "\n" == x + ['\n'] + "";
  }

  /** Chunking is harmless when every read ends on a line boundary: the
      frames are then those of the whole text split into lines. */
  lemma {:induction false} LineAlignedChunks(chunks: seq<string>)
    requires forall i | 0 <= i < |chunks| - 1 :: EndsWith(chunks[i], "\n")
    ensures Frames(ChunkLines(chunks)) == Frames(Lines(Concat(chunks)))
  {
    if |chunks| == 1 {
      assert Concat(chunks) == chunks[0] + Concat([]);
      assert ChunkLines(chunks) == Lines(chunks[0]) + FlatMap(Lines, []);
      assert chunks[0] + "" == chunks[0];
      assert Lines(chunks[0]) + [] == Lines(chunks[0]);
    } else if |chunks| > 1 {
      var c := chunks[0];
      var x := c[..|c| - 1];
      var rest := chunks[1..];
      assert c == x + "\n";
      LineAlignedChunks(rest);
      assert ChunkLines(chunks) == Lines(c) + ChunkLines(rest);
      FramesAppend(Lines(c), ChunkLines(rest));
      LinesOfTerminated(x);
      FramesDropEmptyLine(Lines(x));
      assert Concat(chunks) == x + ['\n'] + Concat(rest);
      SplitAround(x, Concat(rest), '\n');
      FramesAppend(Lines(x), Lines(Concat(rest)));
    }
  }

  /** A frame cut in two by the reads is taken as two unrelated lines:
      the first half is shown as a message of its own and the second half
      is dropped. Read in one piece (`WholeFrameIsRead`), the same text is
      one frame carrying the whole payload, so for instance a `[DONE]`
      marker cut after `[DO` loses its green colouring. */
  lemma SplitFrameIsMisread(head: string, tail: string)
    requires '\n' !in head && '\n' !in tail
    requires head != StreamEnd && !StartsWith(tail, DataPrefix)
    ensures Frames(ChunkLines([DataPrefix + head, tail + "\n"])) == [Message(head)]
  {
    var a := DataPrefix + head;
    assert a[..6] == DataPrefix && a[6..] == head;
    assert '\n' !in a;
    LinesOfLine(a);
    LinesOfLine(tail);
    assert FrameOf(a) == Some(Message(head));
    assert FrameOf("").None?;
    var cs := [a, tail + "\n"];
    assert cs[1..] == [tail + "\n"] && cs[1..][1..] == [];
    assert FlatMap(Lines, cs[1..]) == Lines(tail + "\n") + FlatMap(Lines, []);
    assert ChunkLines(cs) == Lines(a) + FlatMap(Lines, cs[1..]);
    assert ChunkLines([a, tail + "\n"]) == [a, tail, ""];
    assert Frames([""]) == [];
    assert Frames([tail, ""]) == [];
  }

  /** The whole frame in one read: one frame with the whole payload. */
  lemma WholeFrameIsRead(payload: string)
    requires '\n' !in payload
    ensures Frames(ChunkLines([DataPrefix + payload + "\n"]))
         == if payload == StreamEnd then [End] else [Message(payload)]
  {
    var whole := DataPrefix + payload;
    assert whole[..6] == DataPrefix && whole[6..] == payload;
    assert '\n' !in whole;
    LinesOfLine(whole);
    assert FrameOf("").None?;
    var cs := [whole + "\n"];
    assert cs[1..] == [];
    assert ChunkLines(cs) == Lines(whole + "\n") + FlatMap(Lines, cs[1..]);
    assert ChunkLines([whole + "\n"]) == [whole, ""];
    assert Frames([""]) == [];
  }
}
