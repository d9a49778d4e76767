/**
 * The incremental transformer (src/sse.rs, `push` and `finish`) as a function of the chunks it is given,
 * and exactly when the way a stream is cut into chunks makes no difference.
 */
module Chunking {
  import opened Domain
  import opened Framing

  const MAX_SSE_EVENT_BYTES: nat := 1024 * 1024

  datatype SseError =
    | OversizeEvent
    | InvalidUtf8
    | MultipleDataLines
    | InvalidJson
    | MissingEventType
    | MismatchedEventType
    | InvalidTextShape
    | SerializeFailed
    | TruncatedEvent

  /** What becomes of one whole frame. */
  type Transform = string -> Result<string, SseError>

  /** The frames emitted, the bytes left in the buffer, and the failure that stopped the transformer, if any. */
  datatype Drained = Drained(frames: seq<string>, rest: string, error: Option<SseError>)

  /** Transforms frames until there is none left or one fails. */
  function Drain(f: Transform, buffer: string): Drained
    decreases |buffer|
  {
    FrameEndExact(buffer);
    match FrameEnd(buffer, 0)
    case None => Drained([], buffer, None)
    case Some(end) =>
      match f(buffer[..end])
      case Err(e) => Drained([], buffer[end..], Some(e))
      case Ok(frame) =>
        var next := Drain(f, buffer[end..]);
        next.(frames := [frame] + next.frames)
  }

  /** One call of `push`. */
  function Pushed(f: Transform, buffer: string, chunk: string): Drained {
    var all := buffer + chunk;
    if |all| > MAX_SSE_EVENT_BYTES && FrameEnd(all, 0).None? then Drained([], all, Some(OversizeEvent))
    else Drain(f, all)
  }

  predicate IsSpace(c: char) { c == ' ' || c == '\t' || c == '\n' || c == '\r' || c as int == 0x0C }

  predicate AllSpace(s: string) { forall i :: 0 <= i < |s| ==> IsSpace(s[i]) }

  function Finished(rest: string): Option<SseError> { if AllSpace(rest) then None else Some(TruncatedEvent) }

  function Concat(parts: seq<string>): string {
    if parts == [] then "" else parts[0] + Concat(parts[1..])
  }

  /** All pushes and the final `finish`: the whole output, or the first error. */
  function Streamed(f: Transform, buffer: string, chunks: seq<string>): Result<string, SseError>
    decreases |chunks|
  {
    if chunks == [] then
      match Finished(buffer)
      case None => Ok("")
      case Some(e) => Err(e)
    else
      var d := Pushed(f, buffer, chunks[0]);
      if d.error.Some? then Err(d.error.value)
      else
        match Streamed(f, d.rest, chunks[1..])
        case Err(e) => Err(e)
        case Ok(more) => Ok(Concat(d.frames) + more)
  }

  /** The stream taken as a whole, without size limits. */
  function Whole(f: Transform, stream: string): Result<string, SseError> {
    var d := Drain(f, stream);
    if d.error.Some? then Err(d.error.value)
    else
      match Finished(d.rest)
      case None => Ok(Concat(d.frames))
      case Some(e) => Err(e)
  }

  /** Each frame is at most one byte longer than the limit and the unfinished tail is within it. */
  predicate FramesFit(stream: string)
    decreases |stream|
  {
    FrameEndExact(stream);
    match FrameEnd(stream, 0)
    case None => |stream| <= MAX_SSE_EVENT_BYTES
    case Some(end) => end <= MAX_SSE_EVENT_BYTES + 1 && FramesFit(stream[end..])
  }

  /** The first step of draining. */
  lemma DrainOnce(f: Transform, buffer: string)
    ensures match FrameEnd(buffer, 0)
            case None => Drain(f, buffer) == Drained([], buffer, None)
            case Some(end) =>
              && 2 <= end <= |buffer|
              && match f(buffer[..end])
                 case Err(e) => Drain(f, buffer) == Drained([], buffer[end..], Some(e))
                 case Ok(frame) =>
                   var next := Drain(f, buffer[end..]);
                   Drain(f, buffer) == next.(frames := [frame] + next.frames)
  {
    FrameEndExact(buffer);
  }

  // ----- cutting a stream

  lemma {:induction false} ConcatJoin(a: seq<string>, b: seq<string>)
    ensures Concat(a + b) == Concat(a) + Concat(b)
  {
    if a == [] {
      assert a + b == b;
    } else {
      assert (a + b)[0] == a[0] && (a + b)[1..] == a[1..] + b;
      ConcatJoin(a[1..], b);
      assert a[0] + (Concat(a[1..]) + Concat(b)) == a[0] + Concat(a[1..]) + Concat(b);
    }
  }

  /** What is left over has no frame in it. */
  lemma {:induction false} RestUnfinished(f: Transform, buffer: string)
    ensures Drain(f, buffer).error.None? ==> FrameEnd(Drain(f, buffer).rest, 0).None?
    decreases |buffer|
  {
    FrameEndExact(buffer);
    match FrameEnd(buffer, 0)
    case None =>
    case Some(end) =>
      if f(buffer[..end]).Ok? {
        RestUnfinished(f, buffer[end..]);
      }
  }

  /** Draining early and draining the rest with what arrives later is draining it all at once. */
  lemma {:induction false} DrainLater(f: Transform, a: string, b: string)
    ensures var d := Drain(f, a);
            if d.error.Some? then Drain(f, a + b).error == d.error
            else Drain(f, a + b) == Drain(f, d.rest + b).(frames := d.frames + Drain(f, d.rest + b).frames)
    decreases |a|
  {
    FrameEndExact(a);
    match FrameEnd(a, 0)
    case None => assert [] + Drain(f, a + b).frames == Drain(f, a + b).frames;
    case Some(end) =>
      FoundStays(a, b);
      assert (a + b)[..end] == a[..end] && (a + b)[end..] == a[end..] + b;
      match f(a[..end])
      case Err(e) =>
      case Ok(frame) =>
        DrainLater(f, a[end..], b);
        var d, more := Drain(f, a[end..]), Drain(f, Drain(f, a[end..]).rest + b);
        assert [frame] + (d.frames + more.frames) == [frame] + d.frames + more.frames;
  }

  /** Any cutting that gets through gives the output of the stream taken as a whole. */
  lemma {:induction false} StreamedIsWhole(f: Transform, buffer: string, chunks: seq<string>)
    requires Streamed(f, buffer, chunks).Ok? && FrameEnd(buffer, 0).None?
    ensures Whole(f, buffer + Concat(chunks)) == Streamed(f, buffer, chunks)
    decreases |chunks|
  {
    if chunks == [] {
      assert buffer + "" == buffer;
    } else {
      hide Drain, Streamed, Whole, FrameEnd, Finished, Concat;
      var all, later := buffer + chunks[0], Concat(chunks[1..]);
      ConcatUnfold(chunks);
      assert buffer + Concat(chunks) == all + later;
      StreamedUnfold(f, buffer, chunks);
      RestUnfinished(f, all);
      StreamedIsWhole(f, Drain(f, all).rest, chunks[1..]);
      WholeLater(f, all, later);
    }
  }

  lemma ConcatUnfold(chunks: seq<string>)
    requires chunks != []
    ensures Concat(chunks) == chunks[0] + Concat(chunks[1..])
  {
  }

  lemma StreamedUnfold(f: Transform, buffer: string, chunks: seq<string>)
    requires chunks != [] && Streamed(f, buffer, chunks).Ok?
    ensures var d := Drain(f, buffer + chunks[0]);
            && d.error.None? && Streamed(f, d.rest, chunks[1..]).Ok?
            && Streamed(f, buffer, chunks) == Ok(Concat(d.frames) + Streamed(f, d.rest, chunks[1..]).value)
  {
    hide Drain, Finished, Concat, FrameEnd;
  }

  /** Draining what has arrived first does not change what the whole comes to. */
  lemma WholeLater(f: Transform, a: string, b: string)
    requires Drain(f, a).error.None? && Whole(f, Drain(f, a).rest + b).Ok?
    ensures Whole(f, a + b) == Ok(Concat(Drain(f, a).frames) + Whole(f, Drain(f, a).rest + b).value)
  {
    hide Drain, Concat, Finished;
    DrainLater(f, a, b);
    ConcatJoin(Drain(f, a).frames, Drain(f, Drain(f, a).rest + b).frames);
  }

  /** The limit never strikes a stream whose frames and tail fit it. */
  lemma {:induction false} FittingStreams(f: Transform, buffer: string, chunks: seq<string>)
    requires FrameEnd(buffer, 0).None?
    requires Whole(f, buffer + Concat(chunks)).Ok? && FramesFit(buffer + Concat(chunks))
    ensures Streamed(f, buffer, chunks).Ok?
    decreases |chunks|
  {
    if chunks == [] {
      assert buffer + "" == buffer;
    } else {
      var all, later := buffer + chunks[0], Concat(chunks[1..]);
      assert buffer + Concat(chunks) == all + later;
      WithinLimit(all, later);
      DrainLater(f, all, later);
      var d := Drain(f, all);
      RestUnfinished(f, all);
      FitsAfter(f, all, later);
      FittingStreams(f, d.rest, chunks[1..]);
    }
  }

  lemma WithinLimit(a: string, b: string)
    requires FramesFit(a + b)
    ensures !(|a| > MAX_SSE_EVENT_BYTES && FrameEnd(a, 0).None?)
  {
    FrameEndExact(a + b);
    if FrameEnd(a + b, 0).Some? && FrameEnd(a + b, 0).value <= |a| {
      FoundBefore(a, b);
    }
  }

  lemma {:induction false} FitsAfter(f: Transform, a: string, b: string)
    requires FramesFit(a + b) && Drain(f, a).error.None?
    ensures FramesFit(Drain(f, a).rest + b)
    decreases |a|
  {
    FrameEndExact(a);
    match FrameEnd(a, 0)
    case None =>
    case Some(end) =>
      FoundStays(a, b);
      assert (a + b)[end..] == a[end..] + b;
      FitsAfter(f, a[end..], b);
  }

  /** The stream one byte at a time. */
  function Bytes(s: string): seq<string> {
    if s == "" then [] else [[s[0]]] + Bytes(s[1..])
  }

  lemma {:induction false} BytesConcat(s: string)
    ensures Concat(Bytes(s)) == s
  {
    if s != "" {
      BytesConcat(s[1..]);
      assert Bytes(s)[1..] == Bytes(s[1..]);
    }
  }

  lemma StreamedStep(f: Transform, buffer: string, chunks: seq<string>)
    requires Streamed(f, buffer, chunks).Ok? && chunks != []
    ensures Pushed(f, buffer, chunks[0]).error.None? && Streamed(f, Pushed(f, buffer, chunks[0]).rest, chunks[1..]).Ok?
  {
    hide Pushed;
  }

  /** A byte that is accepted stays in the buffer or completes the frame in it. */
  lemma BytePushed(f: Transform, buffer: string, c: char)
    requires FrameEnd(buffer, 0).None? && |buffer| <= MAX_SSE_EVENT_BYTES && Pushed(f, buffer, [c]).error.None?
    ensures var all, rest := buffer + [c], Pushed(f, buffer, [c]).rest;
            match FrameEnd(all, 0)
            case None => |all| <= MAX_SSE_EVENT_BYTES && rest == all
            case Some(end) => end == |all| <= MAX_SSE_EVENT_BYTES + 1 && rest == ""
  {
    var all := buffer + [c];
    if FrameEnd(all, 0).Some? {
      ByteEndsFrame(buffer, c, FrameEnd(all, 0).value);
      assert all[|all|..] == "";
      assert Drain(f, "") == Drained([], "", None);
    }
  }

  /** One byte at a time, only streams that fit the limit get through. */
  lemma {:induction false} BytewiseFits(f: Transform, buffer: string, s: string)
    requires FrameEnd(buffer, 0).None? && |buffer| <= MAX_SSE_EVENT_BYTES && Streamed(f, buffer, Bytes(s)).Ok?
    ensures FramesFit(buffer + s)
    decreases |s|
  {
    hide Streamed, Pushed, Drain;
    if s == "" {
      assert buffer + s == buffer;
    } else {
      var all, later := buffer + [s[0]], s[1..];
      assert Bytes(s)[0] == [s[0]] && Bytes(s)[1..] == Bytes(later);
      assert buffer + s == all + later;
      StreamedStep(f, buffer, Bytes(s));
      BytePushed(f, buffer, s[0]);
      BytewiseFits(f, Pushed(f, buffer, [s[0]]).rest, later);
      if FrameEnd(all, 0).Some? {
        FoundStays(all, later);
        assert (all + later)[|all|..] == "" + later;
      }
    }
  }

  lemma ByteEndsFrame(buffer: string, c: char, end: nat)
    requires FrameEnd(buffer, 0).None? && FrameEnd(buffer + [c], 0) == Some(end)
    ensures end == |buffer| + 1
  {
    FrameEndExact(buffer + [c]);
    if end <= |buffer| {
      FoundBefore(buffer, [c]);
    }
  }

  /** Without a frame in it, a stream beyond the limit gets through in no cutting. */
  lemma {:induction false} UnframedFits(f: Transform, buffer: string, chunks: seq<string>)
    requires FrameEnd(buffer + Concat(chunks), 0).None? && |buffer| <= MAX_SSE_EVENT_BYTES
    requires Streamed(f, buffer, chunks).Ok?
    ensures |buffer + Concat(chunks)| <= MAX_SSE_EVENT_BYTES
    decreases |chunks|
  {
    if chunks != [] {
      var all, later := buffer + chunks[0], Concat(chunks[1..]);
      assert buffer + Concat(chunks) == all + later;
      NoneFound(all, later);
      UnframedFits(f, all, chunks[1..]);
    }
  }

  // ----- independence of the cutting

  /** The verdict, and on success the output, are the same for both cuttings. */
  predicate SameResult(a: Result<string, SseError>, b: Result<string, SseError>) {
    if a.Ok? then b == a else b.Err?
  }

  ghost predicate CuttingIrrelevant(f: Transform, stream: string) {
    forall a, b :: Concat(a) == stream && Concat(b) == stream ==> SameResult(Streamed(f, "", a), Streamed(f, "", b))
  }

  /**
   * How a stream is cut into chunks makes no difference exactly if it fails as a whole, or contains no
   * frame, or its frames and its tail fit the limit. The code checks the limit only while the buffer holds
   * no complete frame, so a longer frame gets through when its end arrives early enough.
   */
  lemma CuttingIrrelevantExactly(f: Transform, stream: string)
    ensures CuttingIrrelevant(f, stream) <==> Whole(f, stream).Err? || FrameEnd(stream, 0).None? || FramesFit(stream)
  {
    if Whole(f, stream).Err? || FrameEnd(stream, 0).None? || FramesFit(stream) {
      forall a, b | Concat(a) == stream && Concat(b) == stream
        ensures SameResult(Streamed(f, "", a), Streamed(f, "", b))
      {
        SameVerdict(f, stream, a, b);
        SameVerdict(f, stream, b, a);
      }
    } else {
      WholeSucceeds(f, stream);
      BytesConcat(stream);
      assert "" + stream == stream;
      assert Streamed(f, "", Bytes(stream)).Err? by {
        if Streamed(f, "", Bytes(stream)).Ok? {
          BytewiseFits(f, "", stream);
        }
      }
      assert Concat([stream]) == stream;
      assert !SameResult(Streamed(f, "", [stream]), Streamed(f, "", Bytes(stream)));
    }
  }

  /** A frame of one megabyte and a little more, between line breaks. */
  function LongFrame(): string {
    seq(MAX_SSE_EVENT_BYTES + 2, i => 'x') + "\n\n"
  }

  lemma LongFrameEnds()
    ensures FrameEnd(LongFrame(), 0) == Some(|LongFrame()|) && |LongFrame()| == MAX_SSE_EVENT_BYTES + 4
  {
    var s, n := LongFrame(), MAX_SSE_EVENT_BYTES + 2;
    assert s[n] == '\n' && s[n + 1] == '\n';
    assert EndsFirst(s, n, n + 2);
    FrameEndExact(s);
  }

  lemma OneFrame(f: Transform, s: string, out: string)
    requires FrameEnd(s, 0) == Some(|s|) && f(s) == Ok(out)
    ensures Whole(f, s) == Ok(out)
    ensures |s| > MAX_SSE_EVENT_BYTES + 1 ==> !FramesFit(s)
  {
    hide FrameEnd, Drain, Concat;
    assert s[..|s|] == s && s[|s|..] == "";
    DrainOnce(f, s);
    NothingDrained(f);
    var d := Drain(f, s);
    assert d.frames == [out] && d.rest == "" && d.error.None?;
    ConcatOne(out);
  }

  lemma NothingDrained(f: Transform)
    ensures Drain(f, "") == Drained([], "", None)
  {
  }

  lemma ConcatOne(s: string)
    ensures Concat([s]) == s
  {
    assert [s][1..] == [] && s + "" == s;
  }

  /** An input for which the cutting matters: what passes in one chunk is refused byte by byte. */
  lemma LongFrameNeedsOneChunk(f: Transform, out: string)
    requires f(LongFrame()) == Ok(out)
    ensures Streamed(f, "", [LongFrame()]) == Ok(out)
    ensures Concat(Bytes(LongFrame())) == LongFrame() && Streamed(f, "", Bytes(LongFrame())).Err?
    ensures !CuttingIrrelevant(f, LongFrame())
  {
    hide *;
    var s := LongFrame();
    LongFrameEnds();
    OneFrame(f, s, out);
    WholeSucceeds(f, s);
    BytesConcat(s);
    CuttingIrrelevantExactly(f, s);
    assert "" + s == s;
    NoFrameYet();
    if Streamed(f, "", Bytes(s)).Ok? {
      BytewiseFits(f, "", s);
    }
  }

  lemma NoFrameYet()
    ensures FrameEnd("", 0).None?
  {
  }

  lemma SameVerdict(f: Transform, stream: string, a: seq<string>, b: seq<string>)
    requires Concat(a) == stream && Concat(b) == stream
    requires Whole(f, stream).Err? || FrameEnd(stream, 0).None? || FramesFit(stream)
    ensures Streamed(f, "", a).Ok? ==> Streamed(f, "", b) == Streamed(f, "", a)
  {
    assert "" + stream == stream;
    if Streamed(f, "", a).Ok? {
      StreamedIsWhole(f, "", a);
      if FrameEnd(stream, 0).None? {
        UnframedFits(f, "", a);
      }
      FittingStreams(f, "", b);
      StreamedIsWhole(f, "", b);
    }
  }

  lemma WholeSucceeds(f: Transform, stream: string)
    requires Whole(f, stream).Ok? && FrameEnd(stream, 0).Some?
    ensures Streamed(f, "", [stream]) == Whole(f, stream)
  {
    assert "" + stream == stream;
    assert [stream][1..] == [];
    assert Concat(Drain(f, stream).frames) + "" == Concat(Drain(f, stream).frames);
  }

  /** Every stream whose frames and tail fit the limit has one result, however it is cut. */
  lemma FittingResult(f: Transform, chunks: seq<string>)
    requires FramesFit(Concat(chunks))
    ensures SameResult(Whole(f, Concat(chunks)), Streamed(f, "", chunks))
  {
    assert "" + Concat(chunks) == Concat(chunks);
    if Whole(f, Concat(chunks)).Ok? {
      FittingStreams(f, "", chunks);
    }
    if Streamed(f, "", chunks).Ok? {
      StreamedIsWhole(f, "", chunks);
    }
  }

  // ----- nothing is lost between chunks

  /** The frames cut from a stream, unchanged. */
  function Cut(stream: string): seq<string>
    decreases |stream|
  {
    FrameEndExact(stream);
    match FrameEnd(stream, 0)
    case None => []
    case Some(end) => [stream[..end]] + Cut(stream[end..])
  }

  /** Frames emitted are the transformed frames of the stream; consumed frames and rest are the stream. */
  ghost predicate Conserved(f: Transform, cut: seq<string>, frames: seq<string>) {
    |cut| == |frames| && forall k :: 0 <= k < |frames| ==> f(cut[k]) == Ok(frames[k])
  }

  lemma DrainStep(f: Transform, stream: string)
    requires Drain(f, stream).error.None?
    ensures match FrameEnd(stream, 0)
            case None => Drain(f, stream) == Drained([], stream, None) && Cut(stream) == []
            case Some(end) =>
              && 2 <= end <= |stream| && f(stream[..end]).Ok? && Drain(f, stream[end..]).error.None?
              && Drain(f, stream).frames == [f(stream[..end]).value] + Drain(f, stream[end..]).frames
              && Drain(f, stream).rest == Drain(f, stream[end..]).rest
              && Cut(stream) == [stream[..end]] + Cut(stream[end..])
  {
    FrameEndExact(stream);
  }

  lemma {:induction false} DrainConserves(f: Transform, stream: string)
    requires Drain(f, stream).error.None?
    ensures Concat(Cut(stream)) + Drain(f, stream).rest == stream
    ensures Conserved(f, Cut(stream), Drain(f, stream).frames)
    decreases |stream|
  {
    hide Drain, Cut;
    DrainStep(f, stream);
    match FrameEnd(stream, 0)
    case None =>
    case Some(end) =>
      DrainConserves(f, stream[end..]);
      hide Conserved, Concat;
      var d, rest := Drain(f, stream[end..]), Cut(stream[end..]);
      ConservedFirst(f, stream[..end], f(stream[..end]).value, rest, d.frames);
      ConcatFirst(stream[..end], rest, d.rest);
      assert stream == stream[..end] + stream[end..];
  }

  lemma ConservedFirst(f: Transform, frame: string, out: string, cut: seq<string>, frames: seq<string>)
    requires f(frame) == Ok(out) && Conserved(f, cut, frames)
    ensures Conserved(f, [frame] + cut, [out] + frames)
  {
  }

  lemma ConcatFirst(first: string, rest: seq<string>, tail: string)
    ensures Concat([first] + rest) + tail == first + (Concat(rest) + tail)
  {
    assert ([first] + rest)[1..] == rest;
    assert first + Concat(rest) + tail == first + (Concat(rest) + tail);
  }
}
