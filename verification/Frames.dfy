/** One frame and the transformer that emits them (src/sse.rs, `transform_frame` and `SseTransformer`). */
module Frames {
  import opened Domain
  import opened Chunking
  import opened Framing
  import opened JsonTree
  import opened Request
  import opened SinkEvents
  import Utf8

  // ----- trimming

  /** `trim_end_matches(['\r', '\n'])`. */
  function TrimNewlines(s: string): string {
    if s != "" && (s[|s| - 1] == '\r' || s[|s| - 1] == '\n') then TrimNewlines(s[..|s| - 1]) else s
  }

  /** The three-byte encodings of white space: U+1680, U+2000 to U+200A, U+2028, U+2029, U+202F, U+205F and U+3000. */
  predicate WideSpace(a: int, b: int, c: int) {
    || (a == 0xE1 && b == 0x9A && c == 0x80)
    || (a == 0xE2 && b == 0x80 && (0x80 <= c <= 0x8A || c == 0xA8 || c == 0xA9 || c == 0xAF))
    || (a == 0xE2 && b == 0x81 && c == 0x9F)
    || (a == 0xE3 && b == 0x80 && c == 0x80)
  }

  /** The length of the white space character in front, 0 if there is none. */
  function LeadingSpace(s: string): nat {
    if s == "" then 0
    else if s[0] == ' ' || 0x09 <= s[0] as int <= 0x0D then 1
    else if |s| >= 2 && s[0] as int == 0xC2 && (s[1] as int == 0x85 || s[1] as int == 0xA0) then 2
    else if |s| >= 3 && WideSpace(s[0] as int, s[1] as int, s[2] as int) then 3
    else 0
  }

  function TrailingSpace(s: string): nat {
    var n := |s|;
    if n == 0 then 0
    else if s[n - 1] == ' ' || 0x09 <= s[n - 1] as int <= 0x0D then 1
    else if n >= 2 && s[n - 2] as int == 0xC2 && (s[n - 1] as int == 0x85 || s[n - 1] as int == 0xA0) then 2
    else if n >= 3 && WideSpace(s[n - 3] as int, s[n - 2] as int, s[n - 1] as int) then 3
    else 0
  }

  function TrimStart(s: string): string
    decreases |s|
  {
    if LeadingSpace(s) > 0 then TrimStart(s[LeadingSpace(s)..]) else s
  }

  function TrimEnd(s: string): string
    decreases |s|
  {
    if TrailingSpace(s) > 0 then TrimEnd(s[..|s| - TrailingSpace(s)]) else s
  }

  function Trim(s: string): string { TrimEnd(TrimStart(s)) }

  // ----- lines

  /** The end of the first line, its newline included. */
  function LineEnd(s: string): (n: nat)
    ensures n <= |s| && (s != "" ==> n > 0)
  {
    if s == "" then 0 else if s[0] == '\n' then 1 else 1 + LineEnd(s[1..])
  }

  /** `split_inclusive('\n')`. */
  function SplitLines(s: string): seq<string>
    decreases |s|
  {
    if s == "" then [] else [s[..LineEnd(s)]] + SplitLines(s[LineEnd(s)..])
  }

  /** What the loop over the lines remembers: the event header and the position of the data line. */
  datatype Found = Found(header: Option<string>, data: Option<nat>)

  predicate IsData(line: string) { "data:" <= TrimNewlines(line) }

  predicate IsEvent(line: string) { "event:" <= TrimNewlines(line) }

  function Fields(lines: seq<string>, n: nat): Result<Found, SseError>
    requires n <= |lines|
  {
    if n == 0 then Ok(Found(None, None))
    else
      match Fields(lines, n - 1)
      case Err(e) => Err(e)
      case Ok(f) =>
        var line := lines[n - 1];
        var header := if IsEvent(line) then Some(Trim(TrimNewlines(line)[6..])) else f.header;
        if !IsData(line) then Ok(Found(header, f.data))
        else if f.data.Some? then Err(MultipleDataLines)
        else Ok(Found(header, Some(n - 1)))
  }

  lemma {:induction false} DataFound(lines: seq<string>, n: nat)
    requires n <= |lines| && Fields(lines, n).Ok? && Fields(lines, n).value.data.Some?
    ensures Fields(lines, n).value.data.value < n && IsData(lines[Fields(lines, n).value.data.value])
  {
    if !IsData(lines[n - 1]) {
      DataFound(lines, n - 1);
    }
  }

  // ----- a frame

  function DataOf(line: string): string
    requires IsData(line)
  {
    TrimStart(TrimNewlines(line)[5..])
  }

  function Newline(line: string): string {
    TrimmedPrefix(line);
    line[|TrimNewlines(line)|..]
  }

  lemma {:induction false} TrimmedPrefix(s: string)
    ensures |TrimNewlines(s)| <= |s| && TrimNewlines(s) == s[..|TrimNewlines(s)|]
    ensures forall k :: |TrimNewlines(s)| <= k < |s| ==> s[k] == '\r' || s[k] == '\n'
    ensures TrimNewlines(s) != "" ==>
              TrimNewlines(s)[|TrimNewlines(s)| - 1] != '\r' && TrimNewlines(s)[|TrimNewlines(s)| - 1] != '\n'
  {
    if s != "" && (s[|s| - 1] == '\r' || s[|s| - 1] == '\n') {
      TrimmedPrefix(s[..|s| - 1]);
    }
  }

  function DataLine(text: string, newline: string): string { "data: " + text + newline }

  /** What becomes of a frame: itself, or itself with the text in its data line restored. */
  function Transformed(codec: Codec, mode: Mode, restore: Restore, frame: string): Result<string, SseError> {
    if !Utf8.Valid(frame) then Err(InvalidUtf8)
    else
      var lines := SplitLines(frame);
      match Fields(lines, |lines|)
      case Err(e) => Err(e)
      case Ok(Found(_, None)) => Ok(frame)
      case Ok(Found(header, Some(k))) =>
        DataFound(lines, |lines|);
        if DataOf(lines[k]) == "[DONE]" then Ok(frame)
        else
          match codec.parse(DataOf(lines[k]))
          case None => Err(InvalidJson)
          case Some(event) =>
            match TypeOf(event)
            case None => Err(MissingEventType)
            case Some(eventType) =>
              if header.Some? && header.value != eventType then Err(MismatchedEventType)
              else if !IsRestorable(mode, eventType) then Ok(frame)
              else
                match RestoredEvent(eventType, event, restore)
                case Err(e) => Err(e)
                case Ok(after) =>
                  match codec.encode(after)
                  case None => Err(SerializeFailed)
                  case Some(text) => Ok(Concat(lines[k := DataLine(text, Newline(lines[k]))]))
  }

  lemma SplitStep(rest: string)
    requires rest != ""
    ensures SplitLines(rest) == [rest[..LineEnd(rest)]] + SplitLines(rest[LineEnd(rest)..])
  {
  }

  lemma ConcatOne(line: string)
    ensures Concat([line]) == line
  {
    assert [line][1..] == [];
    assert line + "" == line;
  }

  lemma {:induction false} LinesConcat(s: string)
    ensures Concat(SplitLines(s)) == s
    decreases |s|
  {
    if s != "" {
      hide SplitLines, Concat;
      var n := LineEnd(s);
      SplitStep(s);
      LinesConcat(s[n..]);
      ConcatJoin([s[..n]], SplitLines(s[n..]));
      ConcatOne(s[..n]);
      assert s == s[..n] + s[n..];
    }
  }

  lemma ConcatAt(lines: seq<string>, k: nat)
    requires k < |lines|
    ensures Concat(lines) == Concat(lines[..k]) + lines[k] + Concat(lines[k + 1..])
  {
    assert lines == lines[..k] + lines[k..];
    ConcatJoin(lines[..k], lines[k..]);
    assert lines[k..][0] == lines[k] && lines[k..][1..] == lines[k + 1..];
    assert Concat(lines[..k]) + (lines[k] + Concat(lines[k + 1..]))
             == Concat(lines[..k]) + lines[k] + Concat(lines[k + 1..]);
  }

  lemma ConcatWith(lines: seq<string>, k: nat, line: string)
    requires k < |lines|
    ensures Concat(lines[k := line]) == Concat(lines[..k]) + line + Concat(lines[k + 1..])
  {
    var next := lines[k := line];
    ConcatAt(next, k);
    assert next[..k] == lines[..k] && next[k + 1..] == lines[k + 1..];
  }

  method RestoreEvent(eventType: string, event: Json, restore: Restore) returns (r: Result<Json, SseError>)
    ensures r == RestoredEvent(eventType, event, restore)
  {
    if eventType == "response.output_text.delta" {
      r := RestoredField(event, "delta", restore);
    } else if eventType == "response.output_text.done" {
      r := RestoredField(event, "text", restore);
    } else if eventType == "response.content_part.added" || eventType == "response.content_part.done" {
      r := RestoredChild(event, "part", part => RestoredPart(part, restore));
    } else if eventType == "response.output_item.added" || eventType == "response.output_item.done" {
      match Child(event, Key("item"))
      case None => r := Ok(event);
      case Some(item) =>
        var restored := RestoreMessageItem(item, restore);
        match restored {
          case Ok(after) => r := Ok(SetAt(event, [Key("item")], after));
          case Err(e) => r := Err(e);
        }
    } else if eventType in {"response.created", "response.in_progress", "response.completed"} {
      match Child(event, Key("response"))
      case None => r := Ok(event);
      case Some(response) =>
        var restored := RestoreSnapshot(response, restore);
        match restored {
          case Ok(after) => r := Ok(SetAt(event, [Key("response")], after));
          case Err(e) => r := Err(e);
        }
    } else {
      r := Ok(event);
    }
  }

  method RestoreSnapshot(response: Json, restore: Restore) returns (r: Result<Json, SseError>)
    ensures r == RestoredSnapshot(response, restore)
  {
    match Child(response, Key("output"))
    case None => r := Ok(response);
    case Some(Arr(items)) =>
      var after := RestoreItems(items, restore);
      match after {
        case Ok(restored) => r := Ok(SetAt(response, [Key("output")], Arr(restored)));
        case Err(e) => r := Err(e);
      }
    case Some(_) => r := Err(InvalidTextShape);
  }

  /** The loop over the lines: the event header and the byte range of the data line. */
  method FindData(frame: string) returns (error: Option<SseError>, header: Option<string>, data: Option<Span>)
    ensures var lines := SplitLines(frame);
            match Fields(lines, |lines|)
            case Err(e) => error == Some(e)
            case Ok(f) => error == None && header == f.header && Ranges(frame, lines, f.data, data)
  {
    hide SplitLines, Concat, TrimNewlines, Ranges, Trim, LineEnd;
    ghost var lines := SplitLines(frame);
    FindStarts(frame, lines);
    header, data := None, None;
    ghost var found: Option<nat> := None;
    var offset := 0;
    ghost var n := 0;
    while offset < |frame|
      invariant n <= |lines| && offset <= |frame|
      invariant SplitLines(frame[offset..]) == lines[n..] && offset == |Concat(lines[..n])|
      invariant Fields(lines, n) == Ok(Found(header, found)) && Ranges(frame, lines, found, data)
    {
      var rest := frame[offset..];
      var line := rest[..LineEnd(rest)];
      LineStep(frame, lines, n, offset);
      var content := TrimNewlines(line);
      if "event:" <= content {
        header := Some(Trim(content[6..]));
      }
      if "data:" <= content {
        RangesNone(frame, lines, found, data);
        if data.Some? {
          FieldsFail(lines, n + 1, |lines|);
          return Some(MultipleDataLines), header, data;
        }
        data, found := Some(Span(offset, offset + |line|)), Some(n);
        RangesAt(frame, lines, n, offset);
      }
      offset := offset + |line|;
      n := n + 1;
    }
    FindEnds(frame, lines, n, offset);
    error := None;
  }

  lemma FindStarts(frame: string, lines: seq<string>)
    requires lines == SplitLines(frame)
    ensures SplitLines(frame[0..]) == lines[0..] && |Concat(lines[..0])| == 0 && Ranges(frame, lines, None, None)
  {
    assert frame[0..] == frame && lines[0..] == lines;
  }

  lemma FindEnds(frame: string, lines: seq<string>, n: nat, offset: nat)
    requires n <= |lines| && offset == |frame| && SplitLines(frame[offset..]) == lines[n..]
    ensures n == |lines|
  {
    assert frame[offset..] == "";
  }

  lemma RangesNone(frame: string, lines: seq<string>, k: Option<nat>, data: Option<Span>)
    requires Ranges(frame, lines, k, data)
    ensures k.None? <==> data.None?
  {
  }

  /** The byte range is that of line `k`. */
  ghost predicate Ranges(frame: string, lines: seq<string>, k: Option<nat>, data: Option<Span>) {
    if k.None? then data.None?
    else && data.Some? && k.value < |lines| && data.value.start <= data.value.end <= |frame|
         && frame[..data.value.start] == Concat(lines[..k.value])
              && frame[data.value.end..] == Concat(lines[k.value + 1..])
         && frame[data.value.start..data.value.end] == lines[k.value]
  }

  lemma TailFirst<T>(s: seq<T>, n: nat, x: T, rest: seq<T>)
    requires n <= |s| && s[n..] == [x] + rest
    ensures n < |s| && s[n] == x && s[n + 1..] == rest && s[..n + 1] == s[..n] + [x]
  {
    assert |s[n..]| == 1 + |rest|;
    assert s[n..][0] == x && s[n..][1..] == rest;
  }

  lemma LineStep(frame: string, lines: seq<string>, n: nat, offset: nat)
    requires n <= |lines| && offset < |frame|
    requires SplitLines(frame[offset..]) == lines[n..] && offset == |Concat(lines[..n])|
    ensures var rest := frame[offset..];
            && n < |lines| && lines[n] == rest[..LineEnd(rest)] && offset + |lines[n]| <= |frame|
            && SplitLines(frame[offset + |lines[n]|..]) == lines[n + 1..]
            && offset + |lines[n]| == |Concat(lines[..n + 1])|
  {
    hide SplitLines, Concat;
    var rest := frame[offset..];
    var line := rest[..LineEnd(rest)];
    SplitStep(rest);
    TailFirst(lines, n, line, SplitLines(rest[LineEnd(rest)..]));
    assert rest[LineEnd(rest)..] == frame[offset + LineEnd(rest)..];
    ConcatJoin(lines[..n], [line]);
    ConcatOne(line);
  }

  lemma RangesAt(frame: string, lines: seq<string>, k: nat, offset: nat)
    requires lines == SplitLines(frame) && k < |lines| && offset == |Concat(lines[..k])|
    requires offset + |lines[k]| <= |frame|
    ensures Ranges(frame, lines, Some(k), Some(Span(offset, offset + |lines[k]|)))
  {
    LinesConcat(frame);
    ConcatAt(lines, k);
    Thirds(Concat(lines[..k]), lines[k], Concat(lines[k + 1..]));
  }

  lemma Thirds(a: string, b: string, c: string)
    ensures var s := a + b + c;
            s[..|a|] == a && s[|a|..|a| + |b|] == b && s[|a| + |b|..] == c
  {
  }

  lemma {:induction false} FieldsFail(lines: seq<string>, n: nat, m: nat)
    requires n <= m <= |lines| && Fields(lines, n).Err?
    ensures Fields(lines, m) == Fields(lines, n)
    decreases m
  {
    if n < m {
      FieldsFail(lines, n, m - 1);
    }
  }

  method TransformFrame(codec: Codec, mode: Mode, restore: Restore, frame: string) returns (r: Result<string, SseError>)
    ensures r == Transformed(codec, mode, restore, frame)
  {
    hide Utf8.Valid, RestoredEvent, SplitLines, Fields, TrimNewlines, TrimStart, IsRestorable, TypeOf;
    if !Utf8.Valid(frame) {
      return Err(InvalidUtf8);
    }
    ghost var lines := SplitLines(frame);
    var error, header, data := FindData(frame);
    if error.Some? {
      return Err(error.value);
    }
    if data.None? {
      return Ok(frame);
    }
    ghost var found := Fields(lines, |lines|).value.data;
    DataFound(lines, |lines|);
    var start, end := data.value.start, data.value.end;
    var line := frame[start..end];
    var payload := DataOf(line);
    if payload == "[DONE]" {
      return Ok(frame);
    }
    match codec.parse(payload)
    case None => r := Err(InvalidJson);
    case Some(event) =>
      match TypeOf(event) {
        case None => r := Err(MissingEventType);
        case Some(eventType) =>
          if header.Some? && header.value != eventType {
            return Err(MismatchedEventType);
          }
          if !IsRestorable(mode, eventType) {
            return Ok(frame);
          }
          var restored := RestoreEvent(eventType, event, restore);
          match restored {
            case Err(e) => r := Err(e);
            case Ok(after) =>
              match codec.encode(after) {
                case None => r := Err(SerializeFailed);
                case Some(text) =>
                  ConcatWith(lines, found.value, DataLine(text, Newline(line)));
                  r := Ok(frame[..start] + DataLine(text, Newline(line)) + frame[end..]);
              }
          }
      }
  }

  // ----- the transformer

  class SseTransformer {
    var buffer: string
    const mode: Mode

    constructor (mode: Mode)
      ensures buffer == "" && this.mode == mode
    {
      buffer := "";
      this.mode := mode;
    }

    /** The frames completed by this chunk, transformed; what is left stays in the buffer. */
    method Push(codec: Codec, chunk: string, restore: Restore) returns (r: Result<seq<string>, SseError>)
      modifies this`buffer
      ensures var d := Pushed(frame => Transformed(codec, mode, restore, frame), old(buffer), chunk);
              && buffer == d.rest
              && r == if d.error.Some? then Err(d.error.value) else Ok(d.frames)
    {
      hide Transformed, Drain;
      ghost var f: Transform := frame => Transformed(codec, mode, restore, frame);
      buffer := buffer + chunk;
      ghost var all := buffer;
      var end := FindFrameEnd(buffer);
      if |buffer| > MAX_SSE_EVENT_BYTES && end.None? {
        return Err(OversizeEvent);
      }
      var frames: seq<string> := [];
      while end.Some?
        invariant end == FrameEnd(buffer, 0)
        invariant Drain(f, all) == Drain(f, buffer).(frames := frames + Drain(f, buffer).frames)
        decreases |buffer|
      {
        DrainOnce(f, buffer);
        var frame := buffer[..end.value];
        buffer := buffer[end.value..];
        var transformed := TransformFrame(codec, mode, restore, frame);
        match transformed {
          case Err(e) => return Err(e);
          case Ok(out) =>
            assert frames + ([out] + Drain(f, buffer).frames) == (frames + [out]) + Drain(f, buffer).frames;
            frames := frames + [out];
        }
        end := FindFrameEnd(buffer);
      }
      DrainOnce(f, buffer);
      assert frames + [] == frames;
      r := Ok(frames);
    }

    method Finish() returns (error: Option<SseError>)
      ensures error == Finished(buffer)
    {
      for i := 0 to |buffer|
        invariant forall k :: 0 <= k < i ==> IsSpace(buffer[k])
      {
        if !IsSpace(buffer[i]) {
          return Some(TruncatedEvent);
        }
      }
      error := None;
    }
  }
}
