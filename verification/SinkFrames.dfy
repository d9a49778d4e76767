/**
 * What a reader of the transformed stream sees (src/sse.rs): every emitted frame is one frame, its event
 * is the original event with the text of its sinks restored, and nothing else in it has changed.
 */
module SinkFrames {
  import opened Domain
  import opened Chunking
  import opened Frames
  import opened Framing
  import opened JsonTree
  import opened Request
  import opened SinkEvents
  import Utf8

  /**
   * What is assumed of the JSON printer: it is undone by the reader, emits no raw line break, and opens objects
   * with a brace.
   */
  ghost predicate SoundPrinter(codec: Codec) {
    forall j {:trigger codec.encode(j)} :: codec.encode(j).Some? ==>
      && codec.parse(codec.encode(j).value) == Some(j)
      && Unbroken(codec.encode(j).value)
      && (j.Obj? ==> codec.encode(j).value != "" && codec.encode(j).value[0] == '{')
  }

  predicate Break(c: char) { c == '\r' || c == '\n' }

  predicate Unbroken(s: string) { forall k :: 0 <= k < |s| ==> !Break(s[k]) }

  predicate AllBreaks(s: string) { forall k :: 0 <= k < |s| ==> Break(s[k]) }

  /** A line with its newline and no other. */
  predicate IsLine(s: string) { s != "" && s[|s| - 1] == '\n' && forall k :: 0 <= k < |s| - 1 ==> s[k] != '\n' }

  predicate AllLines(lines: seq<string>) { forall k :: 0 <= k < |lines| ==> IsLine(lines[k]) }

  // ----- splitting into lines and joining them again

  lemma {:induction false} LineEndIs(line: string, rest: string)
    requires IsLine(line)
    ensures LineEnd(line + rest) == |line|
    decreases |line|
  {
    var s := line + rest;
    assert s[0] == line[0];
    if |line| > 1 {
      assert s[1..] == line[1..] + rest;
      LineEndIs(line[1..], rest);
    }
  }

  lemma {:induction false} FirstLine(s: string)
    requires s != "" && s[|s| - 1] == '\n'
    ensures IsLine(s[..LineEnd(s)]) && (s[LineEnd(s)..] != "" ==> s[LineEnd(s)..][|s| - LineEnd(s) - 1] == '\n')
    decreases |s|
  {
    if s[0] != '\n' {
      var t := s[1..];
      FirstLine(t);
      var n := LineEnd(t);
      assert s[..1 + n] == [s[0]] + t[..n] && s[1 + n..] == t[n..];
    }
  }

  lemma {:induction false} ProperLines(s: string)
    requires s == "" || s[|s| - 1] == '\n'
    ensures AllLines(SplitLines(s))
    decreases |s|
  {
    if s != "" {
      hide LineEnd, IsLine;
      FirstLine(s);
      ProperLines(s[LineEnd(s)..]);
    }
  }

  lemma {:induction false} SplitJoined(lines: seq<string>)
    requires AllLines(lines)
    ensures SplitLines(Concat(lines)) == lines
  {
    if lines != [] {
      hide IsLine, LineEnd, SplitLines;
      SplitJoined(lines[1..]);
      var rest := Concat(lines[1..]);
      LineEndIs(lines[0], rest);
      SplitOff(lines[0], rest);
      assert lines == [lines[0]] + lines[1..];
    } else {
      assert SplitLines("") == [];
    }
  }

  lemma SplitOff(line: string, rest: string)
    requires line != "" && LineEnd(line + rest) == |line|
    ensures SplitLines(line + rest) == [line] + SplitLines(rest)
  {
    hide SplitLines, LineEnd;
    SplitStep(line + rest);
    assert (line + rest)[..|line|] == line && (line + rest)[|line|..] == rest;
  }

  // ----- the data line

  lemma {:induction false} TrimIs(content: string, breaks: string)
    requires AllBreaks(breaks) && (content != "" ==> !Break(content[|content| - 1]))
    ensures TrimNewlines(content + breaks) == content
    decreases |breaks|
  {
    if breaks == "" {
      assert content + breaks == content;
    } else {
      var s, n := content + breaks, |breaks| - 1;
      assert s[|s| - 1] == breaks[n] && Break(breaks[n]);
      assert s[..|s| - 1] == content + breaks[..n];
      TrimIs(content, breaks[..n]);
    }
  }

  /** The line that replaces a data line is a line with the same newline, and its payload is the new text. */
  lemma NewLine(line: string, text: string)
    requires IsLine(line) && IsData(line) && Unbroken(text) && text != "" && text[0] == '{'
    ensures var next := DataLine(text, Newline(line));
            && IsLine(next) && IsData(next) && !IsEvent(next) && DataOf(next) == text && Newline(next) == Newline(line)
            && next == "data: " + text + Newline(line)
  {
    hide TrimNewlines;
    TrimmedPrefix(line);
    var newline := Newline(line);
    var content := "data: " + text;
    var next := content + newline;
    LineNewline(line);
    assert content[|content| - 1] == text[|text| - 1];
    assert AllBreaks(newline);
    TrimIs(content, newline);
    assert next[|next| - 1] == newline[|newline| - 1];
    forall k | 0 <= k < |next| - 1
      ensures next[k] != '\n'
    {
      if k < 6 {
        assert next[k] == "data: "[k];
      } else if k < |content| {
        assert next[k] == text[k - 6];
      } else {
        assert next[k] == newline[k - |content|];
      }
    }
    assert content[..5] == "data:";
    assert content[5..] == " " + text;
    SpaceTrimmed(text);
    assert next[|content|..] == newline;
  }

  lemma LineNewline(line: string)
    requires IsLine(line) && IsData(line)
    ensures var n := Newline(line);
            AllBreaks(n) && n != "" && n[|n| - 1] == '\n' && forall k :: 0 <= k < |n| - 1 ==> n[k] != '\n'
  {
    TrimmedPrefix(line);
    var m := |TrimNewlines(line)|;
    assert TrimNewlines(line)[m - 1] == line[m - 1];
    assert line[|line| - 1] == '\n';
  }

  lemma SpaceTrimmed(text: string)
    requires text != "" && text[0] == '{'
    ensures TrimStart(" " + text) == text
  {
    var s := " " + text;
    assert LeadingSpace(s) == 1 && s[1..] == text;
    assert LeadingSpace(text) == 0;
  }

  // ----- what a line says

  predicate Padding(s: string) { forall k :: 0 <= k < |s| ==> s[k] == ' ' || s[k] == '\t' }

  predicate Visible(c: char) { '!' <= c <= '~' }

  lemma {:induction false} PaddingBefore(padding: string, text: string)
    requires Padding(padding) && text != "" && Visible(text[0])
    ensures TrimStart(padding + text) == text
  {
    if padding == "" {
      assert padding + text == text;
    } else {
      var s := padding + text;
      assert s[0] == padding[0] && s[1..] == padding[1..] + text;
      PaddingBefore(padding[1..], text);
    }
  }

  lemma {:induction false} PaddingAfter(text: string, padding: string)
    requires Padding(padding) && text != "" && Visible(text[|text| - 1])
    ensures TrimEnd(text + padding) == text
  {
    if padding == "" {
      assert text + padding == text;
    } else {
      var s, n := text + padding, |padding| - 1;
      assert s[|s| - 1] == padding[n] && s[..|s| - 1] == text + padding[..n];
      PaddingAfter(text, padding[..n]);
    }
  }

  /** A data line is read as what follows the colon and any blanks, up to the line break. */
  lemma DataReads(padding: string, text: string, breaks: string)
    requires Padding(padding) && AllBreaks(breaks)
    requires text != "" && Visible(text[0]) && !Break(text[|text| - 1])
    ensures IsData("data:" + padding + text + breaks) && DataOf("data:" + padding + text + breaks) == text
  {
    hide TrimNewlines, TrimStart;
    var content := "data:" + padding + text;
    assert content[|content| - 1] == text[|text| - 1];
    TrimIs(content, breaks);
    assert content[..5] == "data:" && content[5..] == padding + text;
    PaddingBefore(padding, text);
  }

  /** A header line names what stands between the colon and the line break, without the blanks around it. */
  lemma HeaderReads(padding: string, name: string, after: string, breaks: string)
    requires Padding(padding) && Padding(after) && AllBreaks(breaks)
    requires name != "" && Visible(name[0]) && Visible(name[|name| - 1])
    ensures Fields(["event:" + padding + name + after + breaks], 1) == Ok(Found(Some(name), None))
  {
    hide TrimNewlines, TrimStart, TrimEnd;
    var rest := padding + name + after;
    var line := "event:" + padding + name + after + breaks;
    assert line == ("event:" + rest) + breaks;
    var content := "event:" + rest;
    assert !Break(content[|content| - 1]) by {
      if after == "" {
        assert content[|content| - 1] == name[|name| - 1];
      } else {
        assert content[|content| - 1] == after[|after| - 1];
      }
    }
    TrimIs(content, breaks);
    assert content[..6] == "event:" && content[6..] == rest && content[0] == 'e';
    assert rest == padding + (name + after) && (name + after)[0] == name[0];
    PaddingBefore(padding, name + after);
    PaddingAfter(name, after);
    assert Fields([line], 0) == Ok(Found(None, None));
  }

  lemma NotBoth(line: string)
    ensures !(IsData(line) && IsEvent(line))
  {
    var c := TrimNewlines(line);
    assert "data:" <= c ==> c[0] == 'd';
    assert "event:" <= c ==> c[0] == 'e';
  }

  // ----- one frame stays one frame

  /** A terminator lies within a run of line breaks. */
  lemma TermInBreaks(s: string, k: nat)
    ensures TermLen(s, k) > 0 ==> k + TermLen(s, k) <= |s| && forall i :: k <= i < k + TermLen(s, k) ==> Break(s[i])
  {
  }

  lemma TermSuffix(s: string, m: nat, k: nat)
    requires m <= |s|
    ensures TermLen(s[m..], k) == TermLen(s, m + k)
  {
  }

  /** The terminator that ends the frame starts behind a stretch that neither holds a line feed nor ends in a break. */
  lemma TermAfter(before: string, was: string, after: string, start: nat)
    requires was != "" && after != "" && !Break(was[|was| - 1])
    requires EndsFirst(before + was + after, start, |before + was + after|)
    ensures start >= |before + was|
  {
    hide TermLen;
    var frame, last := before + was + after, |before + was| - 1;
    TermInBreaks(frame, start);
    assert frame[last] == was[|was| - 1];
  }

  /** No terminator starts before the end of the stretch in the new frame, because none did in the old one. */
  lemma NoTermBefore(before: string, was: string, now: string, after: string, start: nat, i: nat)
    requires was != "" && now != "" && Unbroken(now) && !Break(was[0]) && i < |before + now|
    requires EndsFirst(before + was + after, start, |before + was + after|) && start >= |before + was|
    ensures TermLen(before + now + after, i) == 0
  {
    hide TermLen;
    var frame, out := before + was + after, before + now + after;
    TermInBreaks(out, i);
    assert out[|before|] == now[0];
    if i < |before| {
      assert out == before + (now + after) && frame == before + (was + after);
      TermLenLocal(before, now + after, i);
      TermLenLocal(before, was + after, i);
      assert TermLen(frame, i) == 0;
    } else {
      assert out[i] == now[i - |before|];
    }
  }

  /** From `m` on the one string is what the other is from `n` on. */
  ghost predicate SameTail(frame: string, m: nat, out: string, n: nat) {
    m <= |frame| && n <= |out| && frame[m..] == out[n..]
  }

  lemma TermShifted(frame: string, m: nat, out: string, n: nat, k: nat)
    requires SameTail(frame, m, out, n)
    ensures TermLen(out, n + k) == TermLen(frame, m + k) && |frame| - m == |out| - n
  {
    hide TermLen;
    TermSuffix(frame, m, k);
    TermSuffix(out, n, k);
    assert |frame[m..]| == |out[n..]|;
  }

  /** No terminator starts in front of position `n`. */
  ghost predicate NoTermUpTo(s: string, n: nat) {
    forall i: nat :: i < n ==> TermLen(s, i) == 0
  }

  lemma NoTermLonger(frame: string, m: nat, out: string, n: nat, start: nat)
    requires SameTail(frame, m, out, n) && m <= start && NoTermUpTo(frame, start) && NoTermUpTo(out, n)
    ensures NoTermUpTo(out, n + (start - m))
  {
    hide TermLen, SameTail;
    forall i: nat | i < n + (start - m)
      ensures TermLen(out, i) == 0
    {
      if i >= n {
        TermShifted(frame, m, out, n, i - n);
        assert TermLen(frame, m + (i - n)) == 0;
      }
    }
  }

  /** A frame end that lies in a common suffix is the frame end of the other string when nothing before it is. */
  lemma EndShifted(frame: string, m: nat, out: string, n: nat, start: nat)
    requires SameTail(frame, m, out, n) && m <= start && EndsFirst(frame, start, |frame|) && NoTermUpTo(out, n)
    ensures FrameEnd(out, 0) == Some(|out|)
  {
    hide *;
    var there := n + (start - m);
    StartInside(frame, start);
    TermShifted(frame, m, out, n, start - m);
    NoTermLonger(frame, m, out, n, start);
    EndsFirstIs(out, there);
    FrameEndIs(out, 0, there, |out|);
  }

  lemma StartInside(frame: string, start: nat)
    requires EndsFirst(frame, start, |frame|)
    ensures start < |frame| && TermLen(frame, start) == |frame| - start && NoTermUpTo(frame, start)
  {
    hide TermLen;
  }

  lemma EndsFirstIs(out: string, start: nat)
    requires start < |out| && TermLen(out, start) == |out| - start && NoTermUpTo(out, start)
    ensures EndsFirst(out, start, |out|)
  {
    hide TermLen;
  }

  /**
   * Replacing a stretch without breaks at its ends, between a line start and a run of breaks, leaves a frame one
   * frame.
   */
  lemma StillOneFrame(before: string, was: string, now: string, after: string)
    requires FrameEnd(before + was + after, 0) == Some(|before + was + after|)
    requires was != "" && !Break(was[0]) && !Break(was[|was| - 1])
    requires now != "" && Unbroken(now) && after != ""
    ensures FrameEnd(before + now + after, 0) == Some(|before + now + after|)
  {
    hide TermLen, Break, FrameEnd, Unbroken;
    var frame, out := before + was + after, before + now + after;
    FrameEndExact(frame);
    var start: nat :| EndsFirst(frame, start, |frame|);
    TermAfter(before, was, after, start);
    assert NoTermUpTo(out, |before + now|) by {
      forall i: nat | i < |before + now|
        ensures TermLen(out, i) == 0
      {
        NoTermBefore(before, was, now, after, start, i);
      }
    }
    assert frame[|before + was|..] == after && out[|before + now|..] == after;
    EndShifted(frame, |before + was|, out, |before + now|, start);
  }

  // ----- what the scan over the lines finds

  /** Line `k` is a data line, and the only one. */
  ghost predicate CarriesData(lines: seq<string>, k: nat) {
    k < |lines| && IsData(lines[k]) && forall j :: 0 <= j < |lines| && j != k ==> !IsData(lines[j])
  }

  /** The last line that names the event, if any does, names it so. */
  ghost predicate Heads(lines: seq<string>, n: nat, header: Option<string>)
    requires n <= |lines|
  {
    match header
    case None => forall j :: 0 <= j < n ==> !IsEvent(lines[j])
    case Some(h) => exists i ::
      && 0 <= i < n && IsEvent(lines[i]) && h == Trim(TrimNewlines(lines[i])[6..])
      && forall j :: i < j < n ==> !IsEvent(lines[j])
  }

  /** The scan fails exactly at a second data line, and otherwise finds the only one and the last header. */
  lemma {:induction false} FieldsExact(lines: seq<string>, n: nat)
    requires n <= |lines|
    ensures match Fields(lines, n)
            case Err(e) =>
              e == MultipleDataLines && exists i, j :: 0 <= i < j < n && IsData(lines[i]) && IsData(lines[j])
            case Ok(Found(header, None)) => Heads(lines, n, header) && forall j :: 0 <= j < n ==> !IsData(lines[j])
            case Ok(Found(header, Some(k))) =>
              && Heads(lines, n, header) && k < n && IsData(lines[k])
              && forall j :: 0 <= j < n && j != k ==> !IsData(lines[j])
  {
    hide IsData, Trim, TrimNewlines;
    if n > 0 {
      FieldsExact(lines, n - 1);
      NotBoth(lines[n - 1]);
    }
  }

  lemma OnlyData(lines: seq<string>, k: nat)
    requires CarriesData(lines, k)
    ensures Fields(lines, |lines|).Ok? && Fields(lines, |lines|).value.data == Some(k)
  {
    hide IsData, Fields, Heads;
    FieldsExact(lines, |lines|);
  }

  // ----- the theorems

  /** A frame that carries an event of a type to be restored is rebuilt around the restored event. */
  lemma RebuiltFrame(codec: Codec, mode: Mode, restore: Restore, frame: string, k: nat)
    returns (event: Json, after: Json)
    requires Transformed(codec, mode, restore, frame).Ok? && CarriesData(SplitLines(frame), k)
    requires DataOf(SplitLines(frame)[k]) != "[DONE]"
    ensures var lines, out := SplitLines(frame), Transformed(codec, mode, restore, frame).value;
            && k < |lines| && codec.parse(DataOf(lines[k])) == Some(event) && TypeOf(event).Some?
            && if !IsRestorable(mode, TypeOf(event).value) then out == frame
               else
                 && RestoredEvent(TypeOf(event).value, event, restore) == Ok(after) && codec.encode(after).Some?
                 && out == Concat(lines[k := DataLine(codec.encode(after).value, Newline(lines[k]))])
  {
    hide Utf8.Valid, RestoredEvent, SplitLines, Fields, TrimNewlines, TrimStart, IsRestorable, TypeOf, Concat, IsData;
    hide Newline;
    var lines := SplitLines(frame);
    OnlyData(lines, k);
    event := codec.parse(DataOf(lines[k])).value;
    after := event;
    if IsRestorable(mode, TypeOf(event).value) {
      after := RestoredEvent(TypeOf(event).value, event, restore).value;
    }
  }

  lemma CarriesReplaced(lines: seq<string>, k: nat, line: string)
    requires CarriesData(lines, k) && IsData(line)
    ensures CarriesData(lines[k := line], k)
  {
    hide IsData;
  }

  /** Reading a rebuilt frame back gives the restored event. */
  lemma ReadBack(codec: Codec, frame: string, k: nat, after: Json)
    requires SoundPrinter(codec) && FrameEnd(frame, 0) == Some(|frame|) && CarriesData(SplitLines(frame), k)
    requires after.Obj? && codec.encode(after).Some?
    ensures var lines, text := SplitLines(frame), codec.encode(after).value;
            var out := Concat(lines[k := DataLine(text, Newline(lines[k]))]);
            && FrameEnd(out, 0) == Some(|out|) && SplitLines(out) == lines[k := "data: " + text + Newline(lines[k])]
            && CarriesData(SplitLines(out), k) && codec.parse(DataOf(SplitLines(out)[k])) == Some(after)
  {
    hide SplitLines, TrimNewlines, TrimStart, Concat, IsData, IsLine, SoundPrinter, FrameEnd, DataOf, Newline;
    var lines, text := SplitLines(frame), codec.encode(after).value;
    Printed(codec, after);
    FrameLines(frame);
    ProperLines(frame);
    NewLine(lines[k], text);
    var next := lines[k := DataLine(text, Newline(lines[k]))];
    SplitJoined(next);
    CarriesReplaced(lines, k, next[k]);
    OneFrame(frame, lines, k, text);
  }

  /** The strings of an event that are restored in this mode. */
  predicate ModeSink(mode: Mode, event: Json, p: Path) {
    match mode
    case DisplayText => TypeOf(event).Some? && EventSink(TypeOf(event).value, event, p)
    case DeltaOnly => TypeOf(event) == Some("response.output_text.delta") && p == [Key("delta")]
  }

  /**
   * Every frame that carries an event has the text of all its sinks restored, and nothing else of it changed: reading
   * the emitted frame back gives just that event, in the same line of one frame. In display-text mode the sinks are
   * all strings that carry display text, in delta-only mode the delta alone.
   */
  lemma SinksRestored(codec: Codec, mode: Mode, restore: Restore, frame: string, k: nat)
    requires SoundPrinter(codec) && FrameEnd(frame, 0) == Some(|frame|) && CarriesData(SplitLines(frame), k)
    requires Transformed(codec, mode, restore, frame).Ok? && DataOf(SplitLines(frame)[k]) != "[DONE]"
    ensures var lines, out := SplitLines(frame), Transformed(codec, mode, restore, frame).value;
            && FrameEnd(out, 0) == Some(|out|)
            && CarriesData(SplitLines(out), k) && |SplitLines(out)| == |lines|
            && (forall j :: 0 <= j < |lines| && j != k ==> SplitLines(out)[j] == lines[j])
            && codec.parse(DataOf(lines[k])).Some? && codec.parse(DataOf(SplitLines(out)[k])).Some?
            && var event, after := codec.parse(DataOf(lines[k])).value, codec.parse(DataOf(SplitLines(out)[k])).value;
               TypeOf(event).Some? && RestoresAt(event, after, p => ModeSink(mode, event, p), restore)
  {
    hide Transformed, RestoredEvent, SplitLines, IsRestorable, Concat, IsData, RestoresAt, SoundPrinter, FrameEnd;
    hide DataOf, Newline, EventSink, TypeOf, CarriesData;
    var event, after := RebuiltFrame(codec, mode, restore, frame, k);
    var t := TypeOf(event).value;
    if IsRestorable(mode, t) {
      EventRestored(t, event, restore);
      StaysObject(event, after, p => EventSink(t, event, p), restore);
      ReadBack(codec, frame, k, after);
      RestorableSinks(mode, event);
      SinkSame(event, after, p => EventSink(t, event, p), p => ModeSink(mode, event, p), restore);
    } else {
      SilentSinks(mode, event);
      NothingRestored(event, p => ModeSink(mode, event, p), restore);
    }
  }

  lemma RestorableSinks(mode: Mode, event: Json)
    requires TypeOf(event).Some? && IsRestorable(mode, TypeOf(event).value)
    ensures forall p :: ModeSink(mode, event, p) <==> EventSink(TypeOf(event).value, event, p)
  {
    hide TypeOf, ChildSink;
  }

  /** An event of any other type has no strings to restore. */
  lemma SilentSinks(mode: Mode, event: Json)
    requires TypeOf(event).Some? && !IsRestorable(mode, TypeOf(event).value)
    ensures forall p :: !ModeSink(mode, event, p)
  {
    hide TypeOf, ChildSink;
  }

  /** A frame without an event, and the end marker, are emitted byte for byte. */
  lemma OthersEmitted(codec: Codec, mode: Mode, restore: Restore, frame: string)
    requires Utf8.Valid(frame)
    requires var lines := SplitLines(frame);
             || (forall j :: 0 <= j < |lines| ==> !IsData(lines[j]))
             || exists k: nat :: CarriesData(lines, k) && DataOf(lines[k]) == "[DONE]"
    ensures Transformed(codec, mode, restore, frame) == Ok(frame)
  {
    hide Utf8.Valid, RestoredEvent, SplitLines, Fields, TrimNewlines, TrimStart, IsRestorable, TypeOf, Concat, IsData;
    hide Heads;
    var lines := SplitLines(frame);
    FieldsExact(lines, |lines|);
    if k: nat :| CarriesData(lines, k) && DataOf(lines[k]) == "[DONE]" {
      OnlyData(lines, k);
    }
  }

  predicate Printable(codec: Codec, r: Result<Json, SseError>) {
    r.Ok? ==> codec.encode(r.value).Some?
  }

  /** The event in the data line can be restored and printed, and its type is the one the header names, if any. */
  ghost predicate Restorable(codec: Codec, mode: Mode, restore: Restore, lines: seq<string>, k: nat)
    requires CarriesData(lines, k)
  {
    && codec.parse(DataOf(lines[k])).Some?
    && var event := codec.parse(DataOf(lines[k])).value;
       && TypeOf(event).Some?
       && (Heads(lines, |lines|, None) || Heads(lines, |lines|, TypeOf(event)))
       && (IsRestorable(mode, TypeOf(event).value) ==>
             && EventFine(TypeOf(event).value, event)
             && Printable(codec, RestoredEvent(TypeOf(event).value, event, restore)))
  }

  /** A frame is emitted exactly if it is text and carries nothing, the end marker, or one restorable event. */
  lemma EmittedExactly(codec: Codec, mode: Mode, restore: Restore, frame: string)
    ensures var lines := SplitLines(frame);
            Transformed(codec, mode, restore, frame).Ok? <==>
              && Utf8.Valid(frame)
              && (|| (forall j :: 0 <= j < |lines| ==> !IsData(lines[j]))
                  || exists k: nat :: CarriesData(lines, k)
                       && (DataOf(lines[k]) == "[DONE]" || Restorable(codec, mode, restore, lines, k)))
  {
    hide Utf8.Valid, RestoredEvent, SplitLines, Fields, TrimNewlines, TrimStart, IsRestorable, TypeOf, Concat, IsData;
    hide Heads, DataOf, EventFine;
    var lines := SplitLines(frame);
    FieldsExact(lines, |lines|);
    HeaderUnique(lines);
    if Fields(lines, |lines|).Ok? && Fields(lines, |lines|).value.data.Some? {
      var k := Fields(lines, |lines|).value.data.value;
      assert CarriesData(lines, k);
      var event := codec.parse(DataOf(lines[k]));
      if event.Some? && TypeOf(event.value).Some? {
        RestoredExactly(TypeOf(event.value).value, event.value, restore);
      }
    }
  }

  /** There is one last header. */
  lemma HeaderUnique(lines: seq<string>)
    ensures forall a, b {:trigger Heads(lines, |lines|, a), Heads(lines, |lines|, b)} ::
              Heads(lines, |lines|, a) && Heads(lines, |lines|, b) ==> a == b
  {
    hide IsEvent, Trim, TrimNewlines;
  }

  lemma StaysObject(event: Json, after: Json, sink: Sink, restore: Restore)
    requires TypeOf(event).Some? && RestoresAt(event, after, sink, restore)
    ensures after.Obj?
  {
  }

  lemma Printed(codec: Codec, j: Json)
    requires SoundPrinter(codec) && codec.encode(j).Some? && j.Obj?
    ensures var text := codec.encode(j).value;
            codec.parse(text) == Some(j) && Unbroken(text) && text != "" && text[0] == '{'
  {
  }

  lemma FrameLines(frame: string)
    requires FrameEnd(frame, 0) == Some(|frame|)
    ensures frame != "" && frame[|frame| - 1] == '\n'
  {
    FrameEndExact(frame);
    var start: nat :| EndsFirst(frame, start, |frame|);
  }

  /** A data line is a stretch that begins with `data:`, and its newline. */
  lemma DataParts(line: string)
    requires IsLine(line) && IsData(line)
    ensures var content := TrimNewlines(line);
            && line == content + Newline(line) && content != "" && !Break(content[0])
                 && !Break(content[|content| - 1]) && Newline(line) != ""
  {
    hide TrimNewlines;
    TrimmedPrefix(line);
    LineNewline(line);
    assert TrimNewlines(line)[0] == "data:"[0];
  }

  lemma OneFrame(frame: string, lines: seq<string>, k: nat, text: string)
    requires lines == SplitLines(frame) && FrameEnd(frame, 0) == Some(|frame|) && AllLines(lines)
    requires k < |lines| && IsData(lines[k]) && Unbroken(text)
    ensures var out := Concat(lines[k := DataLine(text, Newline(lines[k]))]);
            FrameEnd(out, 0) == Some(|out|)
  {
    hide SplitLines, TrimNewlines, FrameEnd, Concat, Unbroken, IsLine, IsData, Newline, Break;
    var line, newline := lines[k], Newline(lines[k]);
    var content := TrimNewlines(line);
    var before, rest := Concat(lines[..k]), Concat(lines[k + 1..]);
    LinesConcat(frame);
    ConcatAt(lines, k);
    ConcatWith(lines, k, DataLine(text, newline));
    DataParts(line);
    UnbrokenData(text);
    Regroup(before, content, newline, rest);
    Regroup(before, "data: " + text, newline, rest);
    StillOneFrame(before, content, "data: " + text, newline + rest);
  }

  lemma Regroup(a: string, b: string, c: string, d: string)
    ensures a + (b + c) + d == a + b + (c + d)
  {
  }

  lemma UnbrokenData(text: string)
    requires Unbroken(text)
    ensures Unbroken("data: " + text)
  {
    var s := "data: " + text;
    forall i | 0 <= i < |s|
      ensures !Break(s[i])
    {
      if i >= 6 {
        assert s[i] == text[i - 6];
      } else {
        assert s[i] == "data: "[i];
      }
    }
  }

  // ----- the emitted stream

  predicate IsFrame(s: string) { FrameEnd(s, 0) == Some(|s|) }

  lemma {:induction false} CutFrames(stream: string, k: nat)
    requires k < |Cut(stream)|
    ensures IsFrame(Cut(stream)[k])
    decreases |stream|
  {
    FrameEndExact(stream);
    var end := FrameEnd(stream, 0).value;
    if k == 0 {
      assert stream == stream[..end] + stream[end..];
      FoundBefore(stream[..end], stream[end..]);
    } else {
      CutFrames(stream[end..], k - 1);
    }
  }

  lemma {:induction false} CutJoined(frames: seq<string>)
    requires forall k :: 0 <= k < |frames| ==> IsFrame(frames[k])
    ensures Cut(Concat(frames)) == frames
  {
    hide FrameEnd;
    if frames != [] {
      CutJoined(frames[1..]);
      var first, rest := frames[0], Concat(frames[1..]);
      FoundStays(first, rest);
      FrameEndExact(first + rest);
      assert (first + rest)[..|first|] == first && (first + rest)[|first|..] == rest;
      assert frames == [first] + frames[1..];
    } else {
      FrameEndExact("");
    }
  }

  /** What is emitted for one frame is one frame. */
  lemma EmittedIsFrame(codec: Codec, mode: Mode, restore: Restore, frame: string)
    requires SoundPrinter(codec) && IsFrame(frame) && Transformed(codec, mode, restore, frame).Ok?
    ensures IsFrame(Transformed(codec, mode, restore, frame).value)
  {
    hide Transformed, SplitLines, FrameEnd, SoundPrinter, RestoresAt, IsData, DataOf, Restorable;
    var lines := SplitLines(frame);
    EmittedExactly(codec, mode, restore, frame);
    if k: nat :| CarriesData(lines, k) && DataOf(lines[k]) != "[DONE]" {
      SinksRestored(codec, mode, restore, frame, k);
    } else {
      OthersEmitted(codec, mode, restore, frame);
    }
  }

  /** The emitted bytes, cut again, are the emitted frames: as many as were received, one for one. */
  lemma EmittedReframes(codec: Codec, mode: Mode, restore: Restore, stream: string)
    requires SoundPrinter(codec)
    requires Drain(frame => Transformed(codec, mode, restore, frame), stream).error.None?
    ensures var d := Drain(frame => Transformed(codec, mode, restore, frame), stream);
            Cut(Concat(d.frames)) == d.frames && |d.frames| == |Cut(stream)| && Concat(Cut(stream)) + d.rest == stream
  {
    hide Transformed, Drain, Cut, FrameEnd, Concat, SoundPrinter;
    var f: Transform := frame => Transformed(codec, mode, restore, frame);
    var d := Drain(f, stream);
    DrainConserves(f, stream);
    forall k | 0 <= k < |d.frames|
      ensures IsFrame(d.frames[k])
    {
      CutFrames(stream, k);
      assert f(Cut(stream)[k]) == Ok(d.frames[k]);
      EmittedIsFrame(codec, mode, restore, Cut(stream)[k]);
    }
    CutJoined(d.frames);
  }
}
