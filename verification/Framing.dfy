/**
 * Cutting a byte stream into frames (src/sse.rs, `find_frame_end`): section 9.2 of the HTML Living Standard with
 * two terminators.
 */
module Framing {
  import opened Domain

  /** The length of the terminator that starts at `i`, 0 if none does. */
  function TermLen(s: string, i: nat): nat {
    if i + 2 <= |s| && s[i] == '\n' && s[i + 1] == '\n' then 2
    else if i + 4 <= |s| && s[i] == '\r' && s[i + 1] == '\n' && s[i + 2] == '\r' && s[i + 3] == '\n' then 4
    else 0
  }

  /** The end of the first frame, searching from `from`. */
  function FrameEnd(s: string, from: nat): Option<nat>
    decreases |s| - from
  {
    if from >= |s| then None
    else if TermLen(s, from) > 0 then Some(from + TermLen(s, from))
    else FrameEnd(s, from + 1)
  }

  method FindFrameEnd(bytes: string) returns (end: Option<nat>)
    ensures end == FrameEnd(bytes, 0)
  {
    for index := 0 to |bytes|
      invariant FrameEnd(bytes, index) == FrameEnd(bytes, 0)
    {
      if bytes[index] == '\n' && index + 2 <= |bytes| && bytes[index + 1] == '\n' {
        return Some(index + 2);
      }
      if index + 4 <= |bytes| && bytes[index..index + 4] == "\r\n\r\n" {
        FourBytes(bytes, index);
        return Some(index + 4);
      }
      FourBytes(bytes, index);
    }
    end := None;
  }

  lemma FourBytes(s: string, i: nat)
    ensures i + 4 <= |s| ==>
              (s[i..i + 4] == "\r\n\r\n" <==> s[i] == '\r' && s[i + 1] == '\n' && s[i + 2] == '\r' && s[i + 3] == '\n')
  {
    if i + 4 <= |s| {
      var t := s[i..i + 4];
      assert t[0] == s[i] && t[1] == s[i + 1] && t[2] == s[i + 2] && t[3] == s[i + 3];
      assert |t| == 4 && |"\r\n\r\n"| == 4;
    }
  }

  /** `end` is where the earliest terminator stops. */
  ghost predicate EndsFirst(s: string, start: nat, end: nat) {
    && start < end <= |s| && TermLen(s, start) == end - start
    && forall k: nat :: k < start ==> TermLen(s, k) == 0
  }

  ghost predicate EndsAt(s: string, end: nat) {
    exists start: nat :: EndsFirst(s, start, end)
  }

  lemma {:induction false} FrameEndFrom(s: string, from: nat)
    requires forall k: nat :: k < from ==> TermLen(s, k) == 0
    ensures match FrameEnd(s, from)
            case Some(end) => EndsAt(s, end)
            case None => forall k: nat :: TermLen(s, k) == 0
    decreases |s| - from
  {
    if from >= |s| {
    } else if TermLen(s, from) > 0 {
      assert EndsFirst(s, from, from + TermLen(s, from));
      assert EndsAt(s, from + TermLen(s, from));
    } else {
      FrameEndFrom(s, from + 1);
    }
  }

  lemma FrameEndExact(s: string)
    ensures match FrameEnd(s, 0)
            case Some(end) => 2 <= end <= |s| && EndsAt(s, end)
            case None => forall k: nat :: TermLen(s, k) == 0
  {
    FrameEndFrom(s, 0);
  }

  lemma {:induction false} FrameEndIs(s: string, from: nat, start: nat, end: nat)
    requires EndsFirst(s, start, end) && from <= start
    ensures FrameEnd(s, from) == Some(end)
    decreases start - from
  {
    if from < start {
      FrameEndIs(s, from + 1, start, end);
    }
  }

  lemma {:induction false} NoFrameEnd(s: string, from: nat)
    requires forall k: nat :: from <= k < |s| ==> TermLen(s, k) == 0
    ensures FrameEnd(s, from) == None
    decreases |s| - from
  {
    if from < |s| {
      NoFrameEnd(s, from + 1);
    }
  }

  /** A terminator that is complete is seen the same with more bytes behind it. */
  lemma TermLenLocal(s: string, t: string, k: nat)
    ensures TermLen(s, k) > 0 ==> TermLen(s + t, k) == TermLen(s, k)
    ensures k + TermLen(s + t, k) <= |s| ==> TermLen(s + t, k) == TermLen(s, k)
  {
  }

  /** The end of a frame, once found, does not move when more bytes arrive. */
  lemma FoundStays(s: string, t: string)
    requires FrameEnd(s, 0).Some?
    ensures FrameEnd(s + t, 0) == FrameEnd(s, 0)
  {
    FrameEndExact(s);
    var end := FrameEnd(s, 0).value;
    var start: nat :| EndsFirst(s, start, end);
    forall k: nat | k < start
      ensures TermLen(s + t, k) == 0
    {
      NoneBecomesTerminator(s, t, start, k);
    }
    TermLenLocal(s, t, start);
    FrameEndIs(s + t, 0, start, end);
  }

  /** Bytes before a complete terminator cannot become the start of another one. */
  lemma NoneBecomesTerminator(s: string, t: string, start: nat, k: nat)
    requires k < start && TermLen(s, start) > 0 && TermLen(s, k) == 0
    ensures TermLen(s + t, k) == 0
  {
  }

  /** A frame end that lies within the bytes already there was there before the rest arrived. */
  lemma FoundBefore(s: string, t: string)
    requires FrameEnd(s + t, 0).Some? && FrameEnd(s + t, 0).value <= |s|
    ensures FrameEnd(s, 0) == FrameEnd(s + t, 0)
  {
    FrameEndExact(s + t);
    var end := FrameEnd(s + t, 0).value;
    var start: nat :| EndsFirst(s + t, start, end);
    forall k: nat | k < start
      ensures TermLen(s, k) == 0
    {
      TermLenLocal(s, t, k);
    }
    TermLenLocal(s, t, start);
    FrameEndIs(s, 0, start, end);
  }

  lemma NoneFound(s: string, t: string)
    requires FrameEnd(s + t, 0).None?
    ensures FrameEnd(s, 0).None?
  {
    if FrameEnd(s, 0).Some? {
      FoundStays(s, t);
    }
  }

  predicate IsTerminator(s: string) { s == "\n\n" || s == "\r\n\r\n" }

  /** The bytes from `i` up to `j` are a terminator. */
  predicate TerminatedAt(s: string, i: nat, j: nat) { i <= j <= |s| && IsTerminator(s[i..j]) }

  lemma TerminatorLength(s: string, i: nat, j: nat)
    ensures TerminatedAt(s, i, j) <==> i < j <= |s| && TermLen(s, i) == j - i
  {
    if i <= j <= |s| {
      var t := s[i..j];
      assert forall k :: 0 <= k < |t| ==> t[k] == s[i + k];
      assert TermLen(s, i) == 2 && j == i + 2 ==> t == "\n\n";
      assert TermLen(s, i) == 4 && j == i + 4 ==> t == "\r\n\r\n";
    }
  }

  /** The first frame ends behind the first blank line, of either kind of line break. */
  lemma FrameEndsAtBlankLine(s: string)
    ensures match FrameEnd(s, 0)
            case Some(end) =>
              exists start: nat :: TerminatedAt(s, start, end) && NoneBefore(s, start)
            case None => NoneBefore(s, |s|)
  {
    hide TermLen, TerminatedAt;
    FrameEndExact(s);
    forall i: nat, j: nat
      ensures TerminatedAt(s, i, j) <==> i < j <= |s| && TermLen(s, i) == j - i
    {
      TerminatorLength(s, i, j);
    }
    if FrameEnd(s, 0).Some? {
      var start: nat :| EndsFirst(s, start, FrameEnd(s, 0).value);
      assert TerminatedAt(s, start, FrameEnd(s, 0).value) && NoneBefore(s, start);
    }
  }

  ghost predicate NoneBefore(s: string, n: nat) {
    forall i: nat, j: nat :: i < n ==> !TerminatedAt(s, i, j)
  }
}
