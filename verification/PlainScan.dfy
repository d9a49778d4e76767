/** Scans whose result can be said outright (src/detector.rs): plain texts, dotted candidates, and the size limit. */
module PlainScan {
  import opened Domain
  import opened Normalization
  import opened Scan
  import opened Views
  import Decoders
  import Utf8

  // ----- plain texts

  /** ASCII without the two characters that decoders look for. */
  predicate Plain(s: string) {
    forall k :: 0 <= k < |s| ==> Utf8.IsAscii(s[k]) && s[k] != '\\' && s[k] != '%'
  }

  /** The view in which every byte stands for itself. */
  function Itself(s: string): View {
    View(s, seq(|s|, k requires 0 <= k < |s| => Span(k, k + 1)))
  }

  lemma IdentityIsItself(s: string)
    requires forall k :: 0 <= k < |s| ==> Utf8.IsAscii(s[k])
    ensures Decoders.Identity(s) == Itself(s)
  {
    forall k | 0 <= k < |s|
      ensures Decoders.Identity(s).origins[k] == Span(k, k + 1)
    {
      Decoders.IdentityAt(s, k);
    }
  }

  /** The transform copies the text from `i` on. */
  predicate Copies(t: Transform, s: string, i: nat)
    requires i <= |s|
  {
    forall k :: i <= k < |s| ==> Step(t, s, k) == Copy(s, k)
  }

  lemma {:induction false} Untouched(t: Transform, view: View, i: nat)
    requires |view.text| == |view.origins| && i <= |view.text| && Copies(t, view.text, i)
    ensures Rewrite(t, view, i) == View(view.text[i..], view.origins[i..]) && !Changes(t, view.text, i)
    decreases |view.text| - i
  {
    hide Step, PieceSource;
    if i < |view.text| {
      assert Step(t, view.text, i) == Copy(view.text, i);
      Untouched(t, view, i + 1);
      Decoders.CopiedByte(view, i);
      assert view.text[i..] == [view.text[i]] + view.text[i + 1..];
      assert view.origins[i..] == [view.origins[i]] + view.origins[i + 1..];
    }
  }

  lemma PlainCopied(nfkc: string -> string, s: string)
    requires KeepsAscii(nfkc) && Plain(s)
    ensures Copies(Canonical(nfkc), s, 0) && Copies(Continuations, s, 0)
    ensures Copies(JsonEscapes, s, 0) && Copies(PercentEscapes, s, 0)
  {
    forall k | 0 <= k < |s|
      ensures CanonicalStep(nfkc, s, k) == Copy(s, k)
    {
      assert s[k..k + 1] == [s[k]];
    }
  }

  /** A plain text is scanned as it stands, every byte traced to itself. */
  lemma PlainNormalized(nfkc: string -> string, s: string)
    requires KeepsAscii(nfkc) && Plain(s)
    ensures Decoders.Normalized(nfkc, s) == Itself(s)
  {
    hide Rewrite, Copies, KeepsAscii;
    IdentityIsItself(s);
    PlainCopied(nfkc, s);
    Untouched(Canonical(nfkc), Itself(s), 0);
    assert s[0..] == s && Itself(s).origins[0..] == Itself(s).origins;
    Untouched(Continuations, Itself(s), 0);
  }

  lemma {:induction false} PlainAlone(nfkc: string -> string, s: string, v: View, k: nat)
    requires KeepsAscii(nfkc) && Plain(s)
    ensures Reachable(nfkc, Itself(s), v, k) <==> v == Itself(s)
    decreases k
  {
    hide KeepsAscii, Plain;
    if k > 0 && v != Itself(s) && Reachable(nfkc, Itself(s), v, k) {
      var u :| Reachable(nfkc, Itself(s), u, k - 1) && Child(nfkc, u, v);
      PlainAlone(nfkc, s, u, k - 1);
      PlainChildless(nfkc, s);
      assert false;
    }
  }

  lemma PlainChildless(nfkc: string -> string, s: string)
    requires KeepsAscii(nfkc) && Plain(s)
    ensures Expands(Itself(s)) && forall v :: !Child(nfkc, Itself(s), v)
  {
    hide Rewrite, Copies, KeepsAscii, Plain, Changes;
    PlainCopied(nfkc, s);
    Untouched(JsonEscapes, Itself(s), 0);
    Untouched(PercentEscapes, Itself(s), 0);
  }

  /** Every plain text can be scanned. */
  lemma PlainScannable(s: Scanner, source: string)
    requires KeepsAscii(s.nfkc) && Plain(source)
    ensures Scannable(s, source)
  {
    hide KeepsAscii, Plain, Reachable, Expands, ViewCount;
    var root := Itself(source);
    PlainNormalized(s.nfkc, source);
    PlainChildless(s.nfkc, source);
    forall v, k: nat
      ensures Reachable(s.nfkc, root, v, k) <==> v == root
    {
      PlainAlone(s.nfkc, source, v, k);
    }
    assert |root.text| == |root.origins|;
    forall list | ExactlyReachable(s.nfkc, root, list)
      ensures ViewCount(list) <= MAX_SCAN_VIEWS
    {
      assert forall v :: v in list <==> Reachable(s.nfkc, root, v, MAX_DECODE_LAYERS);
      OneView(list, root);
    }
  }

  lemma OneView(list: seq<View>, root: View)
    requires forall v :: v in list <==> v == root
    requires forall i, j :: 0 <= i < j < |list| ==> list[i] != list[j]
    ensures ViewCount(list) <= 2
  {
    hide ViewCount, Changes;
    ViewCountIs(list);
    assert Members(list) == {root};
    assert Splitting(list) == {root} || Splitting(list) == {};
  }

  /** What a detector matches in a plain text is reported where it stands. */
  lemma PlainReported(s: Scanner, source: string, findings: seq<Finding>, m: Match) returns (f: Finding)
    requires SoundScanner(s) && KeepsAscii(s.nfkc) && Plain(source) && Reports(s, source, findings)
    requires m in s.detect(Itself(source), false)
    ensures f in findings && f.span == Span(m.from, m.to) && f.dataClass == m.dataClass && f.detector == m.detector
  {
    hide KeepsAscii, Plain, Aligned;
    var root := Itself(source);
    PlainNormalized(s.nfkc, source);
    var v := ScanView(root, false);
    assert Scanned(s.nfkc, root, v.view, v.secret);
    assert MatchOf(s, v, m);
    var g := Traced(root, m);
    assert FoundIn(s, v, g);
    assert Represented(g, findings);
    f :| f in findings && SameFinding(g, f);
    ItselfStretch(source, m.from, m.to);
  }

  lemma ItselfStretch(s: string, from: nat, to: nat)
    requires from < to <= |s|
    ensures PieceSource(Itself(s), from, to) == Span(from, to)
  {
    var slice := Itself(s).origins[from..to];
    assert Ordered(slice);
    HullOfOrdered(slice);
  }

  // ----- dotted candidates

  const LOWER: string := "abcdefghijklmnopqrstuvwxyz"
  const UPPER: string := "ABCDEFGHIJKLMNOPQRSTUVWXYZ"
  const OTHER: string := "0123456789_-"

  predicate Candidate(c: char) { c in LOWER || c in UPPER || c in OTHER }

  /** A nonempty run of characters a secret may be made of. */
  predicate Segment(s: string) { s != "" && forall k :: 0 <= k < |s| ==> Candidate(s[k]) }

  function Dotted(parts: seq<string>): string {
    if parts == [] then "" else if |parts| == 1 then parts[0] else parts[0] + "." + Dotted(parts[1..])
  }

  function Undotted(parts: seq<string>): string {
    if parts == [] then "" else parts[0] + Undotted(parts[1..])
  }

  lemma LowerBytes(c: char)
    requires c in LOWER
    ensures IsTokenByte(c) && c != '.'
  {
    var k :| 0 <= k < |LOWER| && LOWER[k] == c;
    assert forall i :: 0 <= i < |LOWER| ==> 'a' <= LOWER[i] <= 'z';
  }

  lemma UpperBytes(c: char)
    requires c in UPPER
    ensures IsTokenByte(c) && c != '.'
  {
    var k :| 0 <= k < |UPPER| && UPPER[k] == c;
    assert forall i :: 0 <= i < |UPPER| ==> 'A' <= UPPER[i] <= 'Z';
  }

  lemma OtherBytes(c: char)
    requires c in OTHER
    ensures IsTokenByte(c) && c != '.'
  {
    var k :| 0 <= k < |OTHER| && OTHER[k] == c;
    assert forall i :: 0 <= i < |OTHER| ==> '0' <= OTHER[i] <= '9' || OTHER[i] == '_' || OTHER[i] == '-';
  }

  lemma CandidateBytes(c: char)
    requires Candidate(c)
    ensures IsTokenByte(c) && c != '.'
  {
    hide IsTokenByte;
    if c in LOWER {
      LowerBytes(c);
    } else if c in UPPER {
      UpperBytes(c);
    } else {
      OtherBytes(c);
    }
  }

  /** Copying a run of candidate characters. */
  lemma {:induction false} RunCopied(view: View, i: nat, j: nat)
    requires |view.text| == |view.origins| && i <= j <= |view.text|
    requires forall k :: i <= k < j ==> view.text[k] != '.'
    ensures Rewrite(Separators, view, i).text == view.text[i..j] + Rewrite(Separators, view, j).text
    decreases j - i
  {
    hide PieceSource;
    if i < j {
      RunCopied(view, i + 1, j);
      assert view.text[i..j] == [view.text[i]] + view.text[i + 1..j];
      assert SeparatorStep(view.text, i) == Copy(view.text, i);
    } else {
      assert view.text[i..j] == "";
    }
  }

  lemma DotDropped(view: View, i: nat)
    requires |view.text| == |view.origins| && 0 < i && i + 1 < |view.text| && view.text[i] == '.'
    requires IsTokenByte(view.text[i - 1]) && IsTokenByte(view.text[i + 1])
    ensures Rewrite(Separators, view, i).text == Rewrite(Separators, view, i + 1).text
  {
    assert SeparatorStep(view.text, i) == Piece("", i + 1, true);
  }

  /** One segment and the dot behind it. */
  lemma SegmentStep(before: string, first: string, next: string, view: View)
    requires view.text == before + (first + ("." + next)) && |view.origins| == |view.text|
    requires Segment(first) && next != "" && Candidate(next[0])
    ensures |before| + |first| + 1 <= |view.text|
    ensures Rewrite(Separators, view, |before|).text
         == first + Rewrite(Separators, view, |before| + |first| + 1).text
  {
    hide Rewrite, IsTokenByte, Candidate;
    var i, j, tail := |before|, |before| + |first|, "." + next;
    Placed(view.text, before, first, tail);
    RunCopied(view, i, j);
    assert view.text[j - 1] == first[|first| - 1] && view.text[j + 1] == next[0];
    CandidateBytes(view.text[j - 1]);
    CandidateBytes(view.text[j + 1]);
    DotDropped(view, j);
  }

  lemma LastSegment(before: string, first: string, view: View)
    requires view.text == before + first && |view.origins| == |view.text| && Segment(first)
    ensures Rewrite(Separators, view, |before|).text == first
  {
    hide Rewrite, Candidate;
    assert view.text == before + (first + "");
    Placed(view.text, before, first, "");
    RunCopied(view, |before|, |view.text|);
    Emptied(view, |view.text|);
  }

  lemma FirstCandidate(parts: seq<string>)
    requires parts != [] && forall k :: 0 <= k < |parts| ==> Segment(parts[k])
    ensures Dotted(parts) != "" && Candidate(Dotted(parts)[0])
  {
    hide Candidate;
    assert Segment(parts[0]);
  }

  lemma {:induction false} SegmentsJoined(before: string, parts: seq<string>, view: View)
    requires view.text == before + Dotted(parts) && |view.origins| == |view.text|
    requires forall k :: 0 <= k < |parts| ==> Segment(parts[k])
    ensures Rewrite(Separators, view, |before|).text == Undotted(parts)
    decreases |parts|
  {
    hide Rewrite, Segment, Candidate;
    if parts == [] {
      Emptied(view, |before|);
    } else if |parts| == 1 {
      LastSegment(before, parts[0], view);
      assert Undotted(parts[1..]) == "";
    } else {
      var first, next := parts[0], Dotted(parts[1..]);
      assert first + "." + next == first + ("." + next);
      assert forall k :: 0 <= k < |parts[1..]| ==> parts[1..][k] == parts[k + 1];
      FirstCandidate(parts[1..]);
      SegmentStep(before, first, next, view);
      assert view.text == (before + first + ".") + next;
      SegmentsJoined(before + first + ".", parts[1..], view);
    }
  }

  lemma Emptied(view: View, i: nat)
    requires |view.text| == |view.origins| && i == |view.text|
    ensures Rewrite(Separators, view, i).text == ""
  {
  }

  lemma Placed(text: string, before: string, first: string, tail: string)
    requires text == before + (first + tail) && Segment(first)
    ensures |before| + |first| <= |text| && text[|before|..|before| + |first|] == first
    ensures forall k :: |before| <= k < |before| + |first| ==> text[k] != '.'
    ensures tail != "" ==> |before| + |first| < |text| && text[|before| + |first|] == tail[0]
    ensures tail == "" ==> |text| == |before| + |first|
  {
    forall k | |before| <= k < |before| + |first|
      ensures text[k] != '.'
    {
      assert text[k] == first[k - |before|];
      CandidateBytes(first[k - |before|]);
    }
  }

  /** A secret written with dots inside is collapsed to the secret, however often it is divided. */
  lemma DotsDropped(parts: seq<string>, view: View)
    requires view.text == Dotted(parts) && |view.origins| == |view.text|
    requires forall k :: 0 <= k < |parts| ==> Segment(parts[k])
    ensures Rewrite(Separators, view, 0).text == Undotted(parts)
  {
    assert view.text == "" + Dotted(parts);
    SegmentsJoined("", parts, view);
  }

  // ----- the size limit

  /** Normalization at most doubles a character. */
  ghost predicate AtMostDoubles(nfkc: string -> string) {
    forall s :: |nfkc(s)| <= 2 * |s|
  }

  lemma {:induction false} CanonicalGrows(nfkc: string -> string, view: View, i: nat)
    requires AtMostDoubles(nfkc) && |view.text| == |view.origins| && i <= |view.text|
    ensures |Rewrite(Canonical(nfkc), view, i).text| <= 2 * (|view.text| - i)
    decreases |view.text| - i
  {
    hide Utf8.ScalarOf, PieceSource, IsInvisibleControl;
    if i < |view.text| {
      CanonicalGrows(nfkc, view, CanonicalStep(nfkc, view.text, i).next);
    }
  }

  lemma {:induction false} JoiningShrinks(view: View, i: nat)
    requires |view.text| == |view.origins| && i <= |view.text|
    ensures |Rewrite(Continuations, view, i).text| <= |view.text| - i
    decreases |view.text| - i
  {
    hide PieceSource, SkipBlanks;
    if i < |view.text| {
      JoiningShrinks(view, ContinuationStep(view.text, i).next);
    }
  }

  lemma ChildGrows(nfkc: string -> string, u: View, v: View)
    requires AtMostDoubles(nfkc) && Child(nfkc, u, v)
    ensures |v.text| <= 2 * |u.text|
  {
    hide Rewrite, AtMostDoubles, Changes;
    var t :| (t == JsonEscapes || t == PercentEscapes) && ChildBy(nfkc, t, u, v);
    DecodingShrinks(t, u, 0);
    var d := Rewrite(t, u, 0);
    CanonicalGrows(nfkc, d, 0);
    JoiningShrinks(Rewrite(Canonical(nfkc), d, 0), 0);
  }

  lemma {:induction false} ReachableGrows(nfkc: string -> string, root: View, v: View, k: nat)
    requires AtMostDoubles(nfkc) && Reachable(nfkc, root, v, k) && k <= 2
    ensures |v.text| <= (if k == 0 then 1 else if k == 1 then 2 else 4) * |root.text|
    decreases k
  {
    hide AtMostDoubles, Child;
    if v != root {
      var u :| Reachable(nfkc, root, u, k - 1) && Child(nfkc, u, v);
      ReachableGrows(nfkc, root, u, k - 1);
      ChildGrows(nfkc, u, v);
    }
  }

  /** The size limit never stops the search while normalization at most doubles a text in each of the two layers. */
  lemma SizeNeverStops(nfkc: string -> string, root: View, v: View)
    requires AtMostDoubles(nfkc) && |root.text| == |root.origins| && Reachable(nfkc, root, v, MAX_DECODE_LAYERS)
    ensures |v.text| <= SizeLimit(root)
  {
    hide AtMostDoubles, Reachable;
    ReachableGrows(nfkc, root, v, MAX_DECODE_LAYERS);
  }
}
