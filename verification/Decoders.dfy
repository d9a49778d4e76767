/** The transforms of src/detector.rs as the loops that run them, each proved to compute `Views.Rewrite`. */
module Decoders {
  import opened Domain
  import opened Views
  import Utf8

  // ----- the view a text starts as: every byte comes from its own character

  function CharStart(s: string, i: nat): (j: nat)
    requires i < |s|
    ensures j <= i && Utf8.IsBoundary(s, j)
  {
    if i == 0 || !Utf8.IsContinuation(s[i]) then i else CharStart(s, i - 1)
  }

  function CharEnd(s: string, i: nat): (j: nat)
    requires i <= |s|
    ensures i <= j <= |s| && (i > 0 ==> Utf8.IsBoundary(s, j))
    decreases |s| - i
  {
    if i == |s| || !Utf8.IsContinuation(s[i]) then i else CharEnd(s, i + 1)
  }

  function Identity(source: string): (v: View)
    ensures |v.text| == |v.origins| && v.text == source
  {
    View(source, seq(|source|, i requires 0 <= i < |source| => Span(CharStart(source, i), CharEnd(source, i + 1))))
  }

  lemma {:induction false} CharStartMonotone(s: string, i: nat, j: nat)
    requires i <= j < |s|
    ensures CharStart(s, i) <= CharStart(s, j)
  {
    if i < j && Utf8.IsContinuation(s[j]) {
      CharStartMonotone(s, i, j - 1);
    }
  }

  lemma {:induction false} CharEndMonotone(s: string, i: nat, j: nat)
    requires i <= j <= |s|
    ensures CharEnd(s, i) <= CharEnd(s, j)
    decreases |s| - i
  {
    if i < j && Utf8.IsContinuation(s[i]) {
      CharEndMonotone(s, i + 1, j);
    }
  }

  lemma IdentityOrdered(source: string)
    ensures Ordered(Identity(source).origins)
  {
    var origins := Identity(source).origins;
    forall i, j | 0 <= i <= j < |origins|
      ensures NotAfter(origins[i], origins[j])
    {
      CharStartMonotone(source, i, j);
      CharEndMonotone(source, i + 1, j + 1);
    }
  }

  lemma IdentityAt(source: string, k: nat)
    requires k < |source|
    ensures Identity(source).origins[k] == Span(CharStart(source, k), CharEnd(source, k + 1))
  {
  }

  lemma IdentityWellMapped(source: string)
    requires Utf8.Valid(source)
    ensures WellMapped(source, Identity(source))
  {
    hide Utf8.Valid;
    IdentityOrdered(source);
    var origins := Identity(source).origins;
    forall k | 0 <= k < |origins|
      ensures OnBoundaries(source, origins[k])
    {
      IdentityAt(source, k);
    }
  }

  /** The combined source the code computes is the one the description of a transform uses. */
  lemma CombinedInView(source: string, view: View, from: nat, to: nat)
    requires WellMapped(source, view) && from < to <= |view.text|
    ensures |view.origins| == |view.text|
    ensures CombinedSource(view.origins, from, to) == Ok(PieceSource(view, from, to))
    ensures PieceSource(view, from, to) == Span(view.origins[from].start, view.origins[to - 1].end)
  {
    hide Utf8.Valid;
    CombinedSourceCovers(source, view.origins, from, to);
  }

  /** On the identity view the combined source of an aligned stretch is that stretch itself. */
  lemma IdentityStretch(source: string, i: nat, j: nat)
    requires Utf8.Valid(source) && i < j <= |source| && Utf8.IsBoundary(source, i) && Utf8.IsBoundary(source, j)
    ensures PieceSource(Identity(source), i, j) == Span(i, j)
  {
    hide Utf8.Valid, WellMapped, MinStart, MaxEnd, Identity;
    IdentityWellMapped(source);
    CombinedInView(source, Identity(source), i, j);
    IdentityAt(source, i);
    IdentityAt(source, j - 1);
    assert i == 0 || !Utf8.IsContinuation(source[i]);
    assert j == |source| || !Utf8.IsContinuation(source[j]);
  }

  /** At a character boundary the canonical transform consumes exactly one character. */
  lemma CanonicalAt(nfkc: string -> string, text: string, i: nat)
    requires Utf8.Valid(text) && i < |text| && Utf8.IsBoundary(text, i)
    ensures var n := Utf8.CharLen(text[i]);
            && 0 < n && i + n <= |text| && Utf8.IsBoundary(text, i + n)
            && Step(Canonical(nfkc), text, i)
               == var c := text[i..i + n];
                  Piece(if IsInvisibleControl(Utf8.ScalarOf(c)) then "" else nfkc(c), i + n, false)
  {
    Utf8.CharEnds(text, i);
  }

  // ----- results of the transforms

  function Canonicalized(nfkc: string -> string, view: View): View
    requires |view.text| == |view.origins|
  {
    Rewrite(Continuations, Rewrite(Canonical(nfkc), view, 0), 0)
  }

  function Normalized(nfkc: string -> string, source: string): View {
    Canonicalized(nfkc, Identity(source))
  }

  /** `Ok(None)` when the transform changes nothing. */
  function Decoded(t: Transform, view: View): Result<Option<View>, DetectorError>
    requires |view.text| == |view.origins|
  {
    if !Changes(t, view.text, 0) then Ok(None)
    else if t.PercentEscapes? && !Utf8.Valid(Rewrite(t, view, 0).text) then Err(InvalidPercentEncoding)
    else Ok(Some(Rewrite(t, view, 0)))
  }

  lemma CanonicalizedWellMapped(source: string, nfkc: string -> string, view: View)
    requires WellMapped(source, view) && ValidForm(nfkc)
    ensures WellMapped(source, Canonicalized(nfkc, view))
  {
    TransformKeepsWellMapped(source, Canonical(nfkc), view);
    TransformKeepsWellMapped(source, Continuations, Rewrite(Canonical(nfkc), view, 0));
  }

  lemma DecodedWellMapped(source: string, t: Transform, view: View)
    requires WellMapped(source, view) && !t.Canonical? && Decoded(t, view).Ok? && Decoded(t, view).value.Some?
    ensures WellMapped(source, Decoded(t, view).value.value)
  {
    TransformKeepsWellMapped(source, t, view);
  }

  // ----- the loops

  function FromBytes(bytes: string, mappings: seq<Span>): Result<View, DetectorError> {
    if |bytes| != |mappings| then Err(InvalidSourceMap)
    else if !Utf8.Valid(bytes) then Err(InvalidNormalizedUtf8)
    else Ok(View(bytes, mappings))
  }

  /** Output so far plus what the rest of the input becomes is the whole result. */
  ghost predicate Progress(t: Transform, view: View, i: nat, output: string, mappings: seq<Span>)
    requires |view.text| == |view.origins|
  {
    && i <= |view.text| && |output| == |mappings|
    && output + Rewrite(t, view, i).text == Rewrite(t, view, 0).text
    && mappings + Rewrite(t, view, i).origins == Rewrite(t, view, 0).origins
  }

  lemma ProgressStart(t: Transform, view: View)
    requires |view.text| == |view.origins|
    ensures Progress(t, view, 0, "", [])
  {
    assert "" + Rewrite(t, view, 0).text == Rewrite(t, view, 0).text;
  }

  lemma ProgressStep(t: Transform, view: View, i: nat, output: string, mappings: seq<Span>)
    requires |view.text| == |view.origins| && i < |view.text| && Progress(t, view, i, output, mappings)
    ensures var p := Step(t, view.text, i);
            Progress(t, view, p.next, output + p.out, mappings + Repeat(PieceSource(view, i, p.next), |p.out|))
  {
    hide Step, PieceSource;
    var p := Step(t, view.text, i);
    var rest := Rewrite(t, view, p.next);
    var added := Repeat(PieceSource(view, i, p.next), |p.out|);
    assert output + (p.out + rest.text) == output + p.out + rest.text;
    assert mappings + (added + rest.origins) == mappings + added + rest.origins;
  }

  lemma CopiedByte(view: View, i: nat)
    requires |view.text| == |view.origins| && i < |view.text|
    ensures Repeat(PieceSource(view, i, i + 1), 1) == [view.origins[i]]
  {
    assert view.origins[i..i + 1] == [view.origins[i]];
  }

  lemma ProgressDone(t: Transform, view: View, output: string, mappings: seq<Span>)
    requires |view.text| == |view.origins| && Progress(t, view, |view.text|, output, mappings)
    ensures View(output, mappings) == Rewrite(t, view, 0)
  {
    assert output + "" == output && mappings + [] == mappings;
  }

  /** An empty piece leaves the output as it is. */
  lemma DroppedPiece(output: string, mappings: seq<Span>, s: Span)
    ensures output + "" == output && mappings + Repeat(s, 0) == mappings
  {
    assert Repeat(s, 0) == [];
  }

  method RemoveStructuralContinuations(ghost source: string, view: View) returns (r: Result<View, DetectorError>)
    requires WellMapped(source, view)
    ensures r == Ok(Rewrite(Continuations, view, 0))
    ensures WellMapped(source, r.value)
  {
    hide Progress, MapOk, Rewrite, MinStart, MaxEnd, Utf8.Valid;
    ProgressStart(Continuations, view);
    var bytes := view.text;
    var output, mappings, index := "", [], 0;
    while index < |bytes|
      invariant index <= |bytes| && Progress(Continuations, view, index, output, mappings)
      decreases |bytes| - index
    {
      ProgressStep(Continuations, view, index, output, mappings);
      CopiedByte(view, index);
      var end := 0;
      if bytes[index] == '\\' {
        if index + 1 < |bytes| && bytes[index + 1] == '\n' {
          end := index + 2;
        } else if index + 2 < |bytes| && bytes[index + 1] == '\r' && bytes[index + 2] == '\n' {
          end := index + 3;
        }
      }
      if end > 0 {
        ghost var from := end;
        while end < |bytes| && (bytes[end] == ' ' || bytes[end] == '\t')
          invariant from <= end <= |bytes| && SkipBlanks(bytes, end) == SkipBlanks(bytes, from)
        {
          end := end + 1;
        }
        DroppedPiece(output, mappings, PieceSource(view, index, end));
        index := end;
        continue;
      }
      output := output + [bytes[index]];
      mappings := mappings + [view.origins[index]];
      index := index + 1;
    }
    ProgressDone(Continuations, view, output, mappings);
    TransformKeepsWellMapped(source, Continuations, view);
    r := FromBytes(output, mappings);
  }

  /** The character loop of `normalize`: invisible controls dropped, every other character put in NFKC. */
  method NormalizeCharacters(nfkc: string -> string, source: string) returns (r: View)
    requires Utf8.Valid(source)
    ensures r == Rewrite(Canonical(nfkc), Identity(source), 0)
  {
    ghost var view := Identity(source);
    hide Progress, MapOk, Rewrite, MinStart, MaxEnd, Utf8.Valid;
    ProgressStart(Canonical(nfkc), Identity(source));
    var text, mappings, start := "", [], 0;
    while start < |source|
      invariant start <= |source| && Progress(Canonical(nfkc), view, start, text, mappings)
      invariant Utf8.IsBoundary(source, start)
      decreases |source| - start
    {
      CanonicalAt(nfkc, source, start);
      ProgressStep(Canonical(nfkc), view, start, text, mappings);
      var end := start + Utf8.CharLen(source[start]);
      assert PieceSource(view, start, end) == Span(start, end) by {
        IdentityStretch(source, start, end);
      }
      var character := source[start..end];
      var normalized := if IsInvisibleControl(Utf8.ScalarOf(character)) then "" else nfkc(character);
      text := text + normalized;
      mappings := mappings + Repeat(Span(start, end), |normalized|);
      start := end;
    }
    ProgressDone(Canonical(nfkc), view, text, mappings);
    r := View(text, mappings);
  }

  method Normalize(nfkc: string -> string, source: string) returns (r: Result<View, DetectorError>)
    requires Utf8.Valid(source) && ValidForm(nfkc)
    ensures r == Ok(Normalized(nfkc, source))
    ensures WellMapped(source, r.value)
  {
    var view := NormalizeCharacters(nfkc, source);
    IdentityWellMapped(source);
    TransformKeepsWellMapped(source, Canonical(nfkc), Identity(source));
    r := RemoveStructuralContinuations(source, view);
  }

  method Canonicalize(ghost source: string, nfkc: string -> string, view: View) returns (r: Result<View, DetectorError>)
    requires WellMapped(source, view) && ValidForm(nfkc)
    ensures r == Ok(Canonicalized(nfkc, view))
    ensures WellMapped(source, r.value)
  {
    ghost var t := Canonical(nfkc);
    hide Progress, MapOk, Rewrite, MinStart, MaxEnd, Utf8.Valid;
    ProgressStart(Canonical(nfkc), view);
    var text, mappings, start := "", [], 0;
    while start < |view.text|
      invariant start <= |view.text| && Progress(t, view, start, text, mappings) && Utf8.IsBoundary(view.text, start)
      decreases |view.text| - start
    {
      CanonicalAt(nfkc, view.text, start);
      ProgressStep(t, view, start, text, mappings);
      var end := start + Utf8.CharLen(view.text[start]);
      var character := view.text[start..end];
      if IsInvisibleControl(Utf8.ScalarOf(character)) {
        DroppedPiece(text, mappings, PieceSource(view, start, end));
      } else {
        CombinedInView(source, view, start, end);
        var combined := CombinedSource(view.origins, start, end);
        var normalized := nfkc(character);
        text := text + normalized;
        mappings := mappings + Repeat(combined.value, |normalized|);
      }
      start := end;
    }
    ProgressDone(t, view, text, mappings);
    TransformKeepsWellMapped(source, t, view);
    r := RemoveStructuralContinuations(source, View(text, mappings));
  }

  method DecodeJsonEscapes(ghost source: string, view: View) returns (r: Result<Option<View>, DetectorError>)
    requires WellMapped(source, view)
    ensures r == Decoded(JsonEscapes, view) && r.Ok?
  {
    hide Progress, MapOk, Rewrite, MinStart, MaxEnd, Utf8.Valid;
    ProgressStart(JsonEscapes, view);
    var bytes := view.text;
    var output, mappings, changed, index := "", [], false, 0;
    while index < |bytes|
      invariant index <= |bytes| && Progress(JsonEscapes, view, index, output, mappings)
      invariant changed || Changes(JsonEscapes, bytes, index) <==> Changes(JsonEscapes, bytes, 0)
      decreases |bytes| - index
    {
      ProgressStep(JsonEscapes, view, index, output, mappings);
      CopiedByte(view, index);
      if bytes[index] == '\\' && DecodeEscape(bytes, index).Some? {
        var piece := DecodeEscape(bytes, index).value;
        CombinedInView(source, view, index, piece.next);
        var combined := CombinedSource(view.origins, index, piece.next);
        output := output + piece.out;
        mappings := mappings + Repeat(combined.value, |piece.out|);
        index := piece.next;
        changed := true;
        continue;
      }
      output := output + [bytes[index]];
      mappings := mappings + [view.origins[index]];
      index := index + 1;
    }
    ProgressDone(JsonEscapes, view, output, mappings);
    if !changed {
      return Ok(None);
    }
    TransformKeepsWellMapped(source, JsonEscapes, view);
    r := Ok(Some(FromBytes(output, mappings).value));
  }

  method DecodePercentEncoding(ghost source: string, view: View) returns (r: Result<Option<View>, DetectorError>)
    requires WellMapped(source, view)
    ensures r == Decoded(PercentEscapes, view)
  {
    hide Progress, MapOk, Rewrite, MinStart, MaxEnd, Utf8.Valid;
    ProgressStart(PercentEscapes, view);
    var bytes := view.text;
    var output, mappings, changed, index := "", [], false, 0;
    while index < |bytes|
      invariant index <= |bytes| && Progress(PercentEscapes, view, index, output, mappings)
      invariant changed || Changes(PercentEscapes, bytes, index) <==> Changes(PercentEscapes, bytes, 0)
      decreases |bytes| - index
    {
      ProgressStep(PercentEscapes, view, index, output, mappings);
      CopiedByte(view, index);
      if bytes[index] == '%' && index + 2 < |bytes| {
        var high, low := Hex(bytes[index + 1]), Hex(bytes[index + 2]);
        if high.Some? && low.Some? {
          CombinedInView(source, view, index, index + 3);
          var combined := CombinedSource(view.origins, index, index + 3);
          output := output + [Utf8.Byte(high.value * 16 + low.value)];
          mappings := mappings + [combined.value];
          assert Repeat(combined.value, 1) == [combined.value];
          index := index + 3;
          changed := true;
          continue;
        }
      }
      output := output + [bytes[index]];
      mappings := mappings + [view.origins[index]];
      index := index + 1;
    }
    ProgressDone(PercentEscapes, view, output, mappings);
    if !changed {
      return Ok(None);
    }
    if !Utf8.Valid(output) {
      return Err(InvalidPercentEncoding);
    }
    r := Ok(Some(FromBytes(output, mappings).value));
  }

  method CollapseCandidateSeparators(ghost source: string, view: View) returns (r: Result<Option<View>, DetectorError>)
    requires WellMapped(source, view)
    ensures r == Decoded(Separators, view) && r.Ok?
  {
    hide Progress, MapOk, Rewrite, MinStart, MaxEnd, Utf8.Valid;
    ProgressStart(Separators, view);
    var bytes := view.text;
    var output, mappings, changed := "", [], false;
    for index := 0 to |bytes|
      invariant Progress(Separators, view, index, output, mappings)
      invariant changed || Changes(Separators, bytes, index) <==> Changes(Separators, bytes, 0)
    {
      ProgressStep(Separators, view, index, output, mappings);
      CopiedByte(view, index);
      var collapse := bytes[index] == '.' && index > 0 && index + 1 < |bytes|
                      && IsTokenByte(bytes[index - 1]) && IsTokenByte(bytes[index + 1]);
      if collapse {
        DroppedPiece(output, mappings, PieceSource(view, index, index + 1));
        changed := true;
        continue;
      }
      output := output + [bytes[index]];
      mappings := mappings + [view.origins[index]];
    }
    ProgressDone(Separators, view, output, mappings);
    if !changed {
      return Ok(None);
    }
    TransformKeepsWellMapped(source, Separators, view);
    r := Ok(Some(FromBytes(output, mappings).value));
  }
}
