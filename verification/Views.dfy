/**
 * Source-mapped scan views (src/detector.rs, `ScanView`): a byte string in which every byte
 * remembers the range of the original text it came from, and the transforms that rewrite it.
 */
module Views {
  import opened Domain
  import Utf8

  datatype View = View(text: string, origins: seq<Span>)

  datatype DetectorError =
    | InvalidNormalizedUtf8
    | InvalidSourceMap
    | NormalizationLimit
    | InvalidPercentEncoding

  // ----- the source-map invariant

  ghost predicate OnBoundaries(source: string, s: Span) {
    s.start < s.end <= |source| && Utf8.IsBoundary(source, s.start) && Utf8.IsBoundary(source, s.end)
  }

  /** One nonempty, in-range, character-aligned range per byte, with starts and ends nondecreasing. */
  ghost predicate MapOk(source: string, origins: seq<Span>) {
    && (forall i {:trigger OnBoundaries(source, origins[i])} :: 0 <= i < |origins| ==> OnBoundaries(source, origins[i]))
    && Ordered(origins)
  }

  ghost predicate NotAfter(a: Span, b: Span) { a.start <= b.start && a.end <= b.end }

  ghost predicate Ordered(origins: seq<Span>) {
    forall i, j {:trigger NotAfter(origins[i], origins[j])} ::
      0 <= i <= j < |origins| ==> NotAfter(origins[i], origins[j])
  }

  ghost predicate WellMapped(source: string, view: View) {
    |view.origins| == |view.text| && MapOk(source, view.origins) && Utf8.Valid(view.text)
  }

  // ----- combined source ranges

  function MinStart(origins: seq<Span>): nat
    requires origins != []
  {
    if |origins| == 1 then origins[0].start
    else
      var rest := MinStart(origins[1..]);
      if origins[0].start <= rest then origins[0].start else rest
  }

  function MaxEnd(origins: seq<Span>): nat
    requires origins != []
  {
    if |origins| == 1 then origins[0].end
    else
      var rest := MaxEnd(origins[1..]);
      if origins[0].end >= rest then origins[0].end else rest
  }

  function CombinedSource(origins: seq<Span>, from: nat, to: nat): Result<Span, DetectorError> {
    if from >= to || to > |origins| then Err(InvalidSourceMap)
    else
      var start, end := MinStart(origins[from..to]), MaxEnd(origins[from..to]);
      if start >= end then Err(InvalidSourceMap) else Ok(Span(start, end))
  }

  lemma {:induction false} HullOfOrdered(origins: seq<Span>)
    requires origins != [] && Ordered(origins)
    ensures MinStart(origins) == origins[0].start && MaxEnd(origins) == origins[|origins| - 1].end
  {
    if |origins| > 1 {
      var rest := origins[1..];
      forall i, j | 0 <= i <= j < |rest|
        ensures NotAfter(rest[i], rest[j])
      {
        assert NotAfter(origins[i + 1], origins[j + 1]);
      }
      HullOfOrdered(rest);
      assert NotAfter(origins[0], origins[1]) && NotAfter(origins[0], origins[|origins| - 1]);
    }
  }

  /**
   * On a well-mapped view the combined source of any nonempty in-range span exists, is aligned, and
   * covers the range of every byte of the span; being one interval it also covers everything dropped
   * between them.
   */
  lemma CombinedSourceCovers(source: string, origins: seq<Span>, from: nat, to: nat)
    requires MapOk(source, origins) && from < to <= |origins|
    ensures CombinedSource(origins, from, to) == Ok(Span(origins[from].start, origins[to - 1].end))
    ensures OnBoundaries(source, Span(origins[from].start, origins[to - 1].end))
    ensures forall k :: from <= k < to ==> origins[k].Within(Span(origins[from].start, origins[to - 1].end))
  {
    var slice := origins[from..to];
    forall i, j | 0 <= i <= j < |slice|
      ensures NotAfter(slice[i], slice[j])
    {
      assert NotAfter(origins[from + i], origins[from + j]);
    }
    HullOfOrdered(slice);
    assert NotAfter(origins[from], origins[to - 1]);
    assert OnBoundaries(source, origins[from]) && OnBoundaries(source, origins[to - 1]);
    forall k | from <= k < to
      ensures origins[k].Within(Span(origins[from].start, origins[to - 1].end))
    {
      assert NotAfter(origins[from], origins[k]) && NotAfter(origins[k], origins[to - 1]);
    }
  }

  // ----- one description for all transforms

  /** The bytes a transform emits at one position and where it goes on. */
  datatype Piece = Piece(out: string, next: nat, decoded: bool)

  datatype Transform =
    | Canonical(nfkc: string -> string)
    | Continuations
    | JsonEscapes
    | PercentEscapes
    | Separators

  function Copy(text: string, i: nat): Piece
    requires i < |text|
  {
    Piece([text[i]], i + 1, false)
  }

  function Step(t: Transform, text: string, i: nat): (p: Piece)
    requires i < |text|
    ensures i < p.next <= |text|
  {
    match t
    case Canonical(nfkc) => CanonicalStep(nfkc, text, i)
    case Continuations => ContinuationStep(text, i)
    case JsonEscapes => JsonStep(text, i)
    case PercentEscapes => PercentStep(text, i)
    case Separators => SeparatorStep(text, i)
  }

  /** The character that starts at `i`, normalized or dropped. */
  function CanonicalStep(nfkc: string -> string, text: string, i: nat): (p: Piece)
    requires i < |text|
    ensures i < p.next <= |text|
  {
    var n := Utf8.CharLen(text[i]);
    if 0 < n && i + n <= |text| then
      var character := text[i..i + n];
      Piece(if IsInvisibleControl(Utf8.ScalarOf(character)) then "" else nfkc(character), i + n, false)
    else
      Copy(text, i)
  }

  predicate IsInvisibleControl(v: int) {
    || v == 0xAD
    || 0x200B <= v <= 0x200F
    || 0x202A <= v <= 0x202E
    || 0x2060 <= v <= 0x206F
    || v == 0xFEFF
  }

  /** A backslash before a line break swallows the break and the indentation after it. */
  function ContinuationStep(text: string, i: nat): (p: Piece)
    requires i < |text|
    ensures i < p.next <= |text|
  {
    if text[i] == '\\' && i + 1 < |text| && text[i + 1] == '\n' then
      Piece("", SkipBlanks(text, i + 2), true)
    else if text[i] == '\\' && i + 2 < |text| && text[i + 1] == '\r' && text[i + 2] == '\n' then
      Piece("", SkipBlanks(text, i + 3), true)
    else
      Copy(text, i)
  }

  function SkipBlanks(text: string, i: nat): (j: nat)
    requires i <= |text|
    ensures i <= j <= |text|
    ensures forall k :: i <= k < j ==> text[k] == ' ' || text[k] == '\t'
    decreases |text| - i
  {
    if i < |text| && (text[i] == ' ' || text[i] == '\t') then SkipBlanks(text, i + 1) else i
  }

  function JsonStep(text: string, i: nat): (p: Piece)
    requires i < |text|
    ensures i < p.next <= |text|
  {
    if text[i] != '\\' then Copy(text, i)
    else
      match DecodeEscape(text, i)
      case Some(p) => p
      case None => Copy(text, i)
  }

  function DecodeEscape(text: string, i: nat): (r: Option<Piece>)
    requires i < |text|
    ensures r.Some? ==> i < r.value.next <= |text| && r.value.decoded
  {
    if i + 1 >= |text| then None
    else
      match text[i + 1]
      case '\"' => Some(Piece("\"", i + 2, true))
      case '\\' => Some(Piece("\\", i + 2, true))
      case '/' => Some(Piece("/", i + 2, true))
      case 'b' => Some(Piece([8 as char], i + 2, true))
      case 'f' => Some(Piece([12 as char], i + 2, true))
      case 'n' => Some(Piece("\n", i + 2, true))
      case 'r' => Some(Piece("\r", i + 2, true))
      case 't' => Some(Piece("\t", i + 2, true))
      case 'u' => DecodeUnicodeEscape(text, i)
      case _ => None
  }

  function DecodeUnicodeEscape(text: string, i: nat): (r: Option<Piece>)
    requires i < |text|
    ensures r.Some? ==> i < r.value.next <= |text| && r.value.decoded
  {
    if i + 6 > |text| then None
    else
      match HexQuad(text[i + 2..i + 6])
      case None => None
      case Some(first) =>
        if 0xD800 <= first <= 0xDBFF then
          if i + 8 > |text| || text[i + 6..i + 8] != "\\u" then None
          else if i + 12 > |text| then None
          else
            match HexQuad(text[i + 8..i + 12])
            case None => None
            case Some(second) =>
              if !(0xDC00 <= second <= 0xDFFF) then None
              else Some(Piece(Utf8.Encode(0x10000 + (first - 0xD800) * 0x400 + (second - 0xDC00)), i + 12, true))
        else if 0xDC00 <= first <= 0xDFFF then None
        else Some(Piece(Utf8.Encode(first), i + 6, true))
  }

  function Hex(b: char): (r: Option<nat>)
    ensures r.Some? ==> r.value < 16 && Utf8.IsAscii(b)
  {
    if '0' <= b <= '9' then Some(b as int - '0' as int)
    else if 'a' <= b <= 'f' then Some(b as int - 'a' as int + 10)
    else if 'A' <= b <= 'F' then Some(b as int - 'A' as int + 10)
    else None
  }

  function HexQuad(s: string): (r: Option<nat>)
    ensures r.Some? ==> r.value < 0x10000 && |s| == 4 && forall k :: 0 <= k < 4 ==> Utf8.IsAscii(s[k])
  {
    if |s| != 4 then None
    else
      match (Hex(s[0]), Hex(s[1]), Hex(s[2]), Hex(s[3]))
      case (Some(a), Some(b), Some(c), Some(d)) => Some(((a * 16 + b) * 16 + c) * 16 + d)
      case _ => None
  }

  function PercentStep(text: string, i: nat): (p: Piece)
    requires i < |text|
    ensures i < p.next <= |text|
  {
    if text[i] == '%' && i + 2 < |text| && Hex(text[i + 1]).Some? && Hex(text[i + 2]).Some? then
      Piece([Utf8.Byte(Hex(text[i + 1]).value * 16 + Hex(text[i + 2]).value)], i + 3, true)
    else
      Copy(text, i)
  }

  predicate IsTokenByte(b: char) {
    'a' <= b <= 'z' || 'A' <= b <= 'Z' || '0' <= b <= '9' || b == '_' || b == '-'
  }

  function SeparatorStep(text: string, i: nat): (p: Piece)
    requires i < |text|
    ensures i < p.next <= |text|
  {
    if text[i] == '.' && i > 0 && i + 1 < |text| && IsTokenByte(text[i - 1]) && IsTokenByte(text[i + 1]) then
      Piece("", i + 1, true)
    else
      Copy(text, i)
  }

  function Repeat(s: Span, n: nat): (r: seq<Span>)
    ensures |r| == n
    ensures forall i :: 0 <= i < n ==> r[i] == s
  {
    seq(n, i => s)
  }

  /** The source range of the bytes a piece emits. */
  function PieceSource(view: View, i: nat, next: nat): Span
    requires i < next <= |view.text| == |view.origins|
  {
    Span(MinStart(view.origins[i..next]), MaxEnd(view.origins[i..next]))
  }

  /** What transform `t` makes of `view` from byte `i` on. */
  function Rewrite(t: Transform, view: View, i: nat): (r: View)
    requires |view.text| == |view.origins| && i <= |view.text|
    ensures |r.text| == |r.origins|
    decreases |view.text| - i
  {
    if i == |view.text| then View("", [])
    else
      var p := Step(t, view.text, i);
      var rest := Rewrite(t, view, p.next);
      View(p.out + rest.text, Repeat(PieceSource(view, i, p.next), |p.out|) + rest.origins)
  }

  /** Some position from `i` on is decoded rather than copied. */
  predicate Changes(t: Transform, text: string, i: nat)
    requires i <= |text|
    decreases |text| - i
  {
    i < |text| && (Step(t, text, i).decoded || Changes(t, text, Step(t, text, i).next))
  }

  // ----- the invariant survives every transform

  lemma {:induction false} RewriteMap(source: string, t: Transform, view: View, i: nat)
    requires |view.text| == |view.origins| && MapOk(source, view.origins) && i <= |view.text|
    ensures MapOk(source, Rewrite(t, view, i).origins)
    ensures i < |view.origins| ==> forall k {:trigger Rewrite(t, view, i).origins[k]} ::
              0 <= k < |Rewrite(t, view, i).origins| ==> NotAfter(view.origins[i], Rewrite(t, view, i).origins[k])
    decreases |view.text| - i
  {
    if i < |view.text| {
      var p := Step(t, view.text, i);
      var rest := Rewrite(t, view, p.next).origins;
      RewriteMap(source, t, view, p.next);
      CombinedSourceCovers(source, view.origins, i, p.next);
      var s := PieceSource(view, i, p.next);
      assert NotAfter(view.origins[i], view.origins[p.next - 1]);
      forall k | 0 <= k < |rest|
        ensures NotAfter(s, rest[k])
      {
        assert NotAfter(view.origins[p.next - 1], view.origins[p.next])
                 && NotAfter(view.origins[i], view.origins[p.next]);
      }
      PrependKeepsMap(source, s, |p.out|, rest);
      var whole := Rewrite(t, view, i).origins;
      forall k | 0 <= k < |whole|
        ensures NotAfter(view.origins[i], whole[k])
      {
        assert whole[k] == s || whole[k] == rest[k - |p.out|];
      }
    }
  }

  lemma PrependKeepsMap(source: string, s: Span, n: nat, rest: seq<Span>)
    requires OnBoundaries(source, s) && MapOk(source, rest)
    requires forall k :: 0 <= k < |rest| ==> NotAfter(s, rest[k])
    ensures MapOk(source, Repeat(s, n) + rest)
  {
    var whole := Repeat(s, n) + rest;
    forall i, j | 0 <= i <= j < |whole|
      ensures NotAfter(whole[i], whole[j]) && OnBoundaries(source, whole[i])
    {
      assert j >= n ==> whole[j] == rest[j - n];
      if i >= n {
        assert whole[i] == rest[i - n] && NotAfter(rest[i - n], rest[j - n]) && OnBoundaries(source, rest[i - n]);
      }
    }
    forall i | 0 <= i < |whole|
      ensures OnBoundaries(source, whole[i])
    {
      assert NotAfter(whole[i], whole[i]);
    }
  }

  /** An escape or a dropped run is ASCII in the text, and what replaces it is valid UTF-8. */
  ghost predicate SafePiece(text: string, i: nat, p: Piece)
    requires i < |text|
  {
    || p == Copy(text, i)
    || (i < p.next <= |text| && Utf8.Valid(p.out) && forall k :: i <= k < p.next ==> Utf8.IsAscii(text[k]))
  }

  lemma JsonPieceSafe(text: string, i: nat)
    requires i < |text|
    ensures SafePiece(text, i, JsonStep(text, i))
    ensures var p := JsonStep(text, i); p.decoded ==> |p.out| < p.next - i
    ensures var p := JsonStep(text, i); !p.decoded ==> p == Copy(text, i)
  {
    hide Utf8.Valid, Utf8.Encode, HexQuad;
    var p := JsonStep(text, i);
    if p.decoded {
      if text[i + 1] == 'u' {
        UnicodeEscapeSafe(text, i);
      } else {
        Utf8.AsciiIsValid(p.out);
      }
    }
  }

  lemma UnicodeEscapeSafe(text: string, i: nat)
    requires i + 1 < |text| && text[i] == '\\' && text[i + 1] == 'u' && DecodeUnicodeEscape(text, i).Some?
    ensures SafePiece(text, i, DecodeUnicodeEscape(text, i).value)
    ensures |DecodeUnicodeEscape(text, i).value.out| < DecodeUnicodeEscape(text, i).value.next - i
  {
    hide Utf8.Valid, Utf8.Encode, HexQuad;
    var p := DecodeUnicodeEscape(text, i).value;
    AsciiSlice(text, i + 2, i + 6);
    var first := HexQuad(text[i + 2..i + 6]).value;
    if 0xD800 <= first <= 0xDBFF {
      AsciiSlice(text, i + 6, i + 8);
      AsciiSlice(text, i + 8, i + 12);
      var second := HexQuad(text[i + 8..i + 12]).value;
      Utf8.EncodeIsValid(0x10000 + (first - 0xD800) * 0x400 + (second - 0xDC00));
    } else {
      Utf8.EncodeIsValid(first);
    }
  }

  lemma AsciiSlice(text: string, from: nat, to: nat)
    requires from <= to <= |text| && forall k :: 0 <= k < to - from ==> Utf8.IsAscii(text[from..to][k])
    ensures forall k :: from <= k < to ==> Utf8.IsAscii(text[k])
  {
    forall k | from <= k < to
      ensures Utf8.IsAscii(text[k])
    {
      assert text[from..to][k - from] == text[k];
    }
  }

  lemma AsciiPieceSafe(t: Transform, text: string, i: nat)
    requires (t.Continuations? || t.JsonEscapes? || t.Separators?) && i < |text|
    ensures SafePiece(text, i, Step(t, text, i))
  {
    if t.JsonEscapes? {
      JsonPieceSafe(text, i);
    }
  }

  lemma SafePieceKeepsUtf8(text: string, i: nat, p: Piece, before: string)
    requires i < |text| && SafePiece(text, i, p) && Utf8.Valid(before + text[i..])
    ensures Utf8.Valid(before + p.out + text[p.next..])
  {
    if p == Copy(text, i) {
      assert before + text[i..] == before + p.out + text[p.next..];
    } else {
      var run := text[i..p.next];
      assert before + text[i..] == before + run + text[p.next..];
      Utf8.AsciiRunSplits(before, run, text[p.next..]);
      Utf8.ValidConcat(before, p.out);
      Utf8.ValidConcat(before + p.out, text[p.next..]);
    }
  }

  /** `before` is the output so far: output followed by the unread input stays valid at every step. */
  lemma {:induction false} RewriteUtf8(t: Transform, view: View, i: nat, before: string)
    requires t.Continuations? || t.JsonEscapes? || t.Separators?
    requires |view.text| == |view.origins| && i <= |view.text| && Utf8.Valid(before + view.text[i..])
    ensures Utf8.Valid(before + Rewrite(t, view, i).text)
    decreases |view.text| - i
  {
    hide *;
    RewriteUnfold(t, view, i);
    if i < |view.text| {
      var p := Step(t, view.text, i);
      AsciiPieceSafe(t, view.text, i);
      SafePieceKeepsUtf8(view.text, i, p, before);
      RewriteUtf8(t, view, p.next, before + p.out);
      var rest := Rewrite(t, view, p.next).text;
      assert before + (p.out + rest) == before + p.out + rest;
    } else {
      assert before + "" == before + view.text[i..];
    }
  }

  lemma RewriteUnfold(t: Transform, view: View, i: nat)
    requires |view.text| == |view.origins| && i <= |view.text|
    ensures Rewrite(t, view, i).text
         == if i == |view.text| then ""
           else Step(t, view.text, i).out + Rewrite(t, view, Step(t, view.text, i).next).text
  {
    hide Step, PieceSource;
  }

  /** A normalization form maps every character to some valid string. */
  ghost predicate ValidForm(nfkc: string -> string) {
    forall c :: Utf8.Valid(nfkc(c))
  }

  lemma {:induction false} CanonicalUtf8(nfkc: string -> string, view: View, i: nat)
    requires ValidForm(nfkc) && |view.text| == |view.origins|
    requires i <= |view.text| && Utf8.Valid(view.text) && Utf8.IsBoundary(view.text, i)
    ensures Utf8.Valid(Rewrite(Canonical(nfkc), view, i).text)
    decreases |view.text| - i
  {
    if i < |view.text| {
      Utf8.CharEnds(view.text, i);
      var p := CanonicalStep(nfkc, view.text, i);
      CanonicalUtf8(nfkc, view, p.next);
      Utf8.ValidConcat(p.out, Rewrite(Canonical(nfkc), view, p.next).text);
    }
  }

  /** Every transform but percent decoding keeps a view well mapped; percent decoding keeps its map. */
  lemma TransformKeepsWellMapped(source: string, t: Transform, view: View)
    requires WellMapped(source, view)
    requires t.Canonical? ==> ValidForm(t.nfkc)
    ensures MapOk(source, Rewrite(t, view, 0).origins)
    ensures !t.PercentEscapes? || Utf8.Valid(Rewrite(t, view, 0).text) ==> WellMapped(source, Rewrite(t, view, 0))
  {
    RewriteMap(source, t, view, 0);
    assert view.text[0..] == view.text && "" + view.text == view.text;
    if t.Canonical? {
      CanonicalUtf8(t.nfkc, view, 0);
    } else if !t.PercentEscapes? {
      RewriteUtf8(t, view, 0, "");
      assert "" + Rewrite(t, view, 0).text == Rewrite(t, view, 0).text;
    }
  }

  /** Each decoder strictly shrinks the text whenever it reports a change. */
  lemma {:induction false} DecodingShrinks(t: Transform, view: View, i: nat)
    requires t.JsonEscapes? || t.PercentEscapes? || t.Separators?
    requires |view.text| == |view.origins| && i <= |view.text|
    ensures |Rewrite(t, view, i).text| <= |view.text| - i
    ensures Changes(t, view.text, i) ==> |Rewrite(t, view, i).text| < |view.text| - i
    ensures !Changes(t, view.text, i) ==> Rewrite(t, view, i).text == view.text[i..]
    decreases |view.text| - i
  {
    hide JsonStep, Utf8.Valid, PieceSource;
    if i < |view.text| {
      if t.JsonEscapes? {
        JsonPieceSafe(view.text, i);
      }
      DecodingShrinks(t, view, Step(t, view.text, i).next);
    }
  }
}
