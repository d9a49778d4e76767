/**
 * The two decoders undo every encoding they are meant for: percent escapes (section 2.1 of RFC 3986)
 * and JSON string escapes (section 7 of RFC 8259), surrogate pairs included.
 */
module Escapes {
  import opened Domain
  import opened Views
  import Decoders
  import Utf8

  function HexDigit(d: nat, upper: bool): (c: char)
    requires d < 16
    ensures Hex(c) == Some(d) && c != '\\' && c != '%'
  {
    if d < 10 then ('0' as int + d) as char
    else if upper then ('A' as int + d - 10) as char
    else ('a' as int + d - 10) as char
  }

  function Quad(v: nat, upper: bool): (s: string)
    requires v < 0x10000
    ensures |s| == 4
  {
    [HexDigit(v / 0x1000, upper), HexDigit(v / 0x100 % 16, upper), HexDigit(v / 0x10 % 16, upper),
     HexDigit(v % 16, upper)]
  }

  lemma QuadRoundTrip(v: nat, upper: bool)
    requires v < 0x10000
    ensures HexQuad(Quad(v, upper)) == Some(v)
  {
    assert v / 0x10 == v / 0x100 * 16 + v / 0x10 % 16;
    assert v / 0x100 == v / 0x1000 * 16 + v / 0x100 % 16;
  }

  /** One unit of an encoded text, with the bytes it stands for. */
  datatype Chunk =
    | Plain(b: char)
    | Percent(byte: nat, upper: bool)
    | Short(letter: char)
    | Unicode(scalar: nat, upper: bool)
  {
    predicate WellFormed(t: Transform) {
      match this
      case Plain(b) => (t.JsonEscapes? && b != '\\') || (t.PercentEscapes? && b != '%')
      case Percent(byte, _) => t.PercentEscapes? && byte < 0x100
      case Short(letter) => t.JsonEscapes? && letter in "\"\\/bfnrt"
      case Unicode(scalar, _) => t.JsonEscapes? && Utf8.IsScalar(scalar)
    }

    function Encoding(t: Transform): string
      requires WellFormed(t)
    {
      match this
      case Plain(b) => [b]
      case Percent(byte, upper) => "%" + [HexDigit(byte / 16, upper), HexDigit(byte % 16, upper)]
      case Short(letter) => "\\" + [letter]
      case Unicode(scalar, upper) =>
        if scalar < 0x10000 then "\\u" + Quad(scalar, upper)
        else
          var offset := scalar - 0x10000;
          "\\u" + Quad(0xD800 + offset / 0x400, upper) + "\\u" + Quad(0xDC00 + offset % 0x400, upper)
    }

    function Meaning(t: Transform): string
      requires WellFormed(t)
    {
      match this
      case Plain(b) => [b]
      case Percent(byte, _) => [Utf8.Byte(byte)]
      case Short(letter) =>
        if letter == 'b' then [8 as char]
        else if letter == 'f' then [12 as char]
        else if letter == 'n' then "\n"
        else if letter == 'r' then "\r"
        else if letter == 't' then "\t"
        else [letter]
      case Unicode(scalar, _) => Utf8.Encode(scalar)
    }
  }

  ghost predicate AllWellFormed(t: Transform, chunks: seq<Chunk>) {
    forall k :: 0 <= k < |chunks| ==> chunks[k].WellFormed(t)
  }

  function EncodeAll(t: Transform, chunks: seq<Chunk>): string
    requires AllWellFormed(t, chunks)
  {
    if chunks == [] then "" else chunks[0].Encoding(t) + EncodeAll(t, chunks[1..])
  }

  function MeaningAll(t: Transform, chunks: seq<Chunk>): string
    requires AllWellFormed(t, chunks)
  {
    if chunks == [] then "" else chunks[0].Meaning(t) + MeaningAll(t, chunks[1..])
  }

  lemma SurrogatePair(scalar: nat)
    requires 0x10000 <= scalar <= 0x10FFFF
    ensures var high, low := 0xD800 + (scalar - 0x10000) / 0x400, 0xDC00 + (scalar - 0x10000) % 0x400;
            && 0xD800 <= high <= 0xDBFF && 0xDC00 <= low <= 0xDFFF
            && 0x10000 + (high - 0xD800) * 0x400 + (low - 0xDC00) == scalar
  {
  }

  lemma SingleUnitDecodes(text: string, i: nat, v: nat, upper: bool)
    requires Utf8.IsScalar(v) && v < 0x10000 && i + 6 <= |text|
    requires text[i] == '\\' && text[i + 1] == 'u' && text[i + 2..i + 6] == Quad(v, upper)
    ensures JsonStep(text, i) == Piece(Utf8.Encode(v), i + 6, true)
  {
    QuadRoundTrip(v, upper);
  }

  lemma PairDecodes(text: string, i: nat, high: nat, low: nat, upper: bool)
    requires 0xD800 <= high <= 0xDBFF && 0xDC00 <= low <= 0xDFFF && i + 12 <= |text|
    requires text[i] == '\\' && text[i + 1] == 'u' && text[i + 2..i + 6] == Quad(high, upper)
    requires text[i + 6..i + 8] == "\\u" && text[i + 8..i + 12] == Quad(low, upper)
    ensures JsonStep(text, i) == Piece(Utf8.Encode(0x10000 + (high - 0xD800) * 0x400 + (low - 0xDC00)), i + 12, true)
  {
    QuadRoundTrip(high, upper);
    QuadRoundTrip(low, upper);
  }

  lemma Inside(text: string, i: nat, e: string, from: nat, to: nat)
    requires i + |e| <= |text| && text[i..i + |e|] == e && from <= to <= |e|
    ensures text[i + from..i + to] == e[from..to]
    ensures forall k :: 0 <= k < |e| ==> text[i + k] == e[k]
  {
    forall k | 0 <= k < |e|
      ensures text[i + k] == e[k]
    {
      assert e[k] == text[i..i + |e|][k];
    }
  }

  lemma ShortUnicodeDecodes(text: string, i: nat, scalar: nat, upper: bool)
    requires Utf8.IsScalar(scalar) && scalar < 0x10000
    requires i + |Unicode(scalar, upper).Encoding(JsonEscapes)| <= |text|
    requires text[i..i + |Unicode(scalar, upper).Encoding(JsonEscapes)|] == Unicode(scalar, upper).Encoding(JsonEscapes)
    ensures JsonStep(text, i) == Piece(Utf8.Encode(scalar), i + |Unicode(scalar, upper).Encoding(JsonEscapes)|, true)
  {
    hide JsonStep, Utf8.Encode, HexQuad, Quad;
    var e := Unicode(scalar, upper).Encoding(JsonEscapes);
    Inside(text, i, e, 2, 6);
    assert text[i + 0] == e[0] && text[i + 1] == e[1];
    assert e[2..6] == Quad(scalar, upper);
    SingleUnitDecodes(text, i, scalar, upper);
  }

  lemma LongUnicodeDecodes(text: string, i: nat, scalar: nat, upper: bool)
    requires Utf8.IsScalar(scalar) && scalar >= 0x10000
    requires i + |Unicode(scalar, upper).Encoding(JsonEscapes)| <= |text|
    requires text[i..i + |Unicode(scalar, upper).Encoding(JsonEscapes)|] == Unicode(scalar, upper).Encoding(JsonEscapes)
    ensures JsonStep(text, i) == Piece(Utf8.Encode(scalar), i + |Unicode(scalar, upper).Encoding(JsonEscapes)|, true)
  {
    hide JsonStep, Utf8.Encode, HexQuad, Quad;
    var e := Unicode(scalar, upper).Encoding(JsonEscapes);
    var high, low := 0xD800 + (scalar - 0x10000) / 0x400, 0xDC00 + (scalar - 0x10000) % 0x400;
    SurrogatePair(scalar);
    Inside(text, i, e, 2, 6);
    Inside(text, i, e, 6, 8);
    Inside(text, i, e, 8, 12);
    assert text[i + 0] == e[0] && text[i + 1] == e[1];
    assert e[2..6] == Quad(high, upper) && e[6..8] == "\\u" && e[8..12] == Quad(low, upper);
    PairDecodes(text, i, high, low, upper);
  }

  lemma UnicodeDecodes(text: string, i: nat, scalar: nat, upper: bool)
    requires Utf8.IsScalar(scalar)
    requires i + |Unicode(scalar, upper).Encoding(JsonEscapes)| <= |text|
    requires text[i..i + |Unicode(scalar, upper).Encoding(JsonEscapes)|] == Unicode(scalar, upper).Encoding(JsonEscapes)
    ensures JsonStep(text, i) == Piece(Utf8.Encode(scalar), i + |Unicode(scalar, upper).Encoding(JsonEscapes)|, true)
  {
    hide *;
    if scalar < 0x10000 {
      ShortUnicodeDecodes(text, i, scalar, upper);
    } else {
      LongUnicodeDecodes(text, i, scalar, upper);
    }
  }

  lemma ShortDecodes(text: string, i: nat, letter: char)
    requires letter in "\"\\/bfnrt" && i + 2 <= |text| && text[i] == '\\' && text[i + 1] == letter
    ensures JsonStep(text, i) == Piece(Short(letter).Meaning(JsonEscapes), i + 2, true)
  {
  }

  lemma PercentDecodes(text: string, i: nat, byte: nat, upper: bool)
    requires byte < 0x100 && i + 3 <= |text| && text[i] == '%'
    requires text[i + 1] == HexDigit(byte / 16, upper) && text[i + 2] == HexDigit(byte % 16, upper)
    ensures PercentStep(text, i) == Piece([Utf8.Byte(byte)], i + 3, true)
  {
  }

  lemma ChunkDecodes(t: Transform, text: string, i: nat, c: Chunk)
    requires c.WellFormed(t) && i + |c.Encoding(t)| <= |text| && text[i..i + |c.Encoding(t)|] == c.Encoding(t)
    ensures var p := Step(t, text, i); p.out == c.Meaning(t) && p.next == i + |c.Encoding(t)|
  {
    var e := c.Encoding(t);
    Inside(text, i, e, 0, |e|);
    assert text[i + 0] == e[0];
    match c
    case Unicode(scalar, upper) => UnicodeDecodes(text, i, scalar, upper);
    case Percent(byte, upper) =>
      assert text[i + 1] == e[1] && text[i + 2] == e[2];
      PercentDecodes(text, i, byte, upper);
    case Short(letter) =>
      assert text[i + 1] == e[1];
      ShortDecodes(text, i, letter);
    case Plain(b) =>
      assert t.JsonEscapes? ==> JsonStep(text, i) == Copy(text, i);
      assert t.PercentEscapes? ==> PercentStep(text, i) == Copy(text, i);
  }

  /** Decoding any encoding of any text gives the text back. */
  lemma {:induction false} DecodingUndoesEncoding(t: Transform, before: string, chunks: seq<Chunk>, view: View)
    requires AllWellFormed(t, chunks)
    requires view.text == before + EncodeAll(t, chunks) && |view.origins| == |view.text|
    ensures Rewrite(t, view, |before|).text == MeaningAll(t, chunks)
    decreases |chunks|
  {
    hide Step, Chunk.Encoding, Chunk.Meaning, PieceSource;
    if chunks != [] {
      var e := chunks[0].Encoding(t);
      assert view.text[|before|..|before| + |e|] == e;
      ChunkDecodes(t, view.text, |before|, chunks[0]);
      assert view.text == (before + e) + EncodeAll(t, chunks[1..]);
      DecodingUndoesEncoding(t, before + e, chunks[1..], view);
    }
  }

  lemma EncodingNonempty(t: Transform, c: Chunk)
    requires c.WellFormed(t)
    ensures 0 < |c.Encoding(t)|
  {
  }

  /** Each decoded byte comes from the whole escape that stands for it, and from nothing else. */
  function TracedAll(t: Transform, chunks: seq<Chunk>, at: nat, origins: seq<Span>): seq<Span>
    requires AllWellFormed(t, chunks) && at + |EncodeAll(t, chunks)| <= |origins|
  {
    if chunks == [] then []
    else
      var end := at + |chunks[0].Encoding(t)|;
      EncodingNonempty(t, chunks[0]);
      seq(|chunks[0].Meaning(t)|, i => Span(origins[at].start, origins[end - 1].end))
      + TracedAll(t, chunks[1..], end, origins)
  }

  lemma {:induction false} DecodingTraced(source: string, t: Transform, before: string, chunks: seq<Chunk>, view: View)
    requires AllWellFormed(t, chunks) && WellMapped(source, view)
    requires view.text == before + EncodeAll(t, chunks) && |view.origins| == |view.text|
    ensures Rewrite(t, view, |before|).origins == TracedAll(t, chunks, |before|, view.origins)
    decreases |chunks|
  {
    hide Step, Chunk.Encoding, Chunk.Meaning, PieceSource, WellMapped;
    if chunks != [] {
      var e := chunks[0].Encoding(t);
      EncodingNonempty(t, chunks[0]);
      assert view.text[|before|..|before| + |e|] == e;
      ChunkDecodes(t, view.text, |before|, chunks[0]);
      Decoders.CombinedInView(source, view, |before|, |before| + |e|);
      assert view.text == (before + e) + EncodeAll(t, chunks[1..]);
      DecodingTraced(source, t, before + e, chunks[1..], view);
    }
  }

  /** A low surrogate follows at `i` as a complete `\\u` escape. */
  predicate LowHalfAt(text: string, i: nat) {
    && i + 6 <= |text| && text[i..i + 2] == "\\u"
    && HexQuad(text[i + 2..i + 6]).Some?
    && 0xDC00 <= HexQuad(text[i + 2..i + 6]).value <= 0xDFFF
  }

  /** A surrogate escape decodes only as the high half of a pair; otherwise it is left as it stands. */
  lemma SurrogatesDecodeOnlyInPairs(text: string, i: nat, v: nat)
    requires i + 6 <= |text| && text[i] == '\\' && text[i + 1] == 'u'
    requires HexQuad(text[i + 2..i + 6]) == Some(v) && 0xD800 <= v <= 0xDFFF
    ensures JsonStep(text, i).decoded <==> v < 0xDC00 && LowHalfAt(text, i + 6)
    ensures !JsonStep(text, i).decoded ==> JsonStep(text, i) == Copy(text, i)
  {
    hide HexQuad, Utf8.Encode;
    if i + 12 <= |text| {
      assert text[i + 6 + 2..i + 6 + 6] == text[i + 8..i + 12];
    }
  }
}
