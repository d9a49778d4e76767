/**
 * What normalization comes to on texts (src/detector.rs, `normalize` and `canonicalize`): broken lines and invisible
 * characters make no difference to what is scanned, and a plain text is scanned as it stands.
 */
module Normalization {
  import opened LineFolds
  import opened Views
  import Decoders
  import Utf8

  // ----- the characters of a text, one by one

  /** The first character normalized or dropped, and the rest. */
  function CanonicalFirst(nfkc: string -> string, s: string): string
    requires s != ""
  {
    CanonicalStep(nfkc, s, 0).out
  }

  function CanonicalText(nfkc: string -> string, s: string): string
    decreases |s|
  {
    if s == "" then "" else CanonicalFirst(nfkc, s) + CanonicalText(nfkc, s[CanonicalStep(nfkc, s, 0).next..])
  }

  lemma StepLocal(nfkc: string -> string, s: string, i: nat)
    requires i < |s|
    ensures CanonicalStep(nfkc, s, i).out == CanonicalStep(nfkc, s[i..], 0).out
    ensures CanonicalStep(nfkc, s, i).next == i + CanonicalStep(nfkc, s[i..], 0).next
  {
    var n := Utf8.CharLen(s[i]);
    if 0 < n && i + n <= |s| {
      assert s[i..][0..n] == s[i..i + n];
    }
  }

  lemma {:induction false} RewriteIsCanonical(nfkc: string -> string, view: View, i: nat)
    requires |view.text| == |view.origins| && i <= |view.text|
    ensures Rewrite(Canonical(nfkc), view, i).text == CanonicalText(nfkc, view.text[i..])
    decreases |view.text| - i
  {
    hide CanonicalStep, PieceSource;
    if i < |view.text| {
      StepLocal(nfkc, view.text, i);
      var p := CanonicalStep(nfkc, view.text, i);
      RewriteIsCanonical(nfkc, view, p.next);
      assert view.text[i..][p.next - i..] == view.text[p.next..];
    } else {
      assert view.text[i..] == "";
    }
  }

  lemma {:induction false} CanonicalConcat(nfkc: string -> string, a: string, b: string)
    requires Utf8.Valid(a)
    ensures CanonicalText(nfkc, a + b) == CanonicalText(nfkc, a) + CanonicalText(nfkc, b)
  {
    if a == "" {
      assert a + b == b;
    } else {
      hide Utf8.ScalarOf, IsInvisibleControl;
      var n := Utf8.CharLen(a[0]);
      Utf8.FirstWithin(a);
      var s := a + b;
      assert s[0] == a[0] && s[0..n] == a[0..n] && s[n..] == a[n..] + b;
      CanonicalConcat(nfkc, a[n..], b);
      var c := CanonicalFirst(nfkc, a);
      assert c + (CanonicalText(nfkc, a[n..]) + CanonicalText(nfkc, b))
          == c + CanonicalText(nfkc, a[n..]) + CanonicalText(nfkc, b);
    }
  }

  /** The text that is scanned first is the canonical text with its broken lines joined. */
  lemma NormalizedText(nfkc: string -> string, source: string)
    ensures Decoders.Normalized(nfkc, source).text == Joined(CanonicalText(nfkc, source))
  {
    hide Rewrite, CanonicalText;
    var view := Rewrite(Canonical(nfkc), Decoders.Identity(source), 0);
    RewriteIsCanonical(nfkc, Decoders.Identity(source), 0);
    assert source[0..] == source;
    var fs := EveryTextFolds(view.text);
    JoinedIs(fs, view);
  }

  // ----- broken lines

  /** Normalization leaves the characters of ASCII alone, as every Unicode normalization form does. */
  ghost predicate KeepsAscii(nfkc: string -> string) {
    forall c: char :: Utf8.IsAscii(c) ==> nfkc([c]) == [c]
  }

  lemma {:induction false} AsciiCanonical(nfkc: string -> string, s: string)
    requires KeepsAscii(nfkc) && forall k :: 0 <= k < |s| ==> Utf8.IsAscii(s[k])
    ensures CanonicalText(nfkc, s) == s
  {
    if s != "" {
      AsciiCanonical(nfkc, s[1..]);
      assert s[0..1] == [s[0]] && s == [s[0]] + s[1..];
    }
  }

  lemma BreakIsAscii(crlf: bool, blanks: string)
    requires AllBlank(blanks)
    ensures var w := Broken(crlf, blanks).Written(); forall k :: 0 <= k < |w| ==> Utf8.IsAscii(w[k])
  {
    var head := if crlf then "\\\r\n" else "\\\n";
    var w := Broken(crlf, blanks).Written();
    forall k | 0 <= k < |w|
      ensures Utf8.IsAscii(w[k])
    {
      assert w[k] == if k < |head| then head[k] else blanks[k - |head|];
    }
  }

  /**
   * Breaking a text anywhere with a backslash, a line break and any indentation does not change what is scanned,
   * unless the break is put inside another one or in front of blanks.
   */
  lemma BrokenLinesScanAlike(nfkc: string -> string, a: string, b: string, crlf: bool, blanks: string)
    requires KeepsAscii(nfkc) && Utf8.Valid(a) && Utf8.Valid(b) && AllBlank(blanks)
    requires Seam(CanonicalText(nfkc, a), CanonicalText(nfkc, b))
    ensures Decoders.Normalized(nfkc, a + (Broken(crlf, blanks).Written() + b)).text
         == Decoders.Normalized(nfkc, a + b).text
  {
    hide CanonicalText, Joined, Seam, Utf8.Valid, Decoders.Normalized, KeepsAscii, AllBlank, Fold.Written;
    var w := Broken(crlf, blanks).Written();
    BreakIsAscii(crlf, blanks);
    AsciiCanonical(nfkc, w);
    Utf8.AsciiIsValid(w);
    CanonicalConcat(nfkc, a, w + b);
    CanonicalConcat(nfkc, w, b);
    CanonicalConcat(nfkc, a, b);
    NormalizedText(nfkc, a + (w + b));
    NormalizedText(nfkc, a + b);
    BreakRemoved(CanonicalText(nfkc, a), CanonicalText(nfkc, b), crlf, blanks);
  }

  // ----- invisible characters

  /** Soft hyphen, zero-width and directional characters, invisible operators, and the byte order mark. */
  predicate Invisible(v: nat) {
    || v == 0x00AD || v == 0x200B || v == 0x200C || v == 0x200D || v == 0x200E || v == 0x200F
    || v == 0x202A || v == 0x202B || v == 0x202C || v == 0x202D || v == 0x202E
    || v == 0x2060 || v == 0x2061 || v == 0x2062 || v == 0x2063 || v == 0x2064 || v == 0x2065
    || v == 0x2066 || v == 0x2067 || v == 0x2068 || v == 0x2069 || v == 0x206A || v == 0x206B
    || v == 0x206C || v == 0x206D || v == 0x206E || v == 0x206F
    || v == 0xFEFF
  }

  lemma OneCharacter(nfkc: string -> string, v: nat)
    requires Utf8.IsScalar(v)
    ensures CanonicalText(nfkc, Utf8.Encode(v)) == if Invisible(v) then "" else nfkc(Utf8.Encode(v))
  {
    Utf8.EncodeDecodes(v);
    hide Utf8.ScalarOf, Utf8.Encode;
    var s := Utf8.Encode(v);
    assert s[0..|s|] == s && s[|s|..] == "";
    assert CanonicalText(nfkc, "") == "";
    assert CanonicalFirst(nfkc, s) + "" == CanonicalFirst(nfkc, s);
  }

  /** An invisible character put anywhere between characters does not change what is scanned. */
  lemma InvisibleScanAlike(nfkc: string -> string, a: string, v: nat, b: string)
    requires Utf8.Valid(a) && Utf8.Valid(b) && Utf8.IsScalar(v) && Invisible(v)
    ensures Decoders.Normalized(nfkc, a + (Utf8.Encode(v) + b)).text == Decoders.Normalized(nfkc, a + b).text
  {
    hide CanonicalText, Joined, Utf8.Valid, Decoders.Normalized, Utf8.Encode, Invisible;
    OneCharacter(nfkc, v);
    Utf8.EncodeIsValid(v);
    CanonicalConcat(nfkc, a, Utf8.Encode(v) + b);
    CanonicalConcat(nfkc, Utf8.Encode(v), b);
    CanonicalConcat(nfkc, a, b);
    NormalizedText(nfkc, a + (Utf8.Encode(v) + b));
    NormalizedText(nfkc, a + b);
    assert "" + CanonicalText(nfkc, b) == CanonicalText(nfkc, b);
  }
}
