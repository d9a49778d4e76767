/** Breaking a line with a backslash changes nothing in what is scanned (`remove_structural_continuations`). */
module LineFolds {
  import opened Domain
  import opened Views
  import Decoders

  predicate Blank(c: char) { c == ' ' || c == '\t' }

  predicate AllBlank(s: string) { forall k :: 0 <= k < |s| ==> Blank(s[k]) }

  predicate OpensWithBreak(s: string) { "\n" <= s || "\r\n" <= s }

  /** One unit of a text: a byte that stays, or a broken line with the indentation that follows. */
  datatype Fold = Kept(b: char) | Broken(crlf: bool, blanks: string) {
    function Written(): string {
      match this
      case Kept(b) => [b]
      case Broken(crlf, blanks) => (if crlf then "\\\r\n" else "\\\n") + blanks
    }

    function Means(): string {
      match this
      case Kept(b) => [b]
      case Broken(_, _) => ""
    }
  }

  function WrittenAll(fs: seq<Fold>): string {
    if fs == [] then "" else fs[0].Written() + WrittenAll(fs[1..])
  }

  function MeansAll(fs: seq<Fold>): string {
    if fs == [] then "" else fs[0].Means() + MeansAll(fs[1..])
  }

  /** A backslash that stays is not followed by a line break, and all the indentation after a break belongs to it. */
  predicate Before(f: Fold, rest: string) {
    match f
    case Kept(b) => b == '\\' ==> !OpensWithBreak(rest)
    case Broken(_, blanks) => AllBlank(blanks) && (rest == "" || !Blank(rest[0]))
  }

  predicate Proper(fs: seq<Fold>) {
    fs == [] || (Proper(fs[1..]) && Before(fs[0], WrittenAll(fs[1..])))
  }

  lemma {:induction false} SkipBlanksIs(text: string, i: nat, j: nat)
    requires i <= j <= |text| && (forall k :: i <= k < j ==> Blank(text[k])) && (j < |text| ==> !Blank(text[j]))
    ensures SkipBlanks(text, i) == j
    decreases j - i
  {
    if i < j {
      SkipBlanksIs(text, i + 1, j);
    }
  }

  lemma Opening(text: string, before: string, first: string, rest: string)
    requires text == before + (first + rest)
    ensures forall k :: 0 <= k < |first| ==> text[|before| + k] == first[k]
    ensures rest != "" ==> text[|before| + |first|] == rest[0]
    ensures |rest| > 1 ==> text[|before| + |first| + 1] == rest[1]
    ensures |text| == |before| + |first| + |rest|
  {
  }

  /** The removal takes one unit at a time. */
  lemma FoldStep(text: string, before: string, f: Fold, rest: string)
    requires text == before + (f.Written() + rest) && Before(f, rest)
    ensures |before| < |text|
    ensures ContinuationStep(text, |before|) == Piece(f.Means(), |before| + |f.Written()|, f.Broken?)
  {
    Opening(text, before, f.Written(), rest);
    var i := |before|;
    match f
    case Kept(b) =>
      assert text[i] == f.Written()[0] == b;
      assert rest == "" ==> i + 1 == |text|;
    case Broken(crlf, blanks) =>
      var head := if crlf then "\\\r\n" else "\\\n";
      assert forall k :: 0 <= k < |head| ==> f.Written()[k] == head[k];
      assert forall k :: 0 <= k < |blanks| ==> f.Written()[|head| + k] == blanks[k];
      forall k | i + |head| <= k < i + |f.Written()|
        ensures Blank(text[k])
      {
        assert text[k] == f.Written()[k - i] == blanks[k - i - |head|];
      }
      SkipBlanksIs(text, i + |head|, i + |f.Written()|);
      assert text[i + 0] == head[0] && text[i + 1] == head[1];
      assert crlf ==> text[i + 2] == head[2];
  }

  /** Where the bytes that stay come from. */
  function OriginsOf(fs: seq<Fold>, at: nat, origins: seq<Span>): seq<Span>
    requires at + |WrittenAll(fs)| <= |origins|
  {
    if fs == [] then []
    else
      (if fs[0].Kept? then [origins[at]] else [])
      + OriginsOf(fs[1..], at + |fs[0].Written()|, origins)
  }

  /**
   * Of a text with any number of broken lines the removal leaves exactly the bytes outside the breaks and their
   * indentation, each traced to where it stood.
   */
  lemma {:induction false} FoldsRemoved(before: string, fs: seq<Fold>, view: View)
    requires Proper(fs) && view.text == before + WrittenAll(fs) && |view.origins| == |view.text|
    ensures Rewrite(Continuations, view, |before|)
         == View(MeansAll(fs), OriginsOf(fs, |before|, view.origins))
    decreases |fs|
  {
    hide ContinuationStep, PieceSource, Fold.Written, Fold.Means, Before;
    if fs != [] {
      var f, rest := fs[0], WrittenAll(fs[1..]);
      FoldStep(view.text, before, f, rest);
      assert view.text == (before + f.Written()) + rest;
      FoldsRemoved(before + f.Written(), fs[1..], view);
      FoldOrigin(f, view, |before|);
    }
  }

  lemma FoldOrigin(f: Fold, view: View, i: nat)
    requires |view.origins| == |view.text| && i + |f.Written()| <= |view.text|
    ensures |f.Written()| > 0
    ensures Repeat(PieceSource(view, i, i + |f.Written()|), |f.Means()|) == if f.Kept? then [view.origins[i]] else []
  {
    if f.Kept? {
      Decoders.CopiedByte(view, i);
    } else {
      assert Repeat(PieceSource(view, i, i + |f.Written()|), 0) == [];
    }
  }

  // ----- every text is made of such units

  function BlanksOf(s: string): (n: nat)
    ensures n <= |s| && AllBlank(s[..n]) && (n < |s| ==> !Blank(s[n]))
  {
    if s == "" || !Blank(s[0]) then 0
    else
      var n := BlanksOf(s[1..]);
      assert forall k :: 1 <= k < n + 1 ==> s[k] == s[1..][..n][k - 1];
      n + 1
  }

  /** The unit a text begins with. */
  lemma FirstFold(s: string) returns (f: Fold, rest: string)
    requires s != ""
    ensures s == f.Written() + rest && Before(f, rest) && |rest| < |s|
  {
    if "\\\n" <= s {
      f, rest := BrokenFirst(s, false);
    } else if "\\\r\n" <= s {
      f, rest := BrokenFirst(s, true);
    } else {
      f, rest := Kept(s[0]), s[1..];
      assert s == [s[0]] + rest;
      if s[0] == '\\' && OpensWithBreak(rest) {
        NoBreakBehind(s);
      }
    }
  }

  lemma NoBreakBehind(s: string)
    requires s != "" && s[0] == '\\' && OpensWithBreak(s[1..])
    ensures "\\\n" <= s || "\\\r\n" <= s
  {
    assert s[1] == s[1..][0] && (|s| > 2 ==> s[2] == s[1..][1]);
  }

  lemma BrokenFirst(s: string, crlf: bool) returns (f: Fold, rest: string)
    requires (if crlf then "\\\r\n" else "\\\n") <= s
    ensures s == f.Written() + rest && Before(f, rest) && |rest| < |s|
  {
    var head := if crlf then "\\\r\n" else "\\\n";
    var tail := s[|head|..];
    var n := BlanksOf(tail);
    f, rest := Broken(crlf, tail[..n]), tail[n..];
    hide *;
    Regrouped(s, head, tail, n);
    BrokenMeans(crlf, tail, n);
  }

  lemma Regrouped(s: string, head: string, tail: string, n: nat)
    requires head <= s && tail == s[|head|..] && n <= |tail| && head != ""
    ensures s == (head + tail[..n]) + tail[n..] && |tail[n..]| < |s|
  {
  }

  lemma BrokenMeans(crlf: bool, tail: string, n: nat)
    requires n <= |tail| && AllBlank(tail[..n]) && (n < |tail| ==> !Blank(tail[n]))
    ensures Broken(crlf, tail[..n]).Written() == (if crlf then "\\\r\n" else "\\\n") + tail[..n]
    ensures Before(Broken(crlf, tail[..n]), tail[n..])
  {
  }

  lemma {:induction false} EveryTextFolds(s: string) returns (fs: seq<Fold>)
    ensures Proper(fs) && WrittenAll(fs) == s
    decreases |s|
  {
    hide Before, Fold.Written;
    if s == "" {
      fs := [];
    } else {
      var f, rest := FirstFold(s);
      var more := EveryTextFolds(rest);
      fs := [f] + more;
      assert fs[0] == f && fs[1..] == more;
    }
  }

  // ----- putting texts together

  /** No broken line lies across the seam between two texts. */
  predicate Seam(x: string, y: string) {
    && (y == "" || !Blank(y[0]))
    && !(x != "" && x[|x| - 1] == '\\' && OpensWithBreak(y))
    && !(|x| > 1 && x[|x| - 2] == '\\' && x[|x| - 1] == '\r' && "\n" <= y)
  }

  lemma {:induction false} WrittenConcat(fs: seq<Fold>, gs: seq<Fold>)
    ensures WrittenAll(fs + gs) == WrittenAll(fs) + WrittenAll(gs)
    ensures MeansAll(fs + gs) == MeansAll(fs) + MeansAll(gs)
  {
    hide Fold.Written, Fold.Means;
    if fs == [] {
      assert fs + gs == gs;
    } else {
      assert (fs + gs)[0] == fs[0] && (fs + gs)[1..] == fs[1..] + gs;
      WrittenConcat(fs[1..], gs);
      assert fs[0].Written() + (WrittenAll(fs[1..]) + WrittenAll(gs))
          == fs[0].Written() + WrittenAll(fs[1..]) + WrittenAll(gs);
      assert fs[0].Means() + (MeansAll(fs[1..]) + MeansAll(gs)) == fs[0].Means() + MeansAll(fs[1..]) + MeansAll(gs);
    }
  }

  lemma {:induction false} ProperConcat(fs: seq<Fold>, gs: seq<Fold>)
    requires Proper(fs) && Proper(gs) && Seam(WrittenAll(fs), WrittenAll(gs))
    ensures Proper(fs + gs)
  {
    hide Before, Seam, Fold.Written, Fold.Means;
    if fs == [] {
      assert fs + gs == gs;
    } else {
      var all, rest, y := fs + gs, WrittenAll(fs[1..]), WrittenAll(gs);
      assert all[0] == fs[0] && all[1..] == fs[1..] + gs;
      SeamBehind(fs[0], rest, y);
      ProperConcat(fs[1..], gs);
      WrittenConcat(fs[1..], gs);
    }
  }

  lemma SeamBehind(f: Fold, rest: string, y: string)
    requires Seam(f.Written() + rest, y)
    ensures Seam(rest, y) && (Before(f, rest) ==> Before(f, rest + y))
  {
    hide AllBlank;
    var x := f.Written() + rest;
    if rest == "" {
      assert rest + y == y && x == f.Written();
    } else {
      assert x[|x| - 1] == rest[|rest| - 1] && (rest + y)[0] == rest[0];
      if |rest| == 1 {
        assert x[|x| - 2] == f.Written()[|f.Written()| - 1];
        assert y != "" ==> (rest + y)[1] == y[0];
      } else {
        assert x[|x| - 2] == rest[|rest| - 2] && (rest + y)[1] == rest[1];
      }
    }
  }

  /** What the removal makes of a text, whatever its bytes are traced to. */
  function Joined(s: string): string {
    Rewrite(Continuations, View(s, seq(|s|, i => Span(0, 0))), 0).text
  }

  lemma JoinedIs(fs: seq<Fold>, view: View)
    requires Proper(fs) && view.text == WrittenAll(fs) && |view.origins| == |view.text|
    ensures Joined(view.text) == MeansAll(fs) == Rewrite(Continuations, view, 0).text
  {
    hide Rewrite, Proper;
    var s := view.text;
    assert s == "" + WrittenAll(fs);
    FoldsRemoved("", fs, view);
    FoldsRemoved("", fs, View(s, seq(|s|, i => Span(0, 0))));
  }

  /** A line may be broken anywhere but in the middle of a break: the removal gives the text as if it were not. */
  lemma BreakRemoved(x: string, y: string, crlf: bool, blanks: string)
    requires Seam(x, y) && AllBlank(blanks)
    ensures Joined(x + (Broken(crlf, blanks).Written() + y)) == Joined(x + y) == Joined(x) + Joined(y)
  {
    hide Joined, Proper;
    var fx := EveryTextFolds(x);
    var fy := EveryTextFolds(y);
    var brk := Broken(crlf, blanks);
    ProperConcat(fx, fy);
    WrittenConcat(fx, fy);
    var mid := [brk] + fy;
    assert Proper(mid) && WrittenAll(mid) == brk.Written() + y && MeansAll(mid) == MeansAll(fy) by {
      OneMore(brk, fy);
    }
    assert Seam(x, brk.Written() + y) by {
      assert brk.Written()[0] == '\\';
    }
    ProperConcat(fx, mid);
    WrittenConcat(fx, mid);
    JoinedText(fx);
    JoinedText(fy);
    JoinedText(fx + fy);
    JoinedText(fx + mid);
  }

  lemma OneMore(brk: Fold, fy: seq<Fold>)
    requires brk.Broken? && AllBlank(brk.blanks) && Proper(fy)
    requires WrittenAll(fy) == "" || !Blank(WrittenAll(fy)[0])
    ensures Proper([brk] + fy) && WrittenAll([brk] + fy) == brk.Written() + WrittenAll(fy)
    ensures MeansAll([brk] + fy) == MeansAll(fy)
  {
    assert ([brk] + fy)[1..] == fy && "" + MeansAll(fy) == MeansAll(fy);
  }

  lemma JoinedText(fs: seq<Fold>)
    requires Proper(fs)
    ensures Joined(WrittenAll(fs)) == MeansAll(fs)
  {
    var s := WrittenAll(fs);
    JoinedIs(fs, View(s, seq(|s|, i => Span(0, 0))));
  }
}
