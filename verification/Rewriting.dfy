/**
 * What rewriting a text means: non-overlapping edits spliced in from left to right, where every
 * byte of the result comes from, and how restoration undoes it.
 */
module Rewriting {
  import opened Domain
  import opened Overlaps
  import Tokens
  import Utf8

  datatype Edit = Edit(span: Span, replacement: string)

  /** The edits lie in order between `from` and the end of the text and do not overlap. */
  predicate Fits(edits: seq<Edit>, from: nat, length: nat) {
    if edits == [] then from <= length
    else from <= edits[0].span.start < edits[0].span.end <= length && Fits(edits[1..], edits[0].span.end, length)
  }

  function Splice(text: string, edits: seq<Edit>, from: nat): string
    requires Fits(edits, from, |text|)
  {
    if edits == [] then text[from..]
    else text[from..edits[0].span.start] + edits[0].replacement + Splice(text, edits[1..], edits[0].span.end)
  }

  lemma FitsBound(edits: seq<Edit>, from: nat, length: nat)
    requires Fits(edits, from, length)
    ensures from <= length
  {
  }

  /** Starting the splice earlier only puts more of the text in front. */
  lemma SpliceEarlier(text: string, edits: seq<Edit>, from: nat, later: nat)
    requires Fits(edits, later, |text|) && from <= later
    ensures Fits(edits, from, |text|)
    ensures Splice(text, edits, from) == text[from..later] + Splice(text, edits, later)
  {
    if edits == [] {
      assert text[from..] == text[from..later] + text[later..];
    } else {
      var e := edits[0];
      var tail := Splice(text, edits[1..], e.span.end);
      assert text[from..e.span.start] == text[from..later] + text[later..e.span.start];
      Reassociate(text[from..later], text[later..e.span.start], e.replacement, tail);
    }
  }

  lemma Reassociate(a: string, b: string, c: string, d: string)
    ensures (a + b) + c + d == a + (b + c + d)
  {
  }

  // ----- where the bytes of the result come from

  datatype Origin = Copied(position: nat) | Inserted(edit: Edit)

  function CopiedRun(from: nat, to: nat): (r: seq<Origin>)
    requires from <= to
    ensures |r| == to - from
  {
    seq(to - from, i requires 0 <= i < to - from => Copied(from + i))
  }

  function InsertedRun(e: Edit): (r: seq<Origin>)
    ensures |r| == |e.replacement|
  {
    seq(|e.replacement|, i => Inserted(e))
  }

  /** The origin of every byte of `Splice`. */
  function Provenance(edits: seq<Edit>, from: nat, length: nat): seq<Origin>
    requires Fits(edits, from, length)
  {
    if edits == [] then FitsBound(edits, from, length); CopiedRun(from, length)
    else
      CopiedRun(from, edits[0].span.start) + InsertedRun(edits[0])
      + Provenance(edits[1..], edits[0].span.end, length)
  }

  predicate CoveredByEdit(edits: seq<Edit>, position: nat) {
    exists e :: e in edits && e.span.Contains(position)
  }

  lemma {:induction false} FitsMember(edits: seq<Edit>, from: nat, length: nat, e: Edit)
    requires Fits(edits, from, length) && e in edits
    ensures from <= e.span.start < e.span.end <= length
  {
    if e != edits[0] {
      FitsMember(edits[1..], edits[0].span.end, length, e);
    }
  }

  /**
   * A byte of the result was copied only from a position no edit covers, and it is the byte that stands
   * there; copied positions come in increasing order.
   */
  lemma {:induction false} ProvenanceSound(text: string, edits: seq<Edit>, from: nat, j: nat)
    requires Fits(edits, from, |text|)
    requires j < |Provenance(edits, from, |text|)|
    ensures |Provenance(edits, from, |text|)| == |Splice(text, edits, from)|
    ensures match Provenance(edits, from, |text|)[j]
            case Copied(p) => from <= p < |text| && Splice(text, edits, from)[j] == text[p] && !CoveredByEdit(edits, p)
            case Inserted(e) => e in edits && Splice(text, edits, from)[j] in e.replacement
  {
    FitsBound(edits, from, |text|);
    ProvenanceLength(text, edits, from);
    if edits != [] {
      var e, rest := edits[0], edits[1..];
      assert edits == [e] + rest;
      var gap, put := e.span.start - from, |e.replacement|;
      if j < gap {
        forall f | f in edits
          ensures !f.span.Contains(from + j)
        {
          if f != e {
            FitsMember(rest, e.span.end, |text|, f);
          }
        }
      } else if j < gap + put {
        assert Splice(text, edits, from)[j] == e.replacement[j - gap];
      } else {
        ProvenanceSound(text, rest, e.span.end, j - gap - put);
        assert Splice(text, edits, from)[j] == Splice(text, rest, e.span.end)[j - gap - put];
        assert Provenance(edits, from, |text|)[j] == Provenance(rest, e.span.end, |text|)[j - gap - put];
      }
    }
  }

  lemma {:induction false} ProvenanceLength(text: string, edits: seq<Edit>, from: nat)
    requires Fits(edits, from, |text|)
    ensures |Provenance(edits, from, |text|)| == |Splice(text, edits, from)|
  {
    FitsBound(edits, from, |text|);
    if edits != [] {
      ProvenanceLength(text, edits[1..], edits[0].span.end);
    }
  }

  /** Nothing is lost: every position no edit covers is copied somewhere. */
  lemma {:induction false} UncoveredCopied(edits: seq<Edit>, from: nat, length: nat, p: nat)
    requires Fits(edits, from, length) && from <= p < length && !CoveredByEdit(edits, p)
    ensures Copied(p) in Provenance(edits, from, length)
  {
    if edits == [] {
      assert CopiedRun(from, length)[p - from] == Copied(p);
    } else {
      var e := edits[0];
      assert !e.span.Contains(p);
      if p < e.span.start {
        assert CopiedRun(from, e.span.start)[p - from] == Copied(p);
      } else {
        assert forall f :: f in edits[1..] ==> f in edits;
        UncoveredCopied(edits[1..], e.span.end, length, p);
      }
    }
  }

  // ----- edits made from resolved findings

  /** A token handed out for a value. */
  datatype Issued = Issued(dataClass: DataClass, value: string, token: string, created: bool)

  function Actionable(fs: seq<Planned>): seq<Planned> {
    if fs == [] then []
    else if fs[0].action == Allow then Actionable(fs[1..])
    else [fs[0]] + Actionable(fs[1..])
  }

  lemma {:induction false} ActionableMembers(fs: seq<Planned>, f: Planned)
    ensures f in Actionable(fs) <==> f in fs && f.action != Allow
  {
    if fs != [] {
      ActionableMembers(fs[1..], f);
      assert fs == [fs[0]] + fs[1..];
    }
  }

  /** The replacement of one finding: its class mask, or a token issued for exactly its text. */
  ghost predicate Replaces(text: string, f: Planned, replacement: string, log: seq<Issued>) {
    match f.action
    case Mask => replacement == Tokens.MaskText(f.finding.dataClass)
    case Tokenize =>
      && f.finding.span.start <= f.finding.span.end <= |text|
      && IssuedFor(log, f.finding.dataClass, text[f.finding.span.start..f.finding.span.end], replacement)
    case _ => false
  }

  ghost predicate IssuedFor(log: seq<Issued>, c: DataClass, value: string, token: string) {
    exists i :: 0 <= i < |log| && log[i].dataClass == c && log[i].value == value && log[i].token == token
  }

  /** One edit per actionable finding, in order. */
  ghost predicate Edits(text: string, fs: seq<Planned>, edits: seq<Edit>, log: seq<Issued>) {
    && |edits| == |fs|
    && forall k {:trigger edits[k]} {:trigger fs[k]} :: 0 <= k < |fs| ==>
         edits[k].span == fs[k].finding.span && Replaces(text, fs[k], edits[k].replacement, log)
  }

  lemma {:induction false} EditsFit(text: string, fs: seq<Planned>, edits: seq<Edit>, log: seq<Issued>, from: nat)
    requires Disjoint(fs) && Edits(text, fs, edits, log) && from <= |text|
    requires forall k :: 0 <= k < |fs| ==> from <= fs[k].finding.span.start && fs[k].finding.span.end <= |text|
    ensures Fits(edits, from, |text|)
  {
    hide Replaces;
    if edits != [] {
      assert fs[0] in fs && edits[0].span == fs[0].finding.span;
      EditsFit(text, fs[1..], edits[1..], log, fs[0].finding.span.end);
    }
  }

  lemma {:induction false} ActionableDisjoint(fs: seq<Planned>)
    requires Disjoint(fs)
    ensures Disjoint(Actionable(fs))
  {
    if fs != [] {
      assert fs[0] in fs;
      ActionableDisjoint(fs[1..]);
      var rest := Actionable(fs[1..]);
      forall f | f in rest
        ensures fs[0].finding.span.end <= f.finding.span.start
      {
        ActionableMembers(fs[1..], f);
      }
    }
  }

  /**
   * No byte of the rewritten text is copied from a position covered by any finding whose own action was
   * not Allow, whatever findings it was merged with.
   */
  lemma NoProtectedByteCopied(text: string, fs: seq<Planned>, out: seq<Planned>, edits: seq<Edit>, log: seq<Issued>,
                              j: nat, f: Planned)
    requires Resolved(fs, out) && Edits(text, Actionable(out), edits, log) && Fits(edits, 0, |text|)
    requires f in fs && f.action != Allow
    requires j < |Provenance(edits, 0, |text|)| && Provenance(edits, 0, |text|)[j].Copied?
    ensures !f.finding.span.Contains(Provenance(edits, 0, |text|)[j].position)
    ensures |Splice(text, edits, 0)| == |Provenance(edits, 0, |text|)|
    ensures var p := Provenance(edits, 0, |text|)[j].position; p < |text| && Splice(text, edits, 0)[j] == text[p]
  {
    hide Replaces, Splice, Provenance, Fits;
    ProvenanceSound(text, edits, 0, j);
    var e := ProtectedByEdit(text, fs, out, edits, log, f);
    assert !e.span.Contains(Provenance(edits, 0, |text|)[j].position);
  }

  /** A finding that is not allowed lies inside an edit. */
  lemma ProtectedByEdit(text: string, fs: seq<Planned>, out: seq<Planned>, edits: seq<Edit>, log: seq<Issued>,
                        f: Planned) returns (e: Edit)
    requires Resolved(fs, out) && Edits(text, Actionable(out), edits, log) && f in fs && f.action != Allow
    ensures e in edits && f.finding.span.Within(e.span)
  {
    hide Replaces;
    assert Housed(f, out);
    var o :| o in out && f.finding.span.Within(o.finding.span);
    var w := PairingKept(fs, out, o);
    assert o.action.Precedence() >= f.action.Precedence() > 1;
    ActionableMembers(out, o);
    var k :| 0 <= k < |Actionable(out)| && Actionable(out)[k] == o;
    e := edits[k];
  }

  // ----- validity of the result

  /** Splicing valid strings in at character boundaries gives a valid string. */
  lemma {:induction false} SpliceValid(text: string, edits: seq<Edit>, from: nat)
    requires Utf8.Valid(text) && Fits(edits, from, |text|) && Utf8.IsBoundary(text, from)
    requires forall e :: e in edits ==>
               Utf8.IsBoundary(text, e.span.start) && Utf8.IsBoundary(text, e.span.end) && Utf8.Valid(e.replacement)
    ensures Utf8.Valid(Splice(text, edits, from))
  {
    hide Utf8.Valid;
    FitsBound(edits, from, |text|);
    if edits == [] {
      Utf8.ValidSlice(text, from, |text|);
      assert text[from..|text|] == text[from..];
    } else {
      var e := edits[0];
      assert e in edits;
      Utf8.ValidSlice(text, from, e.span.start);
      SpliceValid(text, edits[1..], e.span.end);
      Utf8.ValidConcat(text[from..e.span.start], e.replacement);
      Utf8.ValidConcat(text[from..e.span.start] + e.replacement, Splice(text, edits[1..], e.span.end));
    }
  }

  // ----- restoring a rewritten text

  /** The edits of the masked findings alone. */
  function MaskEdits(fs: seq<Planned>): seq<Edit> {
    if fs == [] then []
    else if fs[0].action == Mask
    then [Edit(fs[0].finding.span, Tokens.MaskText(fs[0].finding.dataClass))] + MaskEdits(fs[1..])
    else MaskEdits(fs[1..])
  }

  /** Every issued token is a token, and looking it up gives the value it was issued for. */
  ghost predicate Answers(lookup: Tokens.Lookup, log: seq<Issued>) {
    forall i {:trigger log[i]} :: 0 <= i < |log| ==>
      Tokens.IsToken(log[i].token) && lookup(log[i].token) == Some(log[i].value)
  }

  /** The findings lie in order between `from` and the end of the text and do not overlap. */
  predicate Laid(fs: seq<Planned>, from: nat, length: nat) {
    if fs == [] then from <= length
    else
      && from <= fs[0].finding.span.start < fs[0].finding.span.end <= length
      && Laid(fs[1..], fs[0].finding.span.end, length)
  }

  /** What a replacement becomes: a mask stays, a token turns back into the text it stood for. */
  function Undone(text: string, f: Planned): string
    requires f.finding.span.start <= f.finding.span.end <= |text|
  {
    if f.action == Mask then Tokens.MaskText(f.finding.dataClass) else text[f.finding.span.start..f.finding.span.end]
  }

  /** The text with every finding undone and what lies between them restored by itself. */
  function RestoredAround(text: string, fs: seq<Planned>, lookup: Tokens.Lookup, from: nat): string
    requires Laid(fs, from, |text|)
  {
    if fs == [] then Tokens.Restored(text[from..], lookup)
    else
      var s := fs[0].finding.span;
      Tokens.Restored(text[from..s.start], lookup) + Undone(text, fs[0]) + RestoredAround(text, fs[1..], lookup, s.end)
  }

  /**
   * Restoring a rewritten text turns every token issued for it back into the text it stood for and leaves its
   * masks, as long as the issued tokens can still be looked up. What lies between is restored as it would be
   * by itself: a piece of the text never runs into a replacement to form a token that was not there.
   */
  lemma {:induction false} RestoreRewritten(text: string, fs: seq<Planned>, edits: seq<Edit>, log: seq<Issued>,
                                            lookup: Tokens.Lookup, from: nat)
    requires Answers(lookup, log) && Edits(text, fs, edits, log) && Fits(edits, from, |text|)
    ensures Laid(fs, from, |text|)
    ensures Tokens.Restored(Splice(text, edits, from), lookup) == RestoredAround(text, fs, lookup, from)
    decreases |fs|
  {
    hide Tokens.Restored, Answers, Tokens.MaskText, Undone;
    if fs != [] {
      var e, rest := edits[0], Splice(text, edits[1..], edits[0].span.end);
      EditsTail(text, fs, edits, log);
      RestoreRewritten(text, fs[1..], edits[1..], log, lookup, e.span.end);
      RestoredGap(text, from, e, fs[0], rest, log, lookup);
    }
  }

  /** Without a live token in it, the text comes back with only its masked spans still replaced. */
  lemma {:induction false} AroundInert(text: string, fs: seq<Planned>, lookup: Tokens.Lookup, from: nat)
    requires Laid(fs, from, |text|) && Tokens.Inert(text, lookup)
    ensures Fits(MaskEdits(fs), from, |text|)
    ensures RestoredAround(text, fs, lookup, from) == Splice(text, MaskEdits(fs), from)
    decreases |fs|
  {
    hide Tokens.Restored, Tokens.MaskText, Tokens.Inert, Undone;
    if fs == [] {
      Tokens.RestoredInert(text, from, |text|, lookup);
      assert text[from..|text|] == text[from..];
    } else {
      var s := fs[0].finding.span;
      LaidBound(fs[1..], s.end, |text|);
      AroundInert(text, fs[1..], lookup, s.end);
      Tokens.RestoredInert(text, from, s.start, lookup);
      MaskEditsStep(text, fs, from);
    }
  }

  lemma LaidBound(fs: seq<Planned>, from: nat, length: nat)
    requires Laid(fs, from, length)
    ensures from <= length
  {
  }

  lemma EditsTail(text: string, fs: seq<Planned>, edits: seq<Edit>, log: seq<Issued>)
    requires Edits(text, fs, edits, log) && fs != []
    ensures Edits(text, fs[1..], edits[1..], log)
    ensures edits[0].span == fs[0].finding.span && Replaces(text, fs[0], edits[0].replacement, log)
  {
    hide Replaces;
    forall k | 0 <= k < |fs[1..]|
      ensures edits[1..][k].span == fs[1..][k].finding.span
      ensures Replaces(text, fs[1..][k], edits[1..][k].replacement, log)
    {
      assert edits[1..][k] == edits[k + 1] && fs[1..][k] == fs[k + 1];
    }
  }

  lemma RestoredGap(text: string, from: nat, e: Edit, f: Planned, rest: string, log: seq<Issued>,
                    lookup: Tokens.Lookup)
    requires Answers(lookup, log) && Replaces(text, f, e.replacement, log)
    requires from <= e.span.start < e.span.end <= |text| && e.span == f.finding.span
    ensures Tokens.Restored(text[from..e.span.start] + e.replacement + rest, lookup)
         == Tokens.Restored(text[from..e.span.start], lookup) + Undone(text, f) + Tokens.Restored(rest, lookup)
  {
    hide Tokens.Restored;
    var gap, sealed := text[from..e.span.start], e.replacement + rest;
    ReplacementOpens(text, f, e.replacement, log, lookup);
    assert sealed[0] == '[';
    Tokens.RestoredConcat(gap, sealed, lookup);
    assert gap + sealed == gap + e.replacement + rest;
    if f.action == Mask {
      Tokens.RestoredMask(f.finding.dataClass, rest, lookup);
    } else {
      Tokens.RestoredToken(e.replacement, rest, lookup);
    }
    var g, u, r := Tokens.Restored(gap, lookup), Undone(text, f), Tokens.Restored(rest, lookup);
    assert g + (u + r) == g + u + r;
  }

  lemma ReplacementOpens(text: string, f: Planned, replacement: string, log: seq<Issued>, lookup: Tokens.Lookup)
    requires Answers(lookup, log) && Replaces(text, f, replacement, log)
    ensures replacement != "" && replacement[0] == '['
    ensures f.action == Tokenize ==>
              && Tokens.IsToken(replacement) && f.finding.span.start <= f.finding.span.end <= |text|
              && lookup(replacement) == Some(text[f.finding.span.start..f.finding.span.end])
  {
    if f.action == Tokenize {
      var value := text[f.finding.span.start..f.finding.span.end];
      assert IssuedFor(log, f.finding.dataClass, value, replacement);
      var i :| 0 <= i < |log| && log[i].dataClass == f.finding.dataClass && log[i].value == value
        && log[i].token == replacement;
      Tokens.TokenDelimited(replacement);
    }
  }

  lemma MaskEditsStep(text: string, fs: seq<Planned>, from: nat)
    requires fs != [] && from <= fs[0].finding.span.start < fs[0].finding.span.end <= |text|
    requires Fits(MaskEdits(fs[1..]), fs[0].finding.span.end, |text|)
    ensures Fits(MaskEdits(fs), from, |text|)
    ensures var s := fs[0].finding.span;
            Splice(text, MaskEdits(fs), from)
            == text[from..s.start] + Undone(text, fs[0]) + Splice(text, MaskEdits(fs[1..]), s.end)
  {
    hide Tokens.MaskText;
    var s, rest := fs[0].finding.span, MaskEdits(fs[1..]);
    if fs[0].action == Mask {
      assert MaskEdits(fs)[1..] == rest;
    } else {
      SpliceEarlier(text, rest, from, s.end);
      assert text[from..s.end] == text[from..s.start] + text[s.start..s.end];
    }
  }
}
