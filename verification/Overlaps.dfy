/**
 * Overlap resolution (src/detector.rs, `resolve_overlaps`): findings are merged into the connected
 * components of strict overlap, and each component takes its strongest action.
 */
module Overlaps {
  import opened Domain
  import Sorting

  // ----- what the result has to be, without reference to the algorithm

  ghost predicate AllNonempty(fs: seq<Planned>) {
    forall f :: f in fs ==> f.finding.span.Nonempty()
  }

  /** Some finding covers this position. */
  ghost predicate Covered(fs: seq<Planned>, position: nat) {
    exists f :: f in fs && f.finding.span.Contains(position)
  }

  /** Some finding has this cut point strictly inside: it covers the bytes on both sides. */
  ghost predicate Crossed(fs: seq<Planned>, cut: nat) {
    exists f :: f in fs && f.finding.span.start < cut < f.finding.span.end
  }

  ghost predicate Disjoint(out: seq<Planned>) {
    && AllNonempty(out)
    && forall i, j :: 0 <= i < j < |out| ==> out[i].finding.span.end <= out[j].finding.span.start
  }

  /** `o` spans a maximal run of findings without an uncrossed cut. */
  ghost predicate GapFree(fs: seq<Planned>, o: Span) {
    && Covered(fs, o.start)
    && forall cut {:trigger Crossed(fs, cut)} :: o.start < cut < o.end ==> Crossed(fs, cut)
  }

  /** `w` is the strongest finding inside `o`, the longest one among equals, and gives `o` everything but its span. */
  ghost predicate Wins(fs: seq<Planned>, w: Planned, o: Planned) {
    && w in fs && w.finding.span.Within(o.finding.span)
    && o == Planned(w.finding.(span := o.finding.span), w.action)
    && forall f :: f in fs && f.finding.span.Within(o.finding.span) ==> !Stronger(f, w)
  }

  predicate Stronger(f: Planned, g: Planned) {
    || f.action.Precedence() > g.action.Precedence()
    || (f.action == g.action && Length(f) > Length(g))
  }

  function Length(f: Planned): int { f.finding.span.end - f.finding.span.start }

  ghost predicate Housed(f: Planned, out: seq<Planned>) {
    exists o :: o in out && f.finding.span.Within(o.finding.span)
  }

  ghost predicate HasWinner(fs: seq<Planned>, o: Planned) {
    exists w :: Wins(fs, w, o)
  }

  /** The specification of overlap resolution. */
  ghost predicate Resolved(fs: seq<Planned>, out: seq<Planned>) {
    && Disjoint(out)
    && (forall f {:trigger Housed(f, out)} :: f in fs ==> Housed(f, out))
    && (forall o {:trigger GapFree(fs, o.finding.span)} :: o in out ==> GapFree(fs, o.finding.span))
    && (forall o {:trigger HasWinner(fs, o)} :: o in out ==> HasWinner(fs, o))
  }

  // ----- the algorithm

  predicate SpanOrder(a: Planned, b: Planned) {
    || a.finding.span.start < b.finding.span.start
    || (a.finding.span.start == b.finding.span.start && a.finding.span.end <= b.finding.span.end)
  }

  /** `max_by` over precedence, then length: the last of the greatest elements. */
  method Strongest(fs: seq<Planned>) returns (w: Planned)
    requires fs != []
    ensures w in fs && forall f :: f in fs ==> !Stronger(f, w)
  {
    w := fs[0];
    for i := 1 to |fs|
      invariant w in fs && forall k :: 0 <= k < i ==> !Stronger(fs[k], w)
    {
      if !Stronger(w, fs[i]) {
        w := fs[i];
      }
    }
  }

  method ResolveOverlaps(findings: seq<Planned>) returns (merged: seq<Planned>)
    requires AllNonempty(findings)
    ensures Resolved(findings, merged)
  {
    hide Resolved, GapFree, Sorting.Sort;
    var ordered := Sorting.Sort(SpanOrder, findings);
    Sorting.SortSorts(SpanOrder, findings);
    Sorting.SameMembers(ordered, findings);
    merged := [];
    NothingResolves();
    assert ordered[..0] == [];
    var index := 0;
    while index < |ordered|
      invariant 0 <= index <= |ordered|
      invariant Resolved(ordered[..index], merged)
      invariant forall o, k :: o in merged && index <= k < |ordered| ==>
                  o.finding.span.end <= ordered[k].finding.span.start
    {
      var next, end := Component(ordered, index);
      var component := ordered[index..next];
      var w := Strongest(component);
      var o := Planned(w.finding.(span := Span(ordered[index].finding.span.start, end)), w.action);
      ComponentResolves(component, w, o);
      ResolvedConcat(ordered[..index], merged, component, [o]);
      assert ordered[..index] + component == ordered[..next];
      merged := merged + [o];
      index := next;
    }
    assert ordered[..index] == ordered;
    ResolvedByMembers(ordered, findings, merged);
  }

  /** The inner loop: extends the component while the next finding starts before its running end. */
  method Component(ordered: seq<Planned>, index: nat) returns (next: nat, end: nat)
    requires index < |ordered| && AllNonempty(ordered) && Sorting.Sorted(SpanOrder, ordered)
    ensures index < next <= |ordered|
    ensures GapFree(ordered[index..next], Span(ordered[index].finding.span.start, end))
    ensures forall f ::
              f in ordered[index..next] ==> f.finding.span.Within(Span(ordered[index].finding.span.start, end))
    ensures forall k :: next <= k < |ordered| ==> end <= ordered[k].finding.span.start
  {
    hide GapFree;
    var start := ordered[index].finding.span.start;
    end := ordered[index].finding.span.end;
    next := index + 1;
    assert ordered[index..next] == [ordered[index]];
    GapFreeSingle(ordered[index]);
    while next < |ordered| && ordered[next].finding.span.start < end
      invariant index < next <= |ordered|
      invariant start < end
      invariant GapFree(ordered[index..next], Span(start, end))
      invariant forall f :: f in ordered[index..next] ==> f.finding.span.Within(Span(start, end))
    {
      GapFreeGrows(ordered[index..next], ordered[next], start, end);
      assert ordered[index..next + 1] == ordered[index..next] + [ordered[next]];
      assert SpanOrder(ordered[index], ordered[next]);
      if ordered[next].finding.span.end > end {
        end := ordered[next].finding.span.end;
      }
      next := next + 1;
    }
    forall k | next <= k < |ordered|
      ensures end <= ordered[k].finding.span.start
    {
      if next < k {
        assert SpanOrder(ordered[next], ordered[k]);
      }
    }
  }

  // ----- lemmas

  lemma NothingResolves()
    ensures Resolved([], [])
  {
  }

  lemma GapFreeSingle(f: Planned)
    requires f.finding.span.Nonempty()
    ensures GapFree([f], f.finding.span)
  {
    assert f in [f];
  }

  lemma GapFreeGrows(fs: seq<Planned>, f: Planned, start: nat, end: nat)
    requires GapFree(fs, Span(start, end)) && f.finding.span.Nonempty()
    requires start <= f.finding.span.start < end
    ensures GapFree(fs + [f], Span(start, if f.finding.span.end > end then f.finding.span.end else end))
  {
    var all := fs + [f];
    var s := f.finding.span;
    assert Covered(all, start) by {
      var g :| g in fs && g.finding.span.Contains(start);
      assert g in all;
    }
    forall cut | start < cut < (if s.end > end then s.end else end)
      ensures Crossed(all, cut)
    {
      if cut < end {
        assert Crossed(fs, cut);
        var g :| g in fs && g.finding.span.start < cut < g.finding.span.end;
        assert g in all;
      } else {
        assert f in all;
      }
    }
  }

  lemma ComponentResolves(fs: seq<Planned>, w: Planned, o: Planned)
    requires GapFree(fs, o.finding.span) && o.finding.span.Nonempty()
    requires forall f :: f in fs ==> f.finding.span.Within(o.finding.span)
    requires w in fs && forall f :: f in fs ==> !Stronger(f, w)
    requires o == Planned(w.finding.(span := o.finding.span), w.action)
    ensures Resolved(fs, [o])
  {
    assert Wins(fs, w, o);
    assert o in [o];
  }

  lemma GapFreeByMembers(fs: seq<Planned>, all: seq<Planned>, o: Span)
    requires GapFree(fs, o) && forall f :: f in fs ==> f in all
    ensures GapFree(all, o)
  {
    forall cut | o.start < cut < o.end
      ensures Crossed(all, cut)
    {
      assert Crossed(fs, cut);
    }
  }

  lemma WinnerByMembers(fs: seq<Planned>, all: seq<Planned>, o: Planned)
    requires HasWinner(fs, o) && forall f :: f in fs ==> f in all
    requires forall f :: f in all && f.finding.span.Within(o.finding.span) ==> f in fs
    ensures HasWinner(all, o)
  {
    var w :| Wins(fs, w, o);
    assert Wins(all, w, o);
  }

  /** Resolution depends only on which findings are present. */
  lemma ResolvedByMembers(a: seq<Planned>, b: seq<Planned>, out: seq<Planned>)
    requires Resolved(a, out) && forall f :: f in a <==> f in b
    ensures Resolved(b, out)
  {
    forall o | o in out
      ensures GapFree(b, o.finding.span) && HasWinner(b, o)
    {
      GapFreeByMembers(a, b, o.finding.span);
      WinnerByMembers(a, b, o);
    }
  }

  lemma ResolvedConcat(a: seq<Planned>, outA: seq<Planned>, b: seq<Planned>, outB: seq<Planned>)
    requires Resolved(a, outA) && Resolved(b, outB) && AllNonempty(a) && AllNonempty(b)
    requires forall o, p :: o in outA && p in outB ==> o.finding.span.end <= p.finding.span.start
    ensures Resolved(a + b, outA + outB)
  {
    DisjointConcat(outA, outB);
    forall f | f in a + b
      ensures Housed(f, outA + outB)
    {
      HousedConcat(a, outA, b, outB, f);
    }
    forall o | o in outA + outB
      ensures GapFree(a + b, o.finding.span) && HasWinner(a + b, o)
    {
      OutputKept(a, outA, b, outB, o);
    }
  }

  lemma DisjointConcat(outA: seq<Planned>, outB: seq<Planned>)
    requires Disjoint(outA) && Disjoint(outB)
    requires forall o, p :: o in outA && p in outB ==> o.finding.span.end <= p.finding.span.start
    ensures Disjoint(outA + outB)
  {
    var out := outA + outB;
    forall i, j | 0 <= i < j < |out|
      ensures out[i].finding.span.end <= out[j].finding.span.start
    {
      if i < |outA| <= j {
        assert outA[i] in outA && outB[j - |outA|] in outB;
      }
    }
  }

  lemma HousedConcat(a: seq<Planned>, outA: seq<Planned>, b: seq<Planned>, outB: seq<Planned>, f: Planned)
    requires Resolved(a, outA) && Resolved(b, outB) && (f in a || f in b)
    ensures Housed(f, outA + outB)
  {
    var part := if f in a then outA else outB;
    assert Housed(f, part);
    var o :| o in part && f.finding.span.Within(o.finding.span);
    assert o in outA + outB;
  }

  lemma OutputKept(a: seq<Planned>, outA: seq<Planned>, b: seq<Planned>, outB: seq<Planned>, o: Planned)
    requires Resolved(a, outA) && Resolved(b, outB) && AllNonempty(a) && AllNonempty(b)
    requires forall o, p :: o in outA && p in outB ==> o.finding.span.end <= p.finding.span.start
    requires o in outA || o in outB
    ensures GapFree(a + b, o.finding.span) && HasWinner(a + b, o)
  {
    var mine, other := if o in outA then a else b, if o in outA then b else a;
    var otherOut := if o in outA then outB else outA;
    assert forall f :: f in mine ==> f in a + b;
    GapFreeByMembers(mine, a + b, o.finding.span);
    forall f | f in a + b && f.finding.span.Within(o.finding.span)
      ensures f in mine
    {
      assert f in other ==> Housed(f, otherOut);
    }
    WinnerByMembers(mine, a + b, o);
  }

  // ----- consequences of the specification

  /** The merged spans cover exactly the positions the findings covered. */
  lemma SameCoverage(fs: seq<Planned>, out: seq<Planned>, position: nat)
    requires Resolved(fs, out)
    ensures Covered(fs, position) <==> Covered(out, position)
  {
    if Covered(fs, position) {
      var f :| f in fs && f.finding.span.Contains(position);
      assert Housed(f, out);
      var o :| o in out && f.finding.span.Within(o.finding.span);
      assert o.finding.span.Contains(position);
    }
    if Covered(out, position) {
      var o :| o in out && o.finding.span.Contains(position);
      assert GapFree(fs, o.finding.span);
      if position > o.finding.span.start {
        assert Crossed(fs, position);
        var f :| f in fs && f.finding.span.start < position < f.finding.span.end;
        assert f.finding.span.Contains(position);
      }
    }
  }

  /** Every merged finding keeps the (class, action) pairing of one of the findings it was made from. */
  lemma PairingKept(fs: seq<Planned>, out: seq<Planned>, o: Planned) returns (w: Planned)
    requires Resolved(fs, out) && o in out
    ensures w in fs && w.finding.span.Within(o.finding.span)
    ensures w.finding.dataClass == o.finding.dataClass && w.action == o.action
    ensures w.finding.detector == o.finding.detector && w.finding.confidence == o.finding.confidence
    ensures forall f ::
              f in fs && f.finding.span.Within(o.finding.span) ==> f.action.Precedence() <= o.action.Precedence()
    ensures forall f :: f in fs && f.finding.span.Within(o.finding.span) && f.action == o.action ==>
              f.finding.span.end - f.finding.span.start <= w.finding.span.end - w.finding.span.start
  {
    assert HasWinner(fs, o);
    w :| Wins(fs, w, o);
  }

  lemma DistinctOutputsDisjoint(out: seq<Planned>, o: Planned, p: Planned, position: nat)
    requires Disjoint(out) && o in out && p in out
    requires o.finding.span.Contains(position) && p.finding.span.Contains(position)
    ensures o == p
  {
    var i :| 0 <= i < |out| && out[i] == o;
    var j :| 0 <= j < |out| && out[j] == p;
    assert i == j;
  }

  /** A finding that shares a position with a merged span lies inside it. */
  lemma InsideWhenTouching(fs: seq<Planned>, out: seq<Planned>, f: Planned, o: Planned, position: nat)
    requires Resolved(fs, out) && f in fs && o in out
    requires f.finding.span.Contains(position) && o.finding.span.Contains(position)
    ensures f.finding.span.Within(o.finding.span)
  {
    assert Housed(f, out);
    var p :| p in out && f.finding.span.Within(p.finding.span);
    DistinctOutputsDisjoint(out, o, p, position);
  }

  /** Some finding of `fs` has the span and the action of `f`. */
  ghost predicate Twin(f: Planned, fs: seq<Planned>) {
    exists g :: g in fs && g.finding.span == f.finding.span && g.action == f.action
  }

  ghost predicate SameSpans(a: seq<Planned>, b: seq<Planned>) {
    && (forall f {:trigger Twin(f, b)} :: f in a ==> Twin(f, b))
    && (forall f {:trigger Twin(f, a)} :: f in b ==> Twin(f, a))
  }

  lemma CrossedBySameSpans(a: seq<Planned>, b: seq<Planned>, cut: nat)
    requires SameSpans(a, b) && Crossed(a, cut)
    ensures Crossed(b, cut)
  {
    var f :| f in a && f.finding.span.start < cut < f.finding.span.end;
    assert Twin(f, b);
    var g :| g in b && g.finding.span == f.finding.span && g.action == f.action;
  }

  /** No merged span starts or ends strictly inside a merged span of the same findings. */
  lemma EdgesAreCuts(fs: seq<Planned>, out: seq<Planned>, o: Planned)
    requires Resolved(fs, out) && o in out
    ensures !Crossed(fs, o.finding.span.start) && !Crossed(fs, o.finding.span.end)
  {
    var s := o.finding.span;
    if cut: nat :| (cut == s.start || cut == s.end) && Crossed(fs, cut) {
      var f :| f in fs && f.finding.span.start < cut < f.finding.span.end;
      var inside := if cut == s.start then cut else cut - 1;
      InsideWhenTouching(fs, out, f, o, inside);
    }
  }

  lemma SpanFoundIn(a: seq<Planned>, outA: seq<Planned>, b: seq<Planned>, outB: seq<Planned>, o: Planned)
    requires Resolved(a, outA) && Resolved(b, outB) && SameSpans(a, b) && o in outA
    ensures exists p :: p in outB && p.finding.span == o.finding.span && p.action == o.action
  {
    var s := o.finding.span;
    assert GapFree(a, s);
    var f :| f in a && f.finding.span.Contains(s.start);
    assert Twin(f, b);
    var g :| g in b && g.finding.span == f.finding.span && g.action == f.action;
    assert Housed(g, outB);
    var p :| p in outB && g.finding.span.Within(p.finding.span);
    assert p.finding.span == s by {
      EdgesAreCuts(a, outA, o);
      EdgesAreCuts(b, outB, p);
      assert GapFree(b, p.finding.span);
      SameEdges(a, b, s, p.finding.span);
      SameEdges(b, a, p.finding.span, s);
    }
    NotWeaker(a, outA, b, outB, o, p);
    NotWeaker(b, outB, a, outA, p, o);
    assert o.action.Precedence() == p.action.Precedence();
  }

  lemma NotWeaker(a: seq<Planned>, outA: seq<Planned>, b: seq<Planned>, outB: seq<Planned>, o: Planned, p: Planned)
    requires Resolved(a, outA) && Resolved(b, outB) && SameSpans(a, b) && o in outA && p in outB
    requires o.finding.span == p.finding.span
    ensures o.action.Precedence() <= p.action.Precedence()
  {
    var w := PairingKept(a, outA, o);
    var x := PairingKept(b, outB, p);
    assert Twin(w, b);
  }

  /** A gap-free span that meets an edge-cut span cannot reach past its edges. */
  lemma SameEdges(a: seq<Planned>, b: seq<Planned>, s: Span, t: Span)
    requires SameSpans(a, b) && s.Overlaps(t) && s.Nonempty() && t.Nonempty()
    requires GapFree(a, s) && !Crossed(b, t.start) && !Crossed(b, t.end)
    ensures s.Within(t)
  {
    if s.start < t.start {
      CrossedBySameSpans(a, b, t.start);
    }
    if s.end > t.end {
      CrossedBySameSpans(a, b, t.end);
    }
  }

  /**
   * The merged spans and actions are a function of the set of (span, action) pairs:
   * neither the order of the findings nor their repetition matters.
   */
  lemma OrderIndependent(a: seq<Planned>, outA: seq<Planned>, b: seq<Planned>, outB: seq<Planned>)
    requires Resolved(a, outA) && Resolved(b, outB) && SameSpans(a, b)
    ensures |outA| == |outB|
    ensures forall k ::
              0 <= k < |outA| ==> outA[k].finding.span == outB[k].finding.span && outA[k].action == outB[k].action
  {
    if |outA| != |outB| {
      SameAt(a, outA, b, outB, if |outA| < |outB| then |outA| else |outB|);
    }
    forall k | 0 <= k < |outA|
      ensures outA[k].finding.span == outB[k].finding.span && outA[k].action == outB[k].action
    {
      SameAt(a, outA, b, outB, k);
    }
  }

  lemma {:induction false} SameAt(a: seq<Planned>, outA: seq<Planned>, b: seq<Planned>, outB: seq<Planned>, k: nat)
    requires Resolved(a, outA) && Resolved(b, outB) && SameSpans(a, b)
    requires k < |outA| || k < |outB|
    ensures k < |outA| && k < |outB| && outA[k].finding.span == outB[k].finding.span && outA[k].action == outB[k].action
    decreases k
  {
    forall j: nat | j < k
      ensures j < |outA| && j < |outB| && outA[j].finding.span == outB[j].finding.span
      ensures outA[j].action == outB[j].action
    {
      SameAt(a, outA, b, outB, j);
    }
    if k < |outA| {
      var m := IndexIn(a, outA, b, outB, k);
      if m > k {
        var n := IndexIn(b, outB, a, outA, k);
      }
    } else {
      var n := IndexIn(b, outB, a, outA, k);
    }
  }

  lemma IndexIn(a: seq<Planned>, outA: seq<Planned>, b: seq<Planned>, outB: seq<Planned>, k: nat) returns (m: nat)
    requires Resolved(a, outA) && Resolved(b, outB) && SameSpans(a, b) && k < |outA|
    requires forall j: nat :: j < k && j < |outB| ==> outA[j].finding.span == outB[j].finding.span
    ensures k <= m < |outB| && outB[m].finding.span == outA[k].finding.span && outB[m].action == outA[k].action
  {
    SpanFoundIn(a, outA, b, outB, outA[k]);
    var p :| p in outB && p.finding.span == outA[k].finding.span && p.action == outA[k].action;
    m :| 0 <= m < |outB| && outB[m] == p;
  }

  /** Resolving a resolved list changes nothing, classes and detectors included. */
  lemma Idempotent(fs: seq<Planned>, out: seq<Planned>, again: seq<Planned>)
    requires Resolved(fs, out) && Resolved(out, again)
    ensures again == out
  {
    SelfResolved(out);
    assert SameSpans(out, out);
    OrderIndependent(out, again, out, out);
    forall k | 0 <= k < |out|
      ensures again[k] == out[k]
    {
      assert HasWinner(out, again[k]);
      var w :| Wins(out, w, again[k]);
      DistinctOutputsDisjoint(out, w, out[k], w.finding.span.start);
    }
  }

  lemma SelfResolved(out: seq<Planned>)
    requires Disjoint(out)
    ensures Resolved(out, out)
  {
    forall o | o in out
      ensures GapFree(out, o.finding.span) && HasWinner(out, o)
    {
      assert o.finding.span.Contains(o.finding.span.start);
      forall f | f in out && f.finding.span.Within(o.finding.span)
        ensures f == o
      {
        DistinctOutputsDisjoint(out, f, o, f.finding.span.start);
      }
      assert Wins(out, o, o);
    }
  }

  // ----- components of the overlap graph

  /** Consecutive findings on the path overlap. */
  ghost predicate Path(fs: seq<Planned>, path: seq<Planned>) {
    && path != []
    && (forall i :: 0 <= i < |path| ==> path[i] in fs)
    && forall i :: 0 <= i < |path| - 1 ==> path[i].finding.span.Overlaps(path[i + 1].finding.span)
  }

  ghost predicate Linked(fs: seq<Planned>, f: Planned, g: Planned) {
    exists path :: Path(fs, path) && path[0] == f && path[|path| - 1] == g
  }

  lemma LinkedStep(fs: seq<Planned>, f: Planned, g: Planned, h: Planned)
    requires Linked(fs, f, g) && h in fs && g.finding.span.Overlaps(h.finding.span)
    ensures Linked(fs, f, h)
  {
    var path: seq<Planned> :| Path(fs, path) && path[0] == f && path[|path| - 1] == g;
    var longer := path + [h];
    assert Path(fs, longer);
    assert longer[0] == f && longer[|longer| - 1] == h;
  }

  lemma LinkedSelf(fs: seq<Planned>, f: Planned)
    requires f in fs
    ensures Linked(fs, f, f)
  {
    assert Path(fs, [f]) && [f][0] == f && [f][|[f]| - 1] == f;
  }

  /**
   * Two findings end up in the same merged span exactly when a chain of strict overlaps joins them,
   * so there is one merged span per connected component of the overlap graph.
   */
  lemma MergedIffLinked(fs: seq<Planned>, out: seq<Planned>, f: Planned, g: Planned, o: Planned)
    requires Resolved(fs, out) && AllNonempty(fs) && f in fs && g in fs && o in out
    requires f.finding.span.Within(o.finding.span)
    ensures g.finding.span.Within(o.finding.span) <==> Linked(fs, f, g)
  {
    if g.finding.span.Within(o.finding.span) {
      LinkedSelf(fs, f);
      if f.finding.span.start <= g.finding.span.start {
        WalkRight(fs, o.finding.span, f, f, g);
      } else {
        LinkedSelf(fs, g);
        WalkRight(fs, o.finding.span, g, g, f);
        LinkedSymmetric(fs, g, f);
      }
    }
    if Linked(fs, f, g) {
      var path: seq<Planned> :| Path(fs, path) && path[0] == f && path[|path| - 1] == g;
      PathStaysInside(fs, out, o, path, |path| - 1);
    }
  }

  lemma LinkedSymmetric(fs: seq<Planned>, f: Planned, g: Planned)
    requires Linked(fs, f, g)
    ensures Linked(fs, g, f)
  {
    var path: seq<Planned> :| Path(fs, path) && path[0] == f && path[|path| - 1] == g;
    var back: seq<Planned> := seq(|path|, i requires 0 <= i < |path| => path[|path| - 1 - i]);
    forall i | 0 <= i < |back| - 1
      ensures back[i].finding.span.Overlaps(back[i + 1].finding.span)
    {
      var j := |path| - 2 - i;
      assert path[j].finding.span.Overlaps(path[j + 1].finding.span);
    }
    assert Path(fs, back);
    assert back[0] == g && back[|back| - 1] == f;
  }

  lemma {:induction false} PathStaysInside(fs: seq<Planned>, out: seq<Planned>, o: Planned, path: seq<Planned>, i: nat)
    requires Resolved(fs, out) && AllNonempty(fs) && o in out && Path(fs, path) && i < |path|
    requires path[0].finding.span.Within(o.finding.span)
    ensures path[i].finding.span.Within(o.finding.span)
  {
    if i > 0 {
      PathStaysInside(fs, out, o, path, i - 1);
      var s, t := path[i - 1].finding.span, path[i].finding.span;
      assert s.Overlaps(t);
      var shared := if s.start < t.start then t.start else s.start;
      InsideWhenTouching(fs, out, path[i], o, shared);
    }
  }

  /** From a linked finding `at`, cross the cuts of `o` one after the other until `g` is met. */
  lemma {:induction false} WalkRight(fs: seq<Planned>, o: Span, f: Planned, at: Planned, g: Planned)
    requires GapFree(fs, o) && AllNonempty(fs) && Linked(fs, f, at) && at in fs && g in fs
    requires o.start < at.finding.span.end && g.finding.span.Within(o) && at.finding.span.start <= g.finding.span.start
    ensures Linked(fs, f, g)
    decreases g.finding.span.start - at.finding.span.end
  {
    var s, t := at.finding.span, g.finding.span;
    if t.start < s.end {
      LinkedStep(fs, f, at, g);
    } else {
      assert Crossed(fs, s.end);
      var c :| c in fs && c.finding.span.start < s.end < c.finding.span.end;
      LinkedStep(fs, f, at, c);
      WalkRight(fs, o, f, c, g);
    }
  }

  /** Two findings that touch without overlapping stay two, whatever their classes and actions. */
  lemma TouchingStayApart(f: Planned, g: Planned, out: seq<Planned>)
    requires f.finding.span.Nonempty() && g.finding.span.Nonempty() && f.finding.span.end == g.finding.span.start
    ensures Resolved([f, g], out) <==> out == [f, g]
  {
    SelfResolved([f, g]);
    if Resolved([f, g], out) {
      Idempotent([f, g], [f, g], out);
    }
  }
}
