/** The counts reported for a request (src/engine.rs, `summarize`). */
module Summary {
  import opened Domain
  import Sorting

  const U32_MAX: nat := 0xFFFF_FFFF

  /** What one target came to: its text and its resolved findings. */
  datatype TargetPlan = TargetPlan(targetIndex: nat, fieldClass: FieldClass, original: string, findings: seq<Planned>)

  /** Findings of the same kind are counted together. */
  datatype Kind = Kind(detector: DetectorId, dataClass: DataClass, confidence: Confidence, action: Action,
                       sourceField: FieldClass)

  datatype FindingSummary = FindingSummary(kind: Kind, count: nat)

  datatype ProtectionSummary = ProtectionSummary(scannedFields: nat, findings: seq<FindingSummary>)

  function KindOf(fieldClass: FieldClass, f: Planned): Kind {
    Kind(f.finding.detector, f.finding.dataClass, f.finding.confidence, f.action, fieldClass)
  }

  /** The kinds of the first `n` findings of a plan. */
  function PlanKinds(plan: TargetPlan, n: nat): seq<Kind>
    requires n <= |plan.findings|
  {
    if n == 0 then [] else PlanKinds(plan, n - 1) + [KindOf(plan.fieldClass, plan.findings[n - 1])]
  }

  function AllKinds(plans: seq<TargetPlan>, n: nat): seq<Kind>
    requires n <= |plans|
  {
    if n == 0 then [] else AllKinds(plans, n - 1) + PlanKinds(plans[n - 1], |plans[n - 1].findings|)
  }

  function Saturated(n: nat): nat { if n <= U32_MAX then n else U32_MAX }

  predicate Listed(summaries: seq<FindingSummary>, k: Kind) {
    exists s :: s in summaries && s.kind == k
  }

  /** One summary per kind that occurs, with the number of its occurrences. */
  ghost predicate Tallied(kinds: seq<Kind>, summaries: seq<FindingSummary>) {
    && (forall i, j :: 0 <= i < j < |summaries| ==> summaries[i].kind != summaries[j].kind)
    && (forall s :: s in summaries ==> s.kind in kinds && s.count == Saturated(multiset(kinds)[s.kind]))
    && (forall k {:trigger Listed(summaries, k)} :: k in kinds ==> Listed(summaries, k))
  }

  predicate KindOrder(a: FindingSummary, b: FindingSummary) {
    || a.kind.dataClass.Rank() < b.kind.dataClass.Rank()
    || (a.kind.dataClass == b.kind.dataClass && a.kind.detector.Rank() < b.kind.detector.Rank())
    || (a.kind.dataClass == b.kind.dataClass && a.kind.detector == b.kind.detector
        && a.kind.sourceField.Rank() <= b.kind.sourceField.Rank())
  }

  lemma RanksIdentify()
    ensures forall c: DataClass, d: DataClass {:trigger c.Rank(), d.Rank()} :: c.Rank() == d.Rank() ==> c == d
    ensures forall c: DetectorId, d: DetectorId {:trigger c.Rank(), d.Rank()} :: c.Rank() == d.Rank() ==> c == d
  {
  }

  lemma KindOrderTotal()
    ensures Sorting.TotalPreorder(KindOrder)
  {
    RanksIdentify();
    hide DataClass.Rank, DetectorId.Rank, FieldClass.Rank;
  }

  /** A sorted list goes up by class, within a class by detector, and within that by the field. */
  lemma SortedMeans(s: seq<FindingSummary>, i: nat, j: nat)
    requires Sorting.Sorted(KindOrder, s) && i < j < |s|
    ensures var a, b := s[i].kind, s[j].kind;
            && a.dataClass.Rank() <= b.dataClass.Rank()
            && (a.dataClass == b.dataClass ==> a.detector.Rank() <= b.detector.Rank())
            && (a.dataClass == b.dataClass && a.detector == b.detector ==> a.sourceField.Rank() <= b.sourceField.Rank())
  {
    RanksIdentify();
    hide DataClass.Rank, DetectorId.Rank, FieldClass.Rank;
    assert KindOrder(s[i], s[j]);
  }

  /** Counts one more finding: in the summary of its kind if there is one, in a new one otherwise. */
  method Record(summaries: seq<FindingSummary>, kind: Kind, ghost kinds: seq<Kind>) returns (after: seq<FindingSummary>)
    requires Tallied(kinds, summaries)
    ensures Tallied(kinds + [kind], after)
  {
    for i := 0 to |summaries|
      invariant forall k :: 0 <= k < i ==> summaries[k].kind != kind
    {
      if summaries[i].kind == kind {
        var s := summaries[i];
        var count := if s.count < U32_MAX then s.count + 1 else s.count;
        after := summaries[i := FindingSummary(kind, count)];
        CountedAgain(kinds, summaries, i, after);
        return;
      }
    }
    after := summaries + [FindingSummary(kind, 1)];
    CountedFirst(kinds, summaries, kind, after);
  }

  lemma CountedAgain(kinds: seq<Kind>, summaries: seq<FindingSummary>, i: nat, after: seq<FindingSummary>)
    requires Tallied(kinds, summaries) && i < |summaries|
    requires after == summaries[i := FindingSummary(summaries[i].kind,
                                     if summaries[i].count < U32_MAX
                                     then summaries[i].count + 1 else summaries[i].count)]
    ensures Tallied(kinds + [summaries[i].kind], after)
  {
    var kind := summaries[i].kind;
    assert summaries[i] in summaries;
    forall s | s in after
      ensures s.kind in kinds + [kind] && s.count == Saturated(multiset(kinds + [kind])[s.kind])
    {
      var j :| 0 <= j < |after| && after[j] == s;
      assert j != i ==> s in summaries && s.kind != kind;
    }
    forall k | k in kinds + [kind]
      ensures Listed(after, k)
    {
      assert Listed(summaries, k);
      var s :| s in summaries && s.kind == k;
      var j :| 0 <= j < |summaries| && summaries[j] == s;
      assert after[j] in after && after[j].kind == k;
    }
  }

  lemma CountedFirst(kinds: seq<Kind>, summaries: seq<FindingSummary>, kind: Kind, after: seq<FindingSummary>)
    requires Tallied(kinds, summaries) && (forall k :: 0 <= k < |summaries| ==> summaries[k].kind != kind)
    requires after == summaries + [FindingSummary(kind, 1)]
    ensures Tallied(kinds + [kind], after)
  {
    assert kind !in kinds by {
      assert !Listed(summaries, kind);
    }
    forall s | s in after
      ensures s.kind in kinds + [kind] && s.count == Saturated(multiset(kinds + [kind])[s.kind])
    {
      if s in summaries {
        assert s.kind != kind;
      }
    }
    forall k | k in kinds + [kind]
      ensures Listed(after, k)
    {
      if k in kinds {
        assert Listed(summaries, k);
        var s :| s in summaries && s.kind == k;
        assert s in after;
      } else {
        assert after[|summaries|] in after;
      }
    }
  }

  method Summarize(plans: seq<TargetPlan>) returns (summary: ProtectionSummary)
    ensures Tallied(AllKinds(plans, |plans|), summary.findings)
    ensures Sorting.Sorted(KindOrder, summary.findings)
    ensures summary.scannedFields == Saturated(|plans|)
  {
    hide Tallied, KindOrder, Sorting.TotalPreorder, Sorting.Sort;
    var summaries: seq<FindingSummary> := [];
    NothingTallied();
    for i := 0 to |plans|
      invariant Tallied(AllKinds(plans, i), summaries)
    {
      var plan := plans[i];
      assert AllKinds(plans, i) + [] == AllKinds(plans, i);
      for k := 0 to |plan.findings|
        invariant Tallied(AllKinds(plans, i) + PlanKinds(plan, k), summaries)
      {
        var kind := KindOf(plan.fieldClass, plan.findings[k]);
        assert AllKinds(plans, i) + PlanKinds(plan, k) + [kind] == AllKinds(plans, i) + PlanKinds(plan, k + 1);
        summaries := Record(summaries, kind, AllKinds(plans, i) + PlanKinds(plan, k));
      }
    }
    KindOrderTotal();
    Sorting.SortSorts(KindOrder, summaries);
    Reordered(AllKinds(plans, |plans|), summaries, Sorting.Sort(KindOrder, summaries));
    summary := ProtectionSummary(Saturated(|plans|), Sorting.Sort(KindOrder, summaries));
  }

  lemma NothingTallied()
    ensures Tallied([], [])
  {
  }

  lemma Reordered(kinds: seq<Kind>, a: seq<FindingSummary>, b: seq<FindingSummary>)
    requires Tallied(kinds, a) && multiset(a) == multiset(b)
    ensures Tallied(kinds, b)
  {
    Sorting.SameMembers(a, b);
    forall i, j | 0 <= i < j < |b|
      ensures b[i].kind != b[j].kind
    {
      SameKindSame(a, b[i], b[j]);
      Twice(b, i, j);
      Once(a, b[i]);
    }
    forall k | k in kinds
      ensures Listed(b, k)
    {
      assert Listed(a, k);
    }
  }

  lemma SameKindSame(a: seq<FindingSummary>, x: FindingSummary, y: FindingSummary)
    requires forall i, j :: 0 <= i < j < |a| ==> a[i].kind != a[j].kind
    requires x in a && y in a
    ensures x.kind == y.kind ==> x == y
  {
    var i :| 0 <= i < |a| && a[i] == x;
    var j :| 0 <= j < |a| && a[j] == y;
    assert x.kind == y.kind ==> i == j;
  }

  lemma Twice<T>(s: seq<T>, i: nat, j: nat)
    requires i < j < |s|
    ensures s[i] == s[j] ==> multiset(s)[s[i]] >= 2
  {
    assert s == s[..j] + [s[j]] + s[j + 1..];
    assert s[..j][i] == s[i];
    assert s[..j][i] in s[..j];
    assert multiset(s)[s[i]] == multiset(s[..j])[s[i]] + multiset([s[j]])[s[i]] + multiset(s[j + 1..])[s[i]];
  }

  lemma {:induction false} Once(s: seq<FindingSummary>, x: FindingSummary)
    requires forall i, j :: 0 <= i < j < |s| ==> s[i].kind != s[j].kind
    ensures multiset(s)[x] <= 1
  {
    if s != [] {
      Once(s[1..], x);
      assert s == [s[0]] + s[1..];
      if s[0] == x {
        assert x !in s[1..];
      }
    }
  }

  // ----- nothing is lost or invented by counting

  predicate Occurs(plans: seq<TargetPlan>, a: Action) {
    exists i, f :: 0 <= i < |plans| && f in plans[i].findings && f.action == a
  }

  predicate Reported(s: ProtectionSummary, a: Action) {
    exists x :: x in s.findings && x.kind.action == a
  }

  lemma {:induction false} PlanKindMember(plan: TargetPlan, n: nat, k: Kind)
    requires n <= |plan.findings|
    ensures k in PlanKinds(plan, n) <==> exists m :: 0 <= m < n && KindOf(plan.fieldClass, plan.findings[m]) == k
  {
    if n > 0 {
      PlanKindMember(plan, n - 1, k);
    }
  }

  predicate KindAt(plans: seq<TargetPlan>, i: nat, m: nat, k: Kind) {
    i < |plans| && m < |plans[i].findings| && KindOf(plans[i].fieldClass, plans[i].findings[m]) == k
  }

  lemma {:induction false} KindMember(plans: seq<TargetPlan>, n: nat, k: Kind)
    requires n <= |plans|
    ensures k in AllKinds(plans, n) <==> exists i: nat, m: nat :: i < n && KindAt(plans, i, m, k)
  {
    if n > 0 {
      KindMember(plans, n - 1, k);
      var plan := plans[n - 1];
      PlanKindMember(plan, |plan.findings|, k);
      if m: nat :| m < |plan.findings| && KindOf(plan.fieldClass, plan.findings[m]) == k {
        assert KindAt(plans, n - 1, m, k);
      }
    }
  }

  predicate HasAction(kinds: seq<Kind>, a: Action) {
    exists k :: k in kinds && k.action == a
  }

  lemma OccurrencesListed(plans: seq<TargetPlan>, a: Action)
    ensures Occurs(plans, a) <==> HasAction(AllKinds(plans, |plans|), a)
  {
    if Occurs(plans, a) {
      var i, f :| 0 <= i < |plans| && f in plans[i].findings && f.action == a;
      var m :| 0 <= m < |plans[i].findings| && plans[i].findings[m] == f;
      KindMember(plans, |plans|, KindOf(plans[i].fieldClass, f));
      assert KindAt(plans, i, m, KindOf(plans[i].fieldClass, f));
    }
    if HasAction(AllKinds(plans, |plans|), a) {
      var k :| k in AllKinds(plans, |plans|) && k.action == a;
      KindMember(plans, |plans|, k);
      var i: nat, m: nat :| i < |plans| && KindAt(plans, i, m, k);
      assert plans[i].findings[m] in plans[i].findings;
    }
  }

  /** An action is in the summary exactly if some resolved finding has it. */
  lemma ActionsReported(plans: seq<TargetPlan>, s: ProtectionSummary, a: Action)
    requires Tallied(AllKinds(plans, |plans|), s.findings)
    ensures Reported(s, a) <==> Occurs(plans, a)
  {
    hide AllKinds, Occurs;
    OccurrencesListed(plans, a);
    var kinds := AllKinds(plans, |plans|);
    if HasAction(kinds, a) {
      var k :| k in kinds && k.action == a;
      assert Listed(s.findings, k);
    }
  }
}
