/**
 * Plans and the request value they are written back to (src/engine.rs, `apply_rewrites`): why every
 * write succeeds, and why it leaves every other target as it was. A plan that is not blocked has findings
 * that can be replaced in place, and any only if its target is a string of the request that may be rewritten.
 */
module Rewrites {
  import opened Domain
  import opened InPlace
  import opened JsonTree
  import opened Overlaps
  import opened Payload
  import opened PayloadShape
  import opened Planning
  import opened Request
  import opened Rewriting
  import opened Summary
  import opened Views
  import Classification
  import ExactlyOnce
  import PolicyRules
  import Tokens

  /** The plan of one target: its text, and its findings decided and resolved. */
  ghost predicate PlanOk(env: Env, root: Json, t: Target, index: nat, plan: TargetPlan, raw: seq<Planned>)
    requires PolicyRules.Covers(env.policy.categories)
  {
    && plan.targetIndex == index && plan.fieldClass == t.fieldClass && ReadTarget(root, t) == Ok(plan.original)
    && Assessed(env, plan.original, t.mode, raw) && Resolved(raw, plan.findings)
  }

  ghost predicate PlansOk(env: Env, root: Json, plans: seq<TargetPlan>, raws: seq<seq<Planned>>)
    requires PolicyRules.Covers(env.policy.categories)
  {
    && |plans| == |raws| == |AllTargets(root)|
    && forall i {:trigger plans[i]} {:trigger raws[i]} ::
         0 <= i < |plans| ==> PlanOk(env, root, AllTargets(root)[i], i, plans[i], raws[i])
  }

  /** Findings that are tokenized have classes that may be restored. */
  ghost predicate SafelyTokenized(fs: seq<Planned>) {
    forall f :: f in fs && f.action == Tokenize ==> !f.finding.dataClass.HardBlock()
  }

  /** The text of a plan cannot be written back. */
  predicate Unwritable(j: Json, targets: seq<Target>, plan: TargetPlan) {
    Actionable(plan.findings) != [] && Replaced(j, targets, plan.targetIndex, "").Err?
  }

  /** A token was issued for the text of a finding of the plan that is to be tokenized. */
  ghost predicate FromPlan(plan: TargetPlan, q: Issued) {
    && Tokens.IsToken(q.token)
    && exists o :: o in plan.findings && o.action == Tokenize && o.finding.dataClass == q.dataClass
                   && Slice(plan.original, o.finding.span) == Some(q.value)
  }

  ghost predicate FromPlans(plans: seq<TargetPlan>, q: Issued) {
    exists i :: 0 <= i < |plans| && FromPlan(plans[i], q)
  }

  ghost predicate AllFrom(plans: seq<TargetPlan>, log: seq<Issued>) {
    forall q {:trigger FromPlans(plans, q)} :: q in log ==> FromPlans(plans, q)
  }

  ghost predicate GrownFrom(plan: TargetPlan, log: seq<Issued>, longer: seq<Issued>) {
    log <= longer && forall q {:trigger FromPlan(plan, q)} :: q in longer ==> q in log || FromPlan(plan, q)
  }

  /** The record of a token issued for the text of a finding that is to be tokenized. */
  predicate IsIssueOf(q: Issued, o: Planned, value: string) {
    q.dataClass == o.finding.dataClass && q.value == value && o.action == Tokenize && Tokens.IsToken(q.token)
  }

  lemma GrownStep(plan: TargetPlan, o: Planned, value: string, log: seq<Issued>, before: seq<Issued>,
                  after: seq<Issued>)
    requires GrownFrom(plan, log, before) && o in plan.findings && Slice(plan.original, o.finding.span) == Some(value)
    requires before <= after && forall q :: q in after ==> q in before || IsIssueOf(q, o, value)
    ensures GrownFrom(plan, log, after)
  {
    hide Tokens.IsToken;
    forall q | q in after
      ensures q in log || FromPlan(plan, q)
    {
      assert q in before ==> q in log || FromPlan(plan, q);
    }
  }

  lemma AllFromGrows(plans: seq<TargetPlan>, i: nat, log: seq<Issued>, longer: seq<Issued>)
    requires i < |plans| && AllFrom(plans, log) && GrownFrom(plans[i], log, longer)
    ensures AllFrom(plans, longer)
  {
    hide FromPlan;
    forall q | q in longer
      ensures FromPlans(plans, q)
    {
      if q in log {
        assert FromPlans(plans, q);
      } else {
        assert FromPlan(plans[i], q);
      }
    }
  }

  ghost predicate EditsOk(plan: TargetPlan, edits: seq<Edit>, log: seq<Issued>) {
    Edits(plan.original, Actionable(plan.findings), edits, log) && Fits(edits, 0, |plan.original|)
  }

  /** The request value after a plan's text has been written back, if it changed at all. */
  function Written(j: Json, targets: seq<Target>, plan: TargetPlan, text: string): Json {
    if text == plan.original then j
    else
      match Replaced(j, targets, plan.targetIndex, text)
      case Ok(after) => after
      case Err(_) => j
  }

  lemma UneditedIsOriginal(text: string, fs: seq<Planned>, edits: seq<Edit>, log: seq<Issued>)
    ensures Edits(text, Actionable(fs), edits, log) && Fits(edits, 0, |text|) && Actionable(fs) == [] ==>
              Splice(text, edits, 0) == text
  {
    assert text[0..] == text;
  }

  /** Every target reads as its plan's text with the plan's edits spliced in. */
  ghost predicate RewritesOk(root: Json, now: Json, plans: seq<TargetPlan>, edits: seq<seq<Edit>>, log: seq<Issued>)
  {
    && |edits| == |plans| == |AllTargets(root)|
    && forall i {:trigger plans[i]} {:trigger edits[i]} :: 0 <= i < |plans| ==>
         EditsOk(plans[i], edits[i], log)
           && ReadTarget(now, AllTargets(root)[i]) == Ok(Splice(plans[i].original, edits[i], 0))
  }

  /** The first `n` plans are written back, the others still read as before. */
  ghost predicate Progress(root: Json, now: Json, plans: seq<TargetPlan>, edits: seq<seq<Edit>>, log: seq<Issued>,
                           n: nat)
  {
    && n == |edits| <= |plans| == |AllTargets(root)| && SameShape(root, now)
    && (forall i {:trigger plans[i]} {:trigger edits[i]} :: 0 <= i < n ==>
          EditsOk(plans[i], edits[i], log)
            && ReadTarget(now, AllTargets(root)[i]) == Ok(Splice(plans[i].original, edits[i], 0)))
    && (forall i {:trigger plans[i]} :: n <= i < |plans| ==>
          plans[i].targetIndex == i && ReadTarget(now, AllTargets(root)[i]) == Ok(plans[i].original))
  }

  // ----- what a plan without blocked findings is like

  lemma PlanAt(env: Env, root: Json, plans: seq<TargetPlan>, raws: seq<seq<Planned>>, i: nat)
    requires PolicyRules.Covers(env.policy.categories) && Accepted(root) && PlansOk(env, root, plans, raws)
    requires i < |plans|
    ensures i < |AllTargets(root)| && i < |raws| && PlanOk(env, root, AllTargets(root)[i], i, plans[i], raws[i])
    ensures !Occurs(plans, Block) ==> !Has(plans[i].findings, Block)
  {
    hide PlanOk, Accepted, AllTargets, PolicyRules.Covers;
  }

  lemma HasOccurs(plans: seq<TargetPlan>, i: nat, a: Action)
    requires i < |plans|
    ensures Has(plans[i].findings, a) ==> Occurs(plans, a)
  {
    if f :| f in plans[i].findings && f.action == a {
      assert 0 <= i < |plans| && f in plans[i].findings;
    }
  }

  /** A literal target is structural, so it can only block. */
  lemma LiteralsBlockOnly(root: Json, t: Target)
    requires Accepted(root) && t in AllTargets(root) && t.structural.Some?
    ensures t.mode == BlockOnly
  {
    hide Accepted, ExplicitTargets, Untracked, Classify;
    var e := ExplicitTargets(root);
    Classification.ExplicitMarked(root, t);
    Classification.MarksAtRoot(root, Classify(root, t.path), t);
    if t in Untracked(root, [], e) {
      UntrackedBelow(root, [], e, t);
    }
  }

  /** The findings of a plan that is not blocked can be rewritten, and only where the target can be. */
  lemma PlanFacts(env: Env, root: Json, t: Target, index: nat, plan: TargetPlan, raw: seq<Planned>)
    requires PolicyRules.Covers(env.policy.categories) && PlanOk(env, root, t, index, plan, raw)
    ensures Rewritable(plan.original, plan.findings) && AllNonempty(plan.findings) && SafelyTokenized(plan.findings)
    ensures t.mode == BlockOnly && !Has(plan.findings, Block) ==> Actionable(plan.findings) == []
  {
    hide PolicyRules.Covers, Assessed, Resolved, OnBoundaries, ActionFor;
    ResolvedAligned(env, plan.original, t.mode, raw, plan.findings);
    forall o | o in plan.findings && o.action == Tokenize
      ensures !o.finding.dataClass.HardBlock()
    {
      TokenizeResolved(env, plan.original, t.mode, raw, plan.findings, o);
    }
    if t.mode == BlockOnly && !Has(plan.findings, Block) {
      forall o | o in plan.findings
        ensures o.action == Allow
      {
        BlockOnlyResolved(env, plan.original, raw, plan.findings, o);
      }
      AllAllowed(plan.findings);
    }
  }

  lemma AllAllowed(fs: seq<Planned>)
    requires forall o :: o in fs ==> o.action == Allow
    ensures Actionable(fs) == []
  {
    if Actionable(fs) != [] {
      ActionableMembers(fs, Actionable(fs)[0]);
    }
  }

  /** A text that was changed can be written back. */
  lemma WritableAt(env: Env, root: Json, now: Json, plans: seq<TargetPlan>, i: nat, raw: seq<Planned>)
    requires PolicyRules.Covers(env.policy.categories) && Accepted(root) && SameShape(root, now)
    requires i < |plans| == |AllTargets(root)| && PlanOk(env, root, AllTargets(root)[i], i, plans[i], raw)
    requires !Has(plans[i].findings, Block)
    ensures !Unwritable(now, AllTargets(root), plans[i])
    ensures Actionable(plans[i].findings) != [] ==>
              AllTargets(root)[i].structural.None? && StringAt(now, AllTargets(root)[i].path)
  {
    hide PolicyRules.Covers, Accepted, AllTargets, SameShape, Has, Rewritable;
    var t := AllTargets(root)[i];
    PlanFacts(env, root, t, i, plans[i], raw);
    TargetsReadable(root, now, t);
    if t.structural.Some? {
      LiteralsBlockOnly(root, t);
    }
  }

  // ----- writing one plan back

  /** Replacing the string of one target changes what that target reads, and no other. */
  lemma OthersKept(root: Json, now: Json, i: nat, text: string, k: nat)
    requires Accepted(root) && SameShape(root, now) && i < |AllTargets(root)| && k < |AllTargets(root)|
    requires AllTargets(root)[i].structural.None?
    ensures StringAt(now, AllTargets(root)[i].path)
    ensures var after := SetAt(now, AllTargets(root)[i].path, Str(text));
            && SameShape(root, after)
            && ReadTarget(after, AllTargets(root)[k])
               == if k == i then Ok(text) else ReadTarget(now, AllTargets(root)[k])
  {
    hide Accepted, AllTargets, SameShape;
    var ts := AllTargets(root);
    var path := ts[i].path;
    TargetsReadable(root, now, ts[i]);
    TargetsReadable(root, now, ts[k]);
    SetKeepsShape(now, path, text);
    ShapeTransitive(root, now, SetAt(now, path, Str(text)));
    SetThenLocate(now, path, text, ts[k].path);
    if k != i && ts[k].structural.None? {
      ExactlyOnce.NamedOnce(root);
      ExactlyOnce.NamedApart(ts, if i < k then i else k, if i < k then k else i);
    }
  }

  lemma ProgressStarts(env: Env, root: Json, plans: seq<TargetPlan>, raws: seq<seq<Planned>>, log: seq<Issued>)
    requires PolicyRules.Covers(env.policy.categories) && Accepted(root) && PlansOk(env, root, plans, raws)
    ensures Progress(root, root, plans, [], log, 0)
  {
    hide PolicyRules.Covers, Accepted, AllTargets, SameShape, Assessed, Resolved;
    ShapeReflexive(root);
    forall i | 0 <= i < |plans|
      ensures plans[i].targetIndex == i && ReadTarget(root, AllTargets(root)[i]) == Ok(plans[i].original)
    {
      PlanAt(env, root, plans, raws, i);
    }
  }

  /** One more plan written back. */
  lemma ProgressStep(root: Json, now: Json, plans: seq<TargetPlan>, edits: seq<seq<Edit>>, log: seq<Issued>, n: nat,
                     more: seq<Edit>, longer: seq<Issued>, after: Json)
    requires Accepted(root) && Progress(root, now, plans, edits, log, n) && n < |plans| && log <= longer
    requires EditsOk(plans[n], more, longer)
    requires after == Written(now, AllTargets(root), plans[n], Splice(plans[n].original, more, 0))
    requires Actionable(plans[n].findings) != [] ==> AllTargets(root)[n].structural.None?
    ensures Progress(root, after, plans, edits + [more], longer, n + 1)
  {
    hide Accepted, AllTargets, SameShape, Edits, Fits, Splice, SetAt, Actionable;
    var all, text := edits + [more], Splice(plans[n].original, more, 0);
    UneditedText(plans[n], more, longer);
    WrittenAt(root, now, plans[n], n, text, after);
    assert longer == log + longer[|log|..];
    forall i | 0 <= i < n + 1
      ensures EditsOk(plans[i], all[i], longer)
      ensures ReadTarget(after, AllTargets(root)[i]) == Ok(Splice(plans[i].original, all[i], 0))
    {
      if i < n {
        assert all[i] == edits[i] && EditsOk(plans[i], edits[i], log);
        EditsOkLonger(plans[i], edits[i], log, longer[|log|..]);
      }
    }
  }

  lemma UneditedText(plan: TargetPlan, edits: seq<Edit>, log: seq<Issued>)
    requires EditsOk(plan, edits, log)
    ensures Fits(edits, 0, |plan.original|)
    ensures Splice(plan.original, edits, 0) != plan.original ==> Actionable(plan.findings) != []
  {
    UneditedIsOriginal(plan.original, plan.findings, edits, log);
  }

  lemma EditsOkLonger(plan: TargetPlan, edits: seq<Edit>, log: seq<Issued>, more: seq<Issued>)
    requires EditsOk(plan, edits, log)
    ensures EditsOk(plan, edits, log + more)
  {
    EditsLonger(plan.original, Actionable(plan.findings), edits, log, more);
  }

  lemma WrittenAt(root: Json, now: Json, plan: TargetPlan, n: nat, text: string, after: Json)
    requires Accepted(root) && SameShape(root, now) && n < |AllTargets(root)| && plan.targetIndex == n
    requires ReadTarget(now, AllTargets(root)[n]) == Ok(plan.original)
    requires text != plan.original ==> AllTargets(root)[n].structural.None?
    requires after == Written(now, AllTargets(root), plan, text)
    ensures SameShape(root, after)
    ensures forall k :: 0 <= k < |AllTargets(root)| ==>
              ReadTarget(after, AllTargets(root)[k])
              == if k == n then Ok(text) else ReadTarget(now, AllTargets(root)[k])
  {
    hide Accepted, AllTargets, SameShape;
    if text != plan.original {
      OthersKept(root, now, n, text, n);
      forall k | 0 <= k < |AllTargets(root)|
        ensures ReadTarget(after, AllTargets(root)[k])
             == if k == n then Ok(text) else ReadTarget(now, AllTargets(root)[k])
      {
        OthersKept(root, now, n, text, k);
      }
    }
  }

  lemma ProgressWhole(root: Json, now: Json, plans: seq<TargetPlan>, edits: seq<seq<Edit>>, log: seq<Issued>)
    requires Accepted(root) && Progress(root, now, plans, edits, log, |plans|)
    ensures RewritesOk(root, now, plans, edits, log)
  {
    hide Accepted, AllTargets, SameShape, Edits, Fits, Splice, Actionable;
  }
}
