/**
 * What holds of every request the engine forwards or blocks, for any detector output, any outcomes of
 * the random source and any ledger contents (src/engine.rs): when it blocks, that nothing protected is
 * sent, that nothing else changes, what may be stored, and that restoration gives the text back, whatever
 * other requests have done in between.
 */
module Guarantees {
  import opened Domain
  import opened JsonTree
  import opened LedgerHistory
  import opened Outcomes
  import opened Overlaps
  import opened Payload
  import opened PayloadShape
  import opened Planning
  import opened Request
  import opened Rewrites
  import opened Retention
  import opened Rewriting
  import opened Summary
  import opened Transactions
  import opened Views
  import Classification
  import Display
  import ExactlyOnce
  import Ledger
  import LedgerRuns
  import PolicyRules
  import Tokens
  import Utf8
  import WorkingSet

  function TargetOf(ev: Evidence, i: nat): Target
    requires i < |AllTargets(ev.root)|
  {
    AllTargets(ev.root)[i]
  }

  /** What holds of one target of an examined request. */
  lemma TargetFacts(ev: Evidence, i: nat)
    requires Examined(ev) && i < |ev.plans|
    ensures i < |AllTargets(ev.root)| && i < |ev.raws|
    ensures PlanOk(ev.env, ev.root, TargetOf(ev, i), i, ev.plans[i], ev.raws[i])
  {
    hide PolicyRules.Covers, Accepted, AllTargets, PlanOk, ValidStrings;
    PlanAt(ev.env, ev.root, ev.plans, ev.raws, i);
  }

  lemma EditFacts(ev: Evidence, i: nat)
    requires Justified(ev) && i < |ev.plans|
    ensures i < |AllTargets(ev.root)| && i < |ev.edits| && i < |ev.raws|
    ensures EditsOk(ev.plans[i], ev.edits[i], ev.journal.log)
    ensures ReadTarget(ev.after, TargetOf(ev, i)) == Ok(Splice(ev.plans[i].original, ev.edits[i], 0))
    ensures !Has(ev.raws[i], Block)
  {
    hide PolicyRules.Covers, Accepted, AllTargets, PlansOk, ValidStrings, SameShape, AllFrom, WorkingSet.Chain;
    hide Settled, Has, Edits, Splice, Fits, ReadTarget;
    SameCount(ev);
    var plan := ev.plans[i];
    assert !CallsForBlock(ev.raws);
  }

  // ----- blocking

  /** A match in some decoded view of some target calls for blocking, by the policy and the kind of target alone. */
  ghost predicate BlockingFinding(ev: Evidence, i: nat, f: Finding)
    requires Examined(ev)
  {
    && i < |ev.plans| && i < |AllTargets(ev.root)| && Detected(ev.env, ev.plans[i].original, f)
    && CallsToBlock(ev.env, ev.plans[i].original, TargetOf(ev, i).mode, f)
  }

  /** How a detected match was decided. */
  lemma Decision(ev: Evidence, i: nat, f: Finding) returns (p: Planned)
    requires Examined(ev) && i < |ev.plans| && i < |AllTargets(ev.root)| && i < |ev.raws|
    requires Detected(ev.env, ev.plans[i].original, f)
    ensures p in ev.raws[i] && p.finding.span == f.span && OnBoundaries(ev.plans[i].original, f.span)
    ensures var text, mode := ev.plans[i].original, TargetOf(ev, i).mode;
            && (p.action == Block <==> CallsToBlock(ev.env, text, mode, f))
            && (p.action == Allow <==> LetThrough(ev.env, text, f))
            && (mode == Rewrite && !LetThrough(ev.env, text, f) ==> p.action == RuleAction(ev.env, f))
  {
    hide Accepted, AllTargets, PolicyRules.Covers, Assessed, Detected, ActionFor, Resolved, ReadTarget, PlansOk;
    hide LetThrough, CallsToBlock, OnBoundaries, TargetOf;
    TargetFacts(ev, i);
    p := DetectedDecided(ev.env, ev.plans[i].original, TargetOf(ev, i).mode, ev.raws[i], f);
    DecidedDetected(ev.env, ev.plans[i].original, TargetOf(ev, i).mode, ev.raws[i], p);
    SameBounds(ev.plans[i].original, p.finding.span, f.span);
    ActionIs(ev.env, ev.plans[i].original, TargetOf(ev, i).mode, f);
  }

  lemma SameBounds(text: string, s: Span, t: Span)
    requires s == t && OnBoundaries(text, s)
    ensures OnBoundaries(text, t)
  {
  }

  /** Everything decided is a match in some decoded view, and its action is what policy asks for. */
  lemma DecisionOrigin(ev: Evidence, i: nat, p: Planned)
    requires Examined(ev) && i < |ev.plans| && i < |AllTargets(ev.root)| && i < |ev.raws| && p in ev.raws[i]
    ensures Detected(ev.env, ev.plans[i].original, p.finding)
    ensures var text, mode := ev.plans[i].original, TargetOf(ev, i).mode;
            && (p.action == Block <==> CallsToBlock(ev.env, text, mode, p.finding))
            && (p.action == Allow <==> LetThrough(ev.env, text, p.finding))
            && (mode == Rewrite && !LetThrough(ev.env, text, p.finding) ==> p.action == RuleAction(ev.env, p.finding))
  {
    hide Accepted, AllTargets, PolicyRules.Covers, Assessed, Detected, ActionFor, Resolved, ReadTarget, PlansOk;
    hide LetThrough, CallsToBlock, OnBoundaries, TargetOf;
    TargetFacts(ev, i);
    DecidedDetected(ev.env, ev.plans[i].original, TargetOf(ev, i).mode, ev.raws[i], p);
    ActionIs(ev.env, ev.plans[i].original, TargetOf(ev, i).mode, p.finding);
  }

  /**
   * A request is blocked exactly if some match in some decoded view of some target has a rule that blocks, or has
   * any rule but Allow in a target that cannot be rewritten, and is not a live token of the scope.
   */
  lemma BlockedExactly(ev: Evidence)
    requires Examined(ev)
    ensures CallsForBlock(ev.raws) <==> exists i: nat, f: Finding :: BlockingFinding(ev, i, f)
  {
    hide Accepted, AllTargets, PolicyRules.Covers, Assessed, Detected, ActionFor, Resolved, ReadTarget, PlansOk;
    hide CallsToBlock, LetThrough, TargetOf;
    SameCount(ev);
    if CallsForBlock(ev.raws) {
      var i :| 0 <= i < |ev.raws| && Has(ev.raws[i], Block);
      var p := MemberHas(ev.raws[i], Block);
      DecisionOrigin(ev, i, p);
      assert BlockingFinding(ev, i, p.finding);
    }
    if i: nat, f: Finding :| BlockingFinding(ev, i, f) {
      var p := Decision(ev, i, f);
      HasMember(ev.raws[i], p);
    }
  }

  lemma SameCount(ev: Evidence)
    requires Examined(ev)
    ensures |ev.plans| == |ev.raws| == |AllTargets(ev.root)|
  {
  }

  // ----- confidentiality

  /**
   * No byte of a forwarded text is copied from a position covered by any match in any decoded view, unless policy
   * allows its class or it is a live token of the scope. The bytes that are copied stand for themselves.
   */
  lemma NoProtectedByteForwarded(ev: Evidence, i: nat, f: Finding, j: nat)
    requires Justified(ev) && i < |ev.plans| && i < |AllTargets(ev.root)| && i < |ev.edits|
    requires Detected(ev.env, ev.plans[i].original, f)
    requires PolicyRules.Covers(ev.env.policy.categories) && !LetThrough(ev.env, ev.plans[i].original, f)
    requires Fits(ev.edits[i], 0, |ev.plans[i].original|)
    requires j < |Provenance(ev.edits[i], 0, |ev.plans[i].original|)|
    requires Provenance(ev.edits[i], 0, |ev.plans[i].original|)[j].Copied?
    ensures var p := Provenance(ev.edits[i], 0, |ev.plans[i].original|)[j].position;
            && !f.span.Contains(p)
            && ReadTarget(ev.after, TargetOf(ev, i)).Ok? && j < |ReadTarget(ev.after, TargetOf(ev, i)).value|
            && p < |ev.plans[i].original|
            && ReadTarget(ev.after, TargetOf(ev, i)).value[j] == ev.plans[i].original[p]
  {
    hide Accepted, AllTargets, PolicyRules.Covers, Assessed, Detected, ActionFor, Resolved, ReadTarget, PlansOk;
    hide Justified, Examined, Edits, Splice, Fits, Provenance, TargetOf, LetThrough, CallsToBlock;
    JustifiedExamined(ev);
    TargetFacts(ev, i);
    EditFacts(ev, i);
    var p := Decision(ev, i, f);
    NoProtectedByteCopied(ev.plans[i].original, ev.raws[i], ev.plans[i].findings, ev.edits[i], ev.journal.log, j, p);
  }

  lemma JustifiedExamined(ev: Evidence)
    requires Justified(ev)
    ensures Examined(ev) && PolicyRules.Covers(ev.env.policy.categories) && Accepted(ev.root)
    ensures !CallsForBlock(ev.raws)
    ensures SameShape(ev.root, ev.after) && UniqueKeys(ev.root) && ContextOf(ev).policy == ev.env.policy
    ensures AllFrom(ev.plans, ev.journal.log)
  {
    hide Accepted, PolicyRules.Covers, PlansOk, RewritesOk, AllFrom, SameShape, UniqueKeys, ValidStrings;
    Classification.AcceptedIsObject(ev.root);
  }

  // ----- the forwarding frame

  /** The position of the target of a string in the list of targets. */
  lemma TargetIndex(root: Json, p: Path) returns (i: nat)
    requires Accepted(root) && StringAt(root, p)
    ensures i < |AllTargets(root)| && AllTargets(root)[i] == At(p, Classify(root, p))
  {
    hide Accepted, AllTargets, Classify, StringAt;
    var t := At(p, Classify(root, p));
    ExactlyOnce.ClassifiedByPosition(root, t);
    ExactlyOnce.NamedMember(AllTargets(root), t);
    i :| 0 <= i < |AllTargets(root)| && AllTargets(root)[i] == t;
  }

  /**
   * The value sent has the shape, the keys, the numbers and the booleans of the value received, and every
   * string of it that may only block is the one received.
   */
  lemma ForwardingFrame(ev: Evidence, p: Path)
    requires Justified(ev)
    ensures SameShape(ev.root, ev.after) && Keys(ev.after) == Keys(ev.root)
    ensures (StringAt(ev.after, p) <==> StringAt(ev.root, p))
    ensures StringAt(ev.root, p) && Classify(ev.root, p).mode == BlockOnly ==> Locate(ev.after, p) == Locate(ev.root, p)
  {
    hide Accepted, AllTargets, Classify, PolicyRules.Covers, Justified, Examined, SameShape, Has, Edits, Splice, Fits;
    hide StringAt;
    JustifiedExamined(ev);
    ShapeLeaves(ev.root, ev.after, [], None);
    ShapeLocate(ev.root, ev.after, p);
    if StringAt(ev.root, p) && Classify(ev.root, p).mode == BlockOnly {
      var i := TargetIndex(ev.root, p);
      UnwritableUnchanged(ev, i);
      StringRead(ev.root, p, TargetOf(ev, i));
      StringRead(ev.after, p, TargetOf(ev, i));
    }
  }

  lemma StringRead(j: Json, p: Path, t: Target)
    requires StringAt(j, p) && t.path == p && t.structural.None?
    ensures ReadTarget(j, t).Ok? && Locate(j, p) == Some(Str(ReadTarget(j, t).value))
  {
  }

  lemma UnwritableUnchanged(ev: Evidence, i: nat)
    requires Justified(ev) && i < |AllTargets(ev.root)| && TargetOf(ev, i).mode == BlockOnly
    ensures ReadTarget(ev.after, TargetOf(ev, i)) == ReadTarget(ev.root, TargetOf(ev, i))
  {
    hide Accepted, AllTargets, PolicyRules.Covers, Justified, Examined, SameShape, Has, Edits, Splice, Fits, Assessed;
    hide Resolved, ReadTarget, TargetOf;
    JustifiedExamined(ev);
    SameCount(ev);
    TargetFacts(ev, i);
    EditFacts(ev, i);
    BlockKept(ev.raws[i], ev.plans[i].findings);
    PlanFacts(ev.env, ev.root, TargetOf(ev, i), i, ev.plans[i], ev.raws[i]);
    UneditedText(ev.plans[i], ev.edits[i], ev.journal.log);
  }

  /** A request with nothing to mask or tokenize is sent as it was received. */
  lemma AllowedUnchanged(ev: Evidence)
    requires Justified(ev) && !Occurs(ev.plans, Mask) && !Occurs(ev.plans, Tokenize)
    ensures ev.after == ev.root
  {
    hide Accepted, AllTargets, Classify, PolicyRules.Covers, Justified, Examined, SameShape, Has, Edits, Splice, Fits;
    hide StringAt, Occurs, ReadTarget;
    JustifiedExamined(ev);
    forall p | StringAt(ev.root, p)
      ensures Locate(ev.root, p) == Locate(ev.after, p)
    {
      ShapeLocate(ev.root, ev.after, p);
      var i := TargetIndex(ev.root, p);
      SameCount(ev);
      TargetFacts(ev, i);
      EditFacts(ev, i);
      NothingToEdit(ev, i);
      UneditedText(ev.plans[i], ev.edits[i], ev.journal.log);
      StringRead(ev.root, p, TargetOf(ev, i));
      StringRead(ev.after, p, TargetOf(ev, i));
    }
    ShapeAndText(ev.root, ev.after);
  }

  lemma NothingToEdit(ev: Evidence, i: nat)
    requires Justified(ev) && i < |ev.plans| && !Occurs(ev.plans, Mask) && !Occurs(ev.plans, Tokenize)
    ensures Actionable(ev.plans[i].findings) == []
  {
    hide Accepted, AllTargets, PolicyRules.Covers, Assessed, Resolved, ReadTarget;
    BlocksWhenCalledFor(ev.env, ev.root, ev.plans, ev.raws);
    assert !Occurs(ev.plans, Block);
    forall o | o in ev.plans[i].findings
      ensures o.action == Allow
    {
      assert o.action != Block && o.action != Mask && o.action != Tokenize;
    }
    AllAllowed(ev.plans[i].findings);
  }

  /** The strings that are sent are valid UTF-8, because those received are and edits fall between characters. */
  lemma ForwardedValid(ev: Evidence, i: nat)
    requires Justified(ev) && i < |ev.plans|
    ensures i < |AllTargets(ev.root)| && ReadTarget(ev.after, TargetOf(ev, i)).Ok?
    ensures Utf8.Valid(ReadTarget(ev.after, TargetOf(ev, i)).value)
  {
    hide Accepted, AllTargets, PolicyRules.Covers, Justified, Examined, Assessed, Resolved, Utf8.Valid, ReadTarget;
    hide TargetOf, Edits, Splice, Fits, Has;
    JustifiedExamined(ev);
    TargetFacts(ev, i);
    EditFacts(ev, i);
    var text, fs, edits := ev.plans[i].original, ev.plans[i].findings, ev.edits[i];
    OriginalValid(ev, i);
    ResolvedAligned(ev.env, text, TargetOf(ev, i).mode, ev.raws[i], fs);
    forall e | e in edits
      ensures Utf8.IsBoundary(text, e.span.start) && Utf8.IsBoundary(text, e.span.end) && Utf8.Valid(e.replacement)
    {
      EditValid(ev, text, fs, edits, e);
    }
    SpliceValid(text, edits, 0);
  }

  lemma OriginalValid(ev: Evidence, i: nat)
    requires Examined(ev) && i < |ev.plans|
    ensures Utf8.Valid(ev.plans[i].original)
  {
    hide Accepted, AllTargets, PolicyRules.Covers, Assessed, Resolved, Utf8.Valid, ReadTarget, ValidStrings, PlansOk;
    SameCount(ev);
    TargetFacts(ev, i);
    TargetsValid(ev.root, TargetOf(ev, i));
  }

  lemma EditValid(ev: Evidence, text: string, fs: seq<Planned>, edits: seq<Edit>, e: Edit)
    requires AllFrom(ev.plans, ev.journal.log) && Edits(text, Actionable(fs), edits, ev.journal.log) && e in edits
    requires forall o :: o in fs ==> OnBoundaries(text, o.finding.span)
    ensures Utf8.IsBoundary(text, e.span.start) && Utf8.IsBoundary(text, e.span.end) && Utf8.Valid(e.replacement)
  {
    hide Utf8.Valid, Utf8.IsBoundary, Tokens.IsToken, Slice, Tokens.MaskText;
    var k :| 0 <= k < |edits| && edits[k] == e;
    var o := Actionable(fs)[k];
    ActionableMembers(fs, o);
    assert Replaces(text, o, e.replacement, ev.journal.log);
    if o.action == Mask {
      Tokens.MaskValid(o.finding.dataClass);
    } else {
      var m :| 0 <= m < |ev.journal.log| && ev.journal.log[m].token == e.replacement;
      assert FromPlans(ev.plans, ev.journal.log[m]);
      Tokens.TokenValid(e.replacement);
    }
  }

  // ----- what is stored

  lemma TokenizeFound(text: string, plan: TargetPlan, q: Issued) returns (o: Planned)
    requires plan.original == text && FromPlan(plan, q)
    ensures o in plan.findings && o.action == Tokenize && o.finding.dataClass == q.dataClass
    ensures Slice(text, o.finding.span) == Some(q.value)
  {
    o :| o in plan.findings && o.action == Tokenize && o.finding.dataClass == q.dataClass
      && Slice(text, o.finding.span) == Some(q.value);
  }

  lemma HardBlockRule(env: Env, f: Finding)
    requires PolicyRules.Covers(env.policy.categories) && f.dataClass.HardBlock()
    ensures RuleAction(env, f) == Block
  {
    assert PolicyRules.Sanctioned(f.dataClass, env.policy.categories[f.dataClass.PolicyKey()]);
  }

  /**
   * A stored value is the text of a span whose class policy tokenizes. It overlaps, in any decoded view, no match
   * that policy blocks or masks, and none of a hard-block class, other than a live token of the scope.
   */
  lemma StoredValuesClean(ev: Evidence, q: Issued) returns (i: nat, s: Span)
    requires Justified(ev) && q in ev.journal.log
    ensures i < |ev.plans| && s.start < s.end <= |ev.plans[i].original|
    ensures q.value == ev.plans[i].original[s.start..s.end]
    ensures PolicyRules.Covers(ev.env.policy.categories) && !q.dataClass.HardBlock()
    ensures var rule := ev.env.policy.categories[q.dataClass.PolicyKey()];
            rule.action == Tokenize && 0 < rule.Ttl() <= PolicyRules.MAX_RESTORATION_TTL_SECONDS
    ensures forall f :: Detected(ev.env, ev.plans[i].original, f) && f.span.Overlaps(s) ==>
              || LiveToken(ev.env, ev.plans[i].original, f)
              || (!f.dataClass.HardBlock() && RuleAction(ev.env, f) in {Tokenize, Allow})
  {
    hide Accepted, AllTargets, PolicyRules.Covers, Justified, Examined, Has, Assessed, Resolved, ReadTarget, TargetOf;
    hide Detected, ActionFor, Utf8.IsBoundary, LiveToken, RuleAction, FromPlan, PlanOk;
    JustifiedExamined(ev);
    assert FromPlans(ev.plans, q);
    i :| 0 <= i < |ev.plans| && FromPlan(ev.plans[i], q);
    TargetFacts(ev, i);
    PlanOkMeans(ev, i);
    var text, mode, raw := ev.plans[i].original, TargetOf(ev, i).mode, ev.raws[i];
    var o := TokenizeFound(text, ev.plans[i], q);
    s := o.finding.span;
    ResolvedNonempty(raw, ev.plans[i].findings, o);
    TokenizeResolved(ev.env, text, mode, raw, ev.plans[i].findings, o);
    var w := PairingKept(raw, ev.plans[i].findings, o);
    DecisionOrigin(ev, i, w);
    RuleIs(ev.env, w.finding, q.dataClass);
    forall f | Detected(ev.env, text, f) && f.span.Overlaps(s)
      ensures LiveToken(ev.env, text, f) || (!f.dataClass.HardBlock() && RuleAction(ev.env, f) in {Tokenize, Allow})
    {
      var p := Decision(ev, i, f);
      if f.dataClass.HardBlock() {
        HardBlockRule(ev.env, f);
      }
    }
  }

  lemma PlanOkMeans(ev: Evidence, i: nat)
    requires Examined(ev) && i < |ev.plans| && i < |AllTargets(ev.root)| && i < |ev.raws|
    requires PlanOk(ev.env, ev.root, TargetOf(ev, i), i, ev.plans[i], ev.raws[i])
    ensures Assessed(ev.env, ev.plans[i].original, TargetOf(ev, i).mode, ev.raws[i])
    ensures Resolved(ev.raws[i], ev.plans[i].findings)
  {
    hide Assessed, Resolved, ReadTarget, AllTargets, PolicyRules.Covers, Accepted, PlansOk;
  }

  lemma RuleIs(env: Env, f: Finding, c: DataClass)
    requires PolicyRules.Covers(env.policy.categories) && f.dataClass == c
    ensures RuleAction(env, f) == env.policy.categories[c.PolicyKey()].action
  {
    hide PolicyRules.Covers;
  }

  // ----- policy carried out

  /** The span houses a match that policy masks. */
  ghost predicate MaskedWithin(ev: Evidence, i: nat, s: Span)
    requires PolicyRules.Covers(ev.env.policy.categories) && i < |ev.plans|
  {
    exists g ::
      Detected(ev.env, ev.plans[i].original, g) && g.span.Within(s) && RuleAction(ev.env, g) == Mask
  }

  /**
   * A match that policy masks or tokenizes lies, in a forwarded request, inside a span that is replaced. A masked
   * match lies in a mask; a span is masked only if it houses a match to be masked, and tokenized only if it houses
   * none.
   */
  lemma RuleCarriedOut(ev: Evidence, i: nat, f: Finding) returns (o: Planned)
    requires Justified(ev) && i < |ev.plans| && i < |AllTargets(ev.root)|
    requires Detected(ev.env, ev.plans[i].original, f)
    requires PolicyRules.Covers(ev.env.policy.categories) && !LetThrough(ev.env, ev.plans[i].original, f)
    ensures TargetOf(ev, i).mode == Rewrite && RuleAction(ev.env, f) in {Mask, Tokenize}
    ensures o in ev.plans[i].findings && f.span.Within(o.finding.span) && o.action in {Mask, Tokenize}
    ensures RuleAction(ev.env, f) == Mask ==> o.action == Mask
    ensures o.action == Mask ==> MaskedWithin(ev, i, o.finding.span)
  {
    hide Accepted, AllTargets, PolicyRules.Covers, Justified, Examined, Assessed, ReadTarget, TargetOf, GapFree;
    hide Detected, ActionFor, Utf8.IsBoundary, LetThrough, RuleAction, PlanOk, HasWinner, Disjoint, Covered;
    JustifiedExamined(ev);
    TargetFacts(ev, i);
    PlanOkMeans(ev, i);
    EditFacts(ev, i);
    SameCount(ev);
    var raw, out := ev.raws[i], ev.plans[i].findings;
    var p := Decision(ev, i, f);
    assert p.action != Block by {
      HasMember(raw, p);
    }
    assert Housed(p, out);
    o :| o in out && p.finding.span.Within(o.finding.span);
    var w := PairingKept(raw, out, o);
    assert w.action != Block by {
      HasMember(raw, w);
    }
    DecisionOrigin(ev, i, w);
    Unblocked(ev, i, f);
    if o.action == Mask {
      Unblocked(ev, i, w.finding);
      assert w.finding.span.Within(o.finding.span) && RuleAction(ev.env, w.finding) == Mask;
    }
  }

  /** In a request that is not blocked, a match that is not let through is in a target that can be rewritten. */
  lemma Unblocked(ev: Evidence, i: nat, f: Finding)
    requires Examined(ev) && !CallsForBlock(ev.raws) && i < |ev.plans| && i < |AllTargets(ev.root)|
    requires Detected(ev.env, ev.plans[i].original, f)
    ensures !LetThrough(ev.env, ev.plans[i].original, f) ==>
              TargetOf(ev, i).mode == Rewrite && RuleAction(ev.env, f) in {Mask, Tokenize}
  {
    hide Accepted, AllTargets, PolicyRules.Covers, PlansOk, Detected, TargetOf, LiveToken, RuleAction;
    BlockedExactly(ev);
    assert !BlockingFinding(ev, i, f);
  }

  /** Where policy allows everything that was found, the request is neither blocked nor changed. */
  lemma NothingToDo(ev: Evidence)
    requires Examined(ev)
    requires forall i: nat, f: Finding :: i < |ev.plans| && Detected(ev.env, ev.plans[i].original, f) ==>
               LetThrough(ev.env, ev.plans[i].original, f)
    ensures !CallsForBlock(ev.raws)
    ensures Justified(ev) ==> ev.after == ev.root
  {
    hide Accepted, AllTargets, PolicyRules.Covers, PlansOk, Detected, TargetOf, LiveToken, RuleAction, Justified;
    hide PlanOk, Resolved, Assessed, SameShape;
    BlockedExactly(ev);
    if Justified(ev) {
      forall i: nat, o | i < |ev.plans| && o in ev.plans[i].findings
        ensures o.action == Allow
      {
        SameCount(ev);
        TargetFacts(ev, i);
        PlanOkMeans(ev, i);
        var w := PairingKept(ev.raws[i], ev.plans[i].findings, o);
        DecisionOrigin(ev, i, w);
      }
      AllowedUnchanged(ev);
    }
  }

  // ----- the round trip

  function TokensOf(log: seq<Issued>): set<string> {
    set q | q in log :: q.token
  }

  /**
   * The request's tokens are still good: what it needed at once fits the ledger, nothing since has revoked or
   * outlived them or asked for a token that finds no room beside them, and they have not expired.
   */
  ghost predicate KeptAlive(ev: Evidence, h: History, n: nat, maxEntries: nat, laterMs: nat) {
    var tokens := TokensOf(ev.journal.log);
    && n <= |h.events| <= U64_MAX && |WorkingSet.Pairs(ev.journal.log)| <= maxEntries
    && Undisturbed(h.events, n, |h.events|, ev.env.scope, tokens, maxEntries)
    && forall t :: t in tokens ==> laterMs < ExpiryAt(h.events, |h.events|, t)
  }

  /** The ledger held every token of the request, for its value, when the request ended. */
  ghost predicate AllInForce(ev: Evidence, s: Ledger.State)
    requires PolicyRules.Covers(ev.env.policy.categories)
  {
    forall q :: q in ev.journal.log ==> WorkingSet.InForce(ContextOf(ev), s, q) && Tokens.IsToken(q.token)
  }

  lemma JournalStart(ev: Evidence, h: History, n: nat, now: Ledger.State)
    requires Justified(ev) && Leads(ev.random, h, now) && |h.events| <= U64_MAX
    requires Logged(ContextOf(ev), h, n, ev.journal)
    ensures var start := ev.journal.states[0];
            && LedgerRuns.Sound(start) && LedgerRuns.DistinctUses(start.entries)
            && start.maxEntries == now.maxEntries == h.states[0].maxEntries
            && start.sequence + |ev.journal.log| <= U64_MAX
    ensures h.states[n] == ev.journal.states[|ev.journal.log|]
  {
    hide *;
    JustifiedExamined(ev);
    LeadsSizes(ev.random, h, now);
    LoggedSizes(ContextOf(ev), h, n, ev.journal);
    LedgerRuns.RunSound(ev.random, h.states, h.events, n - |ev.journal.log|);
    LedgerRuns.RunSound(ev.random, h.states, h.events, |h.events|);
  }

  lemma InForceAtEnd(ev: Evidence, h: History, n: nat, now: Ledger.State)
    requires Justified(ev) && Leads(ev.random, h, now) && |h.events| <= U64_MAX
    requires Logged(ContextOf(ev), h, n, ev.journal) && |WorkingSet.Pairs(ev.journal.log)| <= now.maxEntries
    ensures AllInForce(ev, h.states[n])
  {
    hide Accepted, PolicyRules.Covers, PlansOk, SameShape, RewritesOk, AllFrom, LedgerRuns.DistinctUses, Settled;
    hide Tokens.IsToken, WorkingSet.InForce, Leads, Logged, LedgerRuns.Sound;
    var ctx, states, log := ContextOf(ev), ev.journal.states, ev.journal.log;
    JournalStart(ev, h, n, now);
    forall q | q in log
      ensures 0 < PolicyRules.RuleFor(ev.env.policy, q.dataClass).Ttl()
    {
      PolicyRules.TtlBounded(ev.env.policy, q.dataClass);
    }
    WorkingSet.WorkingThroughout(ctx, states, log, |log|);
    assert log[..|log|] == log;
    forall q | q in log
      ensures WorkingSet.InForce(ctx, states[|log|], q) && Tokens.IsToken(q.token)
    {
      assert WorkingSet.InForce(ctx, states[|log|], q);
      InForceNamed(ctx, states[|log|], q);
    }
  }

  lemma InForceNamed(ctx: WorkingSet.Context, s: Ledger.State, q: Issued)
    requires PolicyRules.Covers(ctx.policy.categories) && LedgerRuns.Sound(s) && WorkingSet.InForce(ctx, s, q)
    ensures Tokens.IsToken(q.token)
  {
    hide Tokens.IsToken;
  }

  /** The request touched its own tokens and no others. */
  lemma {:induction false} JournalTouches(ctx: WorkingSet.Context, h: History, n: nat, j: Journal, k: nat)
    requires PolicyRules.Covers(ctx.policy.categories) && Logged(ctx, h, n, j) && k <= |j.log|
    ensures LedgerRuns.TouchedIn(h.events, n - |j.log|, n - |j.log| + k) <= TokensOf(j.log)
  {
    hide PolicyRules.Covers, WorkingSet.ArgsFor;
    if k > 0 {
      JournalTouches(ctx, h, n, j, k - 1);
      assert Recorded(ctx, h.events[n - |j.log| + k - 1], j.log[k - 1]) && j.log[k - 1] in j.log;
    }
  }

  lemma JournalUses(ctx: WorkingSet.Context, h: History, n: nat, j: Journal, q: Issued)
    requires PolicyRules.Covers(ctx.policy.categories) && Logged(ctx, h, n, j) && q in j.log
    ensures n - |j.log| <= LedgerRuns.Last(LedgerRuns.Touch, h.events, n, q.token)
  {
    hide PolicyRules.Covers, WorkingSet.ArgsFor, LedgerRuns.Last;
    var i :| 0 <= i < |j.log| && j.log[i] == q;
    assert Recorded(ctx, h.events[n - |j.log| + i], j.log[i]);
    assert LedgerRuns.Is(LedgerRuns.Touch, h.events[n - |j.log| + i], q.token);
  }

  /** Each token of the request is still answered with the value it was issued for. */
  lemma StillAnswered(ev: Evidence, h: History, n: nat, now: Ledger.State, laterMs: nat, q: Issued)
    requires Justified(ev) && Leads(ev.random, h, now) && Logged(ContextOf(ev), h, n, ev.journal)
    requires KeptAlive(ev, h, n, now.maxEntries, laterMs) && q in ev.journal.log && AllInForce(ev, h.states[n])
    ensures Ledger.Lookup(now, ev.env.scope, q.token, laterMs) == Some(q.value)
  {
    hide *;
    JustifiedExamined(ev);
    var j := ev.journal;
    AliveMeans(ev, h, n, now.maxEntries, laterMs, q);
    LeadsSizes(ev.random, h, now);
    JournalStart(ev, h, n, now);
    LoggedSizes(ContextOf(ev), h, n, j);
    JournalTouches(ContextOf(ev), h, n, j, |j.log|);
    JournalUses(ContextOf(ev), h, n, j, q);
    HeldAtEnd(ev, h.states[n], q);
    RetainedAnswers(ev.random, h.states, h.events, n - |j.log|, n, |h.events|, ev.env.scope, TokensOf(j.log), q.token,
                    laterMs);
  }

  lemma HeldAtEnd(ev: Evidence, s: Ledger.State, q: Issued)
    requires PolicyRules.Covers(ev.env.policy.categories) && q in ev.journal.log && AllInForce(ev, s)
    ensures q.token in s.entries && s.entries[q.token].scope == ev.env.scope && s.entries[q.token].value == q.value
  {
    hide PolicyRules.Covers, Tokens.IsToken;
    assert WorkingSet.InForce(ContextOf(ev), s, q);
  }

  lemma AliveMeans(ev: Evidence, h: History, n: nat, maxEntries: nat, laterMs: nat, q: Issued)
    requires KeptAlive(ev, h, n, maxEntries, laterMs) && q in ev.journal.log
    ensures n <= |h.events| <= U64_MAX && |WorkingSet.Pairs(ev.journal.log)| <= maxEntries
    ensures q.token in TokensOf(ev.journal.log) && laterMs < ExpiryAt(h.events, |h.events|, q.token)
    ensures Undisturbed(h.events, n, |h.events|, ev.env.scope, TokensOf(ev.journal.log), maxEntries)
  {
    hide Undisturbed, WorkingSet.Pairs, ExpiryAt;
  }

  lemma LoggedSizes(ctx: WorkingSet.Context, h: History, n: nat, j: Journal)
    requires PolicyRules.Covers(ctx.policy.categories) && Logged(ctx, h, n, j)
    ensures |j.states| == |j.log| + 1 && |j.log| <= n <= |h.events| && n < |h.states|
    ensures h.states[n - |j.log|] == j.states[0] && h.states[n] == j.states[|j.log|]
  {
    hide Recorded, PolicyRules.Covers;
  }

  lemma StillAnswers(ev: Evidence, h: History, n: nat, now: Ledger.State, laterMs: nat)
    requires Justified(ev) && Leads(ev.random, h, now) && Logged(ContextOf(ev), h, n, ev.journal)
    requires KeptAlive(ev, h, n, now.maxEntries, laterMs)
    ensures Answers(Display.Asking(now, ev.env.scope, laterMs), ev.journal.log)
  {
    hide Justified, Tokens.IsToken, PolicyRules.Covers, Leads, Logged, Undisturbed, Ledger.Lookup;
    JustifiedExamined(ev);
    InForceAtEnd(ev, h, n, now);
    var log := ev.journal.log;
    forall i | 0 <= i < |log|
      ensures Tokens.IsToken(log[i].token)
      ensures Display.Asking(now, ev.env.scope, laterMs)(log[i].token) == Some(log[i].value)
    {
      assert log[i] in log;
      StillAnswered(ev, h, n, now, laterMs, log[i]);
    }
  }

  /** What restoration makes of the text sent in place of the original of a plan. */
  ghost predicate ComesBack(sent: string, plan: TargetPlan, lookup: Tokens.Lookup) {
    var text, fs := plan.original, Actionable(plan.findings);
    && Laid(fs, 0, |text|) && Tokens.Restored(sent, lookup) == RestoredAround(text, fs, lookup, 0)
    && (Tokens.Inert(text, lookup) ==>
          Fits(MaskEdits(fs), 0, |text|) && Tokens.Restored(sent, lookup) == Splice(text, MaskEdits(fs), 0))
  }

  /**
   * Restoring a forwarded text turns each of its tokens back into what it replaced and leaves its masks; what lies
   * between is restored as it would be in the original. Without a live token of the scope in the original, all of
   * it comes back except for the masked spans. This holds for every text, every outcome of the scan and of the
   * random source, and whatever the engine has done for other requests before and since, as long as the request's
   * tokens have been kept alive.
   */
  lemma RoundTrip(ev: Evidence, i: nat, h: History, n: nat, now: Ledger.State, laterMs: nat)
    requires Justified(ev) && i < |ev.plans|
    requires Leads(ev.random, h, now) && Logged(ContextOf(ev), h, n, ev.journal)
    requires KeptAlive(ev, h, n, now.maxEntries, laterMs)
    ensures i < |AllTargets(ev.root)| && ReadTarget(ev.after, TargetOf(ev, i)).Ok?
    ensures ComesBack(ReadTarget(ev.after, TargetOf(ev, i)).value, ev.plans[i],
                      Display.Asking(now, ev.env.scope, laterMs))
  {
    hide Accepted, AllTargets, PolicyRules.Covers, Justified, KeptAlive, Tokens.Restored, Tokens.Inert, Edits, Splice;
    hide Fits, Laid, RestoredAround, ReadTarget, TargetOf, Answers, Display.Asking, Leads, Logged;
    EditFacts(ev, i);
    StillAnswers(ev, h, n, now, laterMs);
    var lookup, fs := Display.Asking(now, ev.env.scope, laterMs), Actionable(ev.plans[i].findings);
    RestoreRewritten(ev.plans[i].original, fs, ev.edits[i], ev.journal.log, lookup, 0);
    if Tokens.Inert(ev.plans[i].original, lookup) {
      AroundInert(ev.plans[i].original, fs, lookup, 0);
    }
  }

  /** With nothing masked in it and no live token, the restored text is the original. */
  lemma RoundTripExact(ev: Evidence, i: nat, h: History, n: nat, now: Ledger.State, laterMs: nat)
    requires Justified(ev) && i < |ev.plans| && !Has(ev.plans[i].findings, Mask)
    requires Leads(ev.random, h, now) && Logged(ContextOf(ev), h, n, ev.journal)
    requires KeptAlive(ev, h, n, now.maxEntries, laterMs)
    requires Tokens.Inert(ev.plans[i].original, Display.Asking(now, ev.env.scope, laterMs))
    ensures i < |AllTargets(ev.root)| && ReadTarget(ev.after, TargetOf(ev, i)).Ok?
    ensures Tokens.Restored(ReadTarget(ev.after, TargetOf(ev, i)).value, Display.Asking(now, ev.env.scope, laterMs))
         == ev.plans[i].original
  {
    hide Accepted, AllTargets, PolicyRules.Covers, Justified, KeptAlive, Tokens.Restored, Tokens.Inert, ReadTarget;
    hide TargetOf, Display.Asking, Leads, Logged, RestoredAround, Laid;
    RoundTrip(ev, i, h, n, now, laterMs);
    forall o | o in Actionable(ev.plans[i].findings)
      ensures o.action != Mask
    {
      ActionableMembers(ev.plans[i].findings, o);
    }
    NoMasks(Actionable(ev.plans[i].findings));
    assert ev.plans[i].original[0..] == ev.plans[i].original;
  }

  /** Right after the request its tokens are alive until the lifetimes it gave them end, if all of them fit. */
  lemma AliveAtOnce(ev: Evidence, h: History, now: Ledger.State, laterMs: nat)
    requires Justified(ev) && Leads(ev.random, h, now) && Logged(ContextOf(ev), h, |h.events|, ev.journal)
    requires |h.events| <= U64_MAX && |WorkingSet.Pairs(ev.journal.log)| <= now.maxEntries
    requires forall q :: q in ev.journal.log ==>
               laterMs < WorkingSet.ArgsFor(ContextOf(ev), q.dataClass, q.value).ExpiresAtMs()
    ensures KeptAlive(ev, h, |h.events|, now.maxEntries, laterMs)
  {
    hide Justified, PolicyRules.Covers, LedgerRuns.Run, Logged, LedgerRuns.Last, LedgerRuns.HeldSince, Timely;
    hide Tokens.IsToken, WorkingSet.Pairs, WorkingSet.ArgsFor;
    JustifiedExamined(ev);
    InForceAtEnd(ev, h, |h.events|, now);
    forall t | t in TokensOf(ev.journal.log)
      ensures laterMs < ExpiryAt(h.events, |h.events|, t)
    {
      var q :| q in ev.journal.log && q.token == t;
      assert WorkingSet.InForce(ContextOf(ev), now, q);
      LedgerRuns.EntriesRemembered(ev.random, h.states, h.events, |h.events|, t);
    }
  }

  /** What policy grants to a value of this class: its own number of seconds, or a quarter of an hour. */
  function Lifetime(ev: Evidence, c: DataClass): nat
    requires PolicyRules.Covers(ev.env.policy.categories)
  {
    match ev.env.policy.categories[c.PolicyKey()].ttlSeconds
    case Some(seconds) => seconds
    case None => 900
  }

  /** Right after the request each of its tokens expires when its rule says, counted from the time of the request. */
  lemma LivesAsRuled(ev: Evidence, h: History, now: Ledger.State, q: Issued)
    requires Justified(ev) && Leads(ev.random, h, now) && Logged(ContextOf(ev), h, |h.events|, ev.journal)
    requires |h.events| <= U64_MAX && |WorkingSet.Pairs(ev.journal.log)| <= now.maxEntries && q in ev.journal.log
    ensures q.token in now.entries
            && var e := now.entries[q.token];
               && e.scope == ev.env.scope && e.dataClass == q.dataClass && e.value == q.value
               && e.expiresAtMs == ev.env.nowMs + 1000 * Lifetime(ev, q.dataClass)
  {
    hide Justified, PolicyRules.Covers, LedgerRuns.Run, Logged, Tokens.IsToken, WorkingSet.Pairs;
    JustifiedExamined(ev);
    InForceAtEnd(ev, h, |h.events|, now);
    assert WorkingSet.InForce(ContextOf(ev), now, q);
  }

  lemma {:induction false} NoMasks(fs: seq<Planned>)
    requires forall o :: o in fs ==> o.action != Mask
    ensures MaskEdits(fs) == []
  {
    if fs != [] {
      assert fs[0] in fs;
      NoMasks(fs[1..]);
    }
  }
}
