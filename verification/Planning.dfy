/**
 * What the engine decides about the text of one target (src/engine.rs, the first half of `protect`),
 * and what those decisions imply whatever the detectors report: hard-block classes block, only what may
 * be restored is tokenized, and resolution neither loses nor invents a decision to block a request.
 */
module Planning {
  import opened Domain
  import opened Ledger
  import opened Overlaps
  import opened PayloadShape
  import opened Views
  import PolicyRules
  import Scan
  import Decoders
  import Utf8

  /** What is fixed while a request is planned; expired entries aside, planning leaves the ledger alone. */
  datatype Env = Env(policy: PolicyRules.Policy, scanner: Scan.Scanner, ledger: State, scope: string, nowMs: nat)

  /** `str::get`: the bytes of a range that starts and ends between characters. */
  function Slice(text: string, s: Span): Option<string> {
    if s.start <= s.end <= |text| && Utf8.IsBoundary(text, s.start) && Utf8.IsBoundary(text, s.end)
    then Some(text[s.start..s.end]) else None
  }

  /** The token was issued in this scope and is still live. */
  predicate Owned(env: Env, text: string, s: Span) {
    match Slice(text, s)
    case Some(candidate) => Lookup(env.ledger, env.scope, candidate, env.nowMs).Some?
    case None => false
  }

  /**
   * The action for one finding: its rule, unless it is an owned token; anything but Allow blocks where rewriting is
   * not possible.
   */
  function ActionFor(env: Env, text: string, mode: RewriteMode, f: Finding): Action
    requires PolicyRules.Covers(env.policy.categories)
  {
    var action := if f.dataClass.TokenNamespace? && Owned(env, text, f.span) then Allow
                  else PolicyRules.RuleFor(env.policy, f.dataClass).action;
    if mode.BlockOnly? && action != Allow then Block else action
  }

  ghost predicate Decided(env: Env, text: string, mode: RewriteMode, findings: seq<Finding>, raw: seq<Planned>)
    requires PolicyRules.Covers(env.policy.categories)
  {
    && |raw| == |findings|
    && forall i {:trigger raw[i]} {:trigger findings[i]} ::
         0 <= i < |raw| ==> raw[i] == Planned(findings[i], ActionFor(env, text, mode, findings[i]))
  }

  lemma DecidedNothing(env: Env, text: string, mode: RewriteMode)
    requires PolicyRules.Covers(env.policy.categories)
    ensures Decided(env, text, mode, [], [])
  {
    hide ActionFor, PolicyRules.Covers;
  }

  lemma DecidedStep(env: Env, text: string, mode: RewriteMode, findings: seq<Finding>, raw: seq<Planned>, f: Finding)
    requires PolicyRules.Covers(env.policy.categories) && Decided(env, text, mode, findings, raw)
    ensures Decided(env, text, mode, findings + [f], raw + [Planned(f, ActionFor(env, text, mode, f))])
  {
    hide ActionFor, PolicyRules.Covers;
  }

  /** `raw` is what the scan of `text` came to, finding by finding. */
  ghost predicate Assessed(env: Env, text: string, mode: RewriteMode, raw: seq<Planned>)
    requires PolicyRules.Covers(env.policy.categories)
  {
    exists findings :: Scan.Reports(env.scanner, text, findings) && Decided(env, text, mode, findings, raw)
  }

  // ----- findings in any decoded view

  /** A detector matched in some view of the text, and `f` is that match traced back to the text. */
  ghost predicate Detected(env: Env, text: string, f: Finding) {
    exists v: Scan.ScanView :: DetectedIn(env, text, v, f)
  }

  ghost predicate DetectedIn(env: Env, text: string, v: Scan.ScanView, f: Finding) {
    Scan.Scanned(env.scanner.nfkc, Decoders.Normalized(env.scanner.nfkc, text), v.view, v.secret)
      && Scan.FoundIn(env.scanner, v, f)
  }

  lemma MatchReported(env: Env, text: string, findings: seq<Finding>, f: Finding) returns (g: Finding)
    requires Scan.Reports(env.scanner, text, findings) && Detected(env, text, f)
    ensures g in findings && Scan.SameFinding(f, g)
  {
    hide Scan.Scanned, Scan.FoundIn, Scan.Aligned, Decoders.Normalized;
    var v: Scan.ScanView :| DetectedIn(env, text, v, f);
    assert Scan.Represented(f, findings);
    g :| g in findings && Scan.SameFinding(f, g);
  }

  lemma ReportDetected(env: Env, text: string, findings: seq<Finding>, f: Finding)
    requires Scan.Reports(env.scanner, text, findings) && f in findings
    ensures Detected(env, text, f) && OnBoundaries(text, f.span)
  {
    hide Scan.Scanned, Scan.FoundIn, Scan.Represented, Decoders.Normalized;
    assert Scan.Aligned(text, f);
    var v: Scan.ScanView :|
      && Scan.Scanned(env.scanner.nfkc, Decoders.Normalized(env.scanner.nfkc, text), v.view, v.secret)
      && Scan.FoundIn(env.scanner, v, f);
    assert DetectedIn(env, text, v, f);
  }

  /** Every match of every view was decided, up to its confidence. */
  lemma DetectedDecided(env: Env, text: string, mode: RewriteMode, raw: seq<Planned>, f: Finding) returns (p: Planned)
    requires PolicyRules.Covers(env.policy.categories) && Assessed(env, text, mode, raw) && Detected(env, text, f)
    ensures p in raw && p.finding.span == f.span && p.finding.dataClass == f.dataClass
    ensures p.finding.detector == f.detector
    ensures p.action == ActionFor(env, text, mode, f)
  {
    hide Scan.Reports, Detected, ActionFor, PolicyRules.Covers;
    var findings :| Scan.Reports(env.scanner, text, findings) && Decided(env, text, mode, findings, raw);
    var g := MatchReported(env, text, findings, f);
    var i :| 0 <= i < |findings| && findings[i] == g;
    p := raw[i];
    SameAction(env, text, mode, f, g);
  }

  lemma SameAction(env: Env, text: string, mode: RewriteMode, f: Finding, g: Finding)
    requires PolicyRules.Covers(env.policy.categories) && f.span == g.span && f.dataClass == g.dataClass
    ensures ActionFor(env, text, mode, f) == ActionFor(env, text, mode, g)
  {
  }

  /** Nothing was decided that no view contains, and everything decided lies on character boundaries. */
  lemma DecidedDetected(env: Env, text: string, mode: RewriteMode, raw: seq<Planned>, p: Planned)
    requires PolicyRules.Covers(env.policy.categories) && Assessed(env, text, mode, raw) && p in raw
    ensures Detected(env, text, p.finding) && OnBoundaries(text, p.finding.span)
    ensures p.action == ActionFor(env, text, mode, p.finding)
  {
    hide Scan.Reports, Detected, ActionFor, PolicyRules.Covers, Utf8.IsBoundary;
    var findings :| Scan.Reports(env.scanner, text, findings) && Decided(env, text, mode, findings, raw);
    var i :| 0 <= i < |raw| && raw[i] == p;
    assert findings[i] in findings;
    ReportDetected(env, text, findings, findings[i]);
  }

  lemma AssessedNonempty(env: Env, text: string, mode: RewriteMode, raw: seq<Planned>)
    requires PolicyRules.Covers(env.policy.categories) && Assessed(env, text, mode, raw)
    ensures AllNonempty(raw)
  {
    hide Assessed, ActionFor, PolicyRules.Covers, Detected;
    forall p | p in raw
      ensures p.finding.span.Nonempty()
    {
      DecidedDetected(env, text, mode, raw, p);
    }
  }

  // ----- what policy asks for, finding by finding

  /** The action the policy names for the class of the finding. */
  function RuleAction(env: Env, f: Finding): Action
    requires PolicyRules.Covers(env.policy.categories)
  {
    env.policy.categories[f.dataClass.PolicyKey()].action
  }

  /** The finding is the text of a token that the ledger holds for this scope and that has not expired. */
  predicate LiveToken(env: Env, text: string, f: Finding) {
    && f.dataClass == TokenNamespace && f.span.start <= f.span.end <= |text|
    && var token := text[f.span.start..f.span.end];
       && token in env.ledger.entries && env.ledger.entries[token].scope == env.scope
       && env.nowMs < env.ledger.entries[token].expiresAtMs
  }

  /** The finding by itself calls for blocking: by its rule, or because its target cannot be rewritten. */
  predicate CallsToBlock(env: Env, text: string, mode: RewriteMode, f: Finding)
    requires PolicyRules.Covers(env.policy.categories)
  {
    && !LiveToken(env, text, f)
    && (RuleAction(env, f) == Block || (mode == BlockOnly && RuleAction(env, f) != Allow))
  }

  /** Nothing has to be done about the finding. */
  predicate LetThrough(env: Env, text: string, f: Finding)
    requires PolicyRules.Covers(env.policy.categories)
  {
    LiveToken(env, text, f) || RuleAction(env, f) == Allow
  }

  /** What a finding gets is what policy asks for, whatever the order in which the cases are tested. */
  lemma ActionIs(env: Env, text: string, mode: RewriteMode, f: Finding)
    requires PolicyRules.Covers(env.policy.categories) && OnBoundaries(text, f.span)
    ensures ActionFor(env, text, mode, f) == Block <==> CallsToBlock(env, text, mode, f)
    ensures ActionFor(env, text, mode, f) == Allow <==> LetThrough(env, text, f)
    ensures mode == Rewrite && !LetThrough(env, text, f) ==> ActionFor(env, text, mode, f) == RuleAction(env, f)
  {
    hide PolicyRules.Covers;
    LiveTokenOwned(env, text, f);
  }

  lemma LiveTokenOwned(env: Env, text: string, f: Finding)
    requires OnBoundaries(text, f.span)
    ensures f.dataClass.TokenNamespace? && Owned(env, text, f.span) <==> LiveToken(env, text, f)
  {
    hide Utf8.IsBoundary;
  }

  // ----- what the decisions imply

  /** A finding of a hard-block class is let through only as a live token of the same scope. */
  lemma HardBlockDecided(env: Env, text: string, mode: RewriteMode, f: Finding)
    requires PolicyRules.Covers(env.policy.categories) && f.dataClass.HardBlock()
    ensures ActionFor(env, text, mode, f)
         == if f.dataClass.TokenNamespace? && Owned(env, text, f.span) then Allow else Block
  {
    assert PolicyRules.Sanctioned(f.dataClass, env.policy.categories[f.dataClass.PolicyKey()]);
  }

  /**
   * Only restorable classes are tokenized, for a positive time of at most half an hour, and never where rewriting
   * is not possible.
   */
  lemma TokenizeDecided(env: Env, text: string, mode: RewriteMode, f: Finding)
    requires PolicyRules.Covers(env.policy.categories) && ActionFor(env, text, mode, f) == Tokenize
    ensures !f.dataClass.HardBlock() && mode.Rewrite?
    ensures 0 < PolicyRules.RuleFor(env.policy, f.dataClass).Ttl() <= PolicyRules.MAX_RESTORATION_TTL_SECONDS
  {
    assert PolicyRules.Sanctioned(f.dataClass, env.policy.categories[f.dataClass.PolicyKey()]);
  }

  predicate Has(fs: seq<Planned>, a: Action) {
    exists f :: f in fs && f.action == a
  }

  /** Overlap resolution neither loses nor invents a block. */
  lemma BlockKept(raw: seq<Planned>, out: seq<Planned>)
    requires Resolved(raw, out)
    ensures Has(out, Block) <==> Has(raw, Block)
  {
    if Has(out, Block) {
      var o :| o in out && o.action == Block;
      var w := PairingKept(raw, out, o);
    }
    if Has(raw, Block) {
      var f :| f in raw && f.action == Block;
      assert Housed(f, out);
      var o :| o in out && f.finding.span.Within(o.finding.span);
      var w := PairingKept(raw, out, o);
      assert o.action == Block;
    }
  }

  /** In a target that cannot be rewritten, a resolved finding is allowed or blocks. */
  lemma BlockOnlyResolved(env: Env, text: string, raw: seq<Planned>, out: seq<Planned>, o: Planned)
    requires PolicyRules.Covers(env.policy.categories) && Assessed(env, text, BlockOnly, raw) && Resolved(raw, out)
    requires o in out
    ensures o.action == Allow || o.action == Block
  {
    hide Assessed, PolicyRules.Covers, Detected;
    var w := PairingKept(raw, out, o);
    DecidedDetected(env, text, BlockOnly, raw, w);
  }

  /** A resolved finding that is tokenized has a restorable class and overlaps no blocked finding. */
  lemma TokenizeResolved(env: Env, text: string, mode: RewriteMode, raw: seq<Planned>, out: seq<Planned>, o: Planned)
    requires PolicyRules.Covers(env.policy.categories) && Assessed(env, text, mode, raw) && Resolved(raw, out)
    requires o in out
    requires o.action == Tokenize
    ensures !o.finding.dataClass.HardBlock() && mode.Rewrite?
    ensures 0 < PolicyRules.RuleFor(env.policy, o.finding.dataClass).Ttl() <= PolicyRules.MAX_RESTORATION_TTL_SECONDS
    ensures forall p ::
              p in raw && p.finding.span.Overlaps(o.finding.span) ==> p.action == Tokenize || p.action == Allow
  {
    hide Assessed, ActionFor, PolicyRules.Covers, Detected, Resolved;
    AssessedNonempty(env, text, mode, raw);
    ResolvedNonempty(raw, out, o);
    var w := PairingKept(raw, out, o);
    DecidedDetected(env, text, mode, raw, w);
    TokenizeDecided(env, text, mode, w.finding);
    forall p | p in raw && p.finding.span.Overlaps(o.finding.span)
      ensures p.action == Tokenize || p.action == Allow
    {
      var s, t := p.finding.span, o.finding.span;
      InsideWhenTouching(raw, out, p, o, if s.start < t.start then t.start else s.start);
    }
  }

  lemma ResolvedNonempty(raw: seq<Planned>, out: seq<Planned>, o: Planned)
    requires Resolved(raw, out) && o in out
    ensures o.finding.span.Nonempty()
  {
  }

  /** Resolved findings of an assessed text are disjoint and lie on character boundaries. */
  lemma ResolvedAligned(env: Env, text: string, mode: RewriteMode, raw: seq<Planned>, out: seq<Planned>)
    requires PolicyRules.Covers(env.policy.categories) && Assessed(env, text, mode, raw) && Resolved(raw, out)
    ensures Disjoint(out) && forall o :: o in out ==> OnBoundaries(text, o.finding.span)
  {
    hide Assessed, ActionFor, PolicyRules.Covers, Detected;
    forall o | o in out
      ensures OnBoundaries(text, o.finding.span)
    {
      EdgesAligned(env, text, mode, raw, out, o);
    }
  }

  lemma EdgesAligned(env: Env, text: string, mode: RewriteMode, raw: seq<Planned>, out: seq<Planned>, o: Planned)
    requires PolicyRules.Covers(env.policy.categories) && Assessed(env, text, mode, raw) && Resolved(raw, out)
    requires o in out
    ensures OnBoundaries(text, o.finding.span)
  {
    hide Assessed, ActionFor, PolicyRules.Covers, Detected, Resolved, Utf8.IsBoundary;
    var s := o.finding.span;
    ResolvedNonempty(raw, out, o);
    assert Covered(out, s.start) && Covered(out, s.end - 1);
    SameCoverage(raw, out, s.start);
    SameCoverage(raw, out, s.end - 1);
    var f :| f in raw && f.finding.span.Contains(s.start);
    var g :| g in raw && g.finding.span.Contains(s.end - 1);
    InsideWhenTouching(raw, out, f, o, s.start);
    InsideWhenTouching(raw, out, g, o, s.end - 1);
    DecidedDetected(env, text, mode, raw, f);
    DecidedDetected(env, text, mode, raw, g);
  }
}
