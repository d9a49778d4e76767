/**
 * The privacy engine (src/engine.rs): plan every target, block or rewrite, and restore display text. The
 * methods follow the source's loops; each error they return has its cause in the contract, so that the
 * errors that guard against the engine's own mistakes can be shown never to occur. The ledger is updated in place.
 */
module Engine {
  import opened Domain
  import opened InPlace
  import opened JsonTree
  import opened LedgerHistory
  import opened Outcomes
  import opened Overlaps
  import opened Payload
  import opened PayloadShape
  import opened Planning
  import opened Request
  import opened Rewrites
  import opened Rewriting
  import opened Summary
  import opened Transactions
  import opened Views
  import AcceptedShape
  import Display
  import Ledger
  import LedgerRuns
  import PolicyRules
  import Scan
  import Sorting
  import Tokens
  import Utf8
  import WorkingSet

  datatype EngineError =
    | Oversize
    | BadPayload(payload: PayloadError)
    | BadTarget(target: TargetError)
    | DetectorFailed(detector: DetectorError)
    | LedgerFailed(ledger: Ledger.LedgerError)
    | InvalidRewriteSpan
    | BlockedReachedRewrite

  datatype Outcome =
    | Forward(body: string, decision: Decision, summary: ProtectionSummary)
    | Blocked(summary: ProtectionSummary)

  // ----- planning

  /** The scanner reported a span that does not lie between characters of the text. */
  ghost predicate Misreported(scanner: Scan.Scanner, text: string) {
    exists findings: seq<Finding>, f: Finding ::
      Scan.Reports(scanner, text, findings) && f in findings && !OnBoundaries(text, f.span)
  }

  lemma NeverMisreported(env: Env, text: string)
    ensures !Misreported(env.scanner, text)
  {
    hide Scan.Reports, OnBoundaries, Detected;
    if Misreported(env.scanner, text) {
      var findings: seq<Finding>, f: Finding :|
        Scan.Reports(env.scanner, text, findings) && f in findings && !OnBoundaries(text, f.span);
      ReportDetected(env, text, findings, f);
    }
  }

  /** The text of the target gets through the scan. */
  ghost predicate Passes(scanner: Scan.Scanner, root: Json, t: Target) {
    ReadTarget(root, t).Ok? ==> Scan.Scannable(scanner, ReadTarget(root, t).value)
  }

  ghost predicate AllPass(scanner: Scan.Scanner, root: Json) {
    forall i {:trigger AllTargets(root)[i]} ::
      0 <= i < |AllTargets(root)| ==> Passes(scanner, root, AllTargets(root)[i])
  }

  /** The body is JSON and a request the gateway accepts. */
  ghost predicate Readable(codec: Codec, body: string) {
    codec.parse(body).Some? && Accepted(codec.parse(body).value)
  }

  // ----- rewriting

  /** What `apply_rewrites` keeps true of the ledger and of the tokens it has created. */
  ghost predicate LedgerTraced(start: Ledger.State, now: Ledger.State, scope: string, created: seq<string>) {
    Traced(start.entries, now.entries, scope, created) && now.maxEntries == start.maxEntries
  }

  /** The last operation on the ledger was an issue, and it failed with this error. */
  ghost predicate LedgerRefused(events: seq<LedgerRuns.Event>, e: EngineError) {
    && e.LedgerFailed? && e.ledger in {Ledger.RandomUnavailable, Ledger.TokenCollision, Ledger.ExpiryOverflow}
    && events != [] && events[|events| - 1].Issue? && events[|events| - 1].result == Err(e.ledger)
  }

  lemma TrackedIssue(random: Ledger.Random, start: Ledger.State, s: Ledger.State, a: Ledger.IssueArgs,
                     created: seq<string>, r: Result<Ledger.IssuedToken, Ledger.LedgerError>, s': Ledger.State)
    requires LedgerTraced(start, s, a.scope, created) && Restorable(s.entries) && Ledger.IssueStep(random, s, a, r, s')
    ensures LedgerTraced(start, s', a.scope, created + Creates(r))
    ensures r.Ok? ==> Tokens.IsToken(r.value.token)
    ensures r.Err? && a.value != "" && !a.dataClass.HardBlock() ==>
              r.error in {Ledger.RandomUnavailable, Ledger.TokenCollision, Ledger.ExpiryOverflow}
  {
    hide Ledger.IssueStep, Restorable, Traced, Transactions.Issuance, Tokens.IsToken;
    IssueIs(random, s, a, r, s');
    TracedIssue(start.entries, s.entries, a, created, r, s'.entries);
  }

  lemma SameFindings(fs: seq<Planned>, queue: seq<Planned>)
    requires queue == Sorting.Sort(Later, fs)
    ensures |queue| == |fs| && forall f :: f in queue ==> f in fs
  {
    hide Sorting.Sort;
    LaterTotal();
    Sorting.SortSorts(Later, fs);
    Sorting.SameMembers(queue, fs);
  }

  lemma RewritableBackwards(text: string, fs: seq<Planned>)
    requires Rewritable(text, fs)
    ensures |Sorting.Sort(Later, fs)| == |fs|
    ensures forall k :: 0 <= k < |fs| ==> Sorting.Sort(Later, fs)[k] == fs[|fs| - 1 - k]
  {
    SortedBackwards(fs);
  }

  lemma NothingIssued(ctx: WorkingSet.Context, h: History, start: Ledger.State, scope: string)
    requires PolicyRules.Covers(ctx.policy.categories) && |h.states| == |h.events| + 1 && h.states[|h.events|] == start
    ensures Kept(ctx, start, Journal([start], []), start, [])
    ensures Logged(ctx, h, |h.events|, Journal([start], []))
    ensures LedgerTraced(start, start, scope, [])
  {
  }

  method AnyFinding(s: ProtectionSummary, a: Action) returns (found: bool)
    ensures found <==> Reported(s, a)
  {
    for i := 0 to |s.findings|
      invariant forall k :: 0 <= k < i ==> s.findings[k].kind.action != a
    {
      if s.findings[i].kind.action == a {
        assert s.findings[i] in s.findings;
        return true;
      }
    }
    found := false;
  }

  lemma SettledStart(start: Ledger.State, nowMs: nat)
    ensures Settled(start, start, nowMs)
  {
  }

  lemma SurvivorsSettled(start: Ledger.State, now: Ledger.State, nowMs: nat)
    requires Settled(start, now, nowMs)
    ensures Survivors(start.entries, now.entries) && now.maxEntries == start.maxEntries
  {
    PurgedSubMap(start.entries, nowMs);
  }

  lemma ParsedValid(codec: Codec, body: string)
    requires SoundCodec(codec) && codec.parse(body).Some?
    ensures ValidStrings(codec.parse(body).value)
  {
  }

  /** Rolling back what rewriting created leaves survivors only. */
  lemma TracedBack(start: Ledger.State, settled: Ledger.State, now: Ledger.State, nowMs: nat,
                   scope: string, created: seq<string>)
    requires Settled(start, settled, nowMs) && LedgerTraced(settled, now, scope, created)
    ensures Survivors(start.entries, Ledger.AfterRollback(now, scope, created).entries)
  {
    RolledBack(settled.entries, now, scope, created);
    PurgedSubMap(start.entries, nowMs);
  }

  lemma KeptMeans(ctx: WorkingSet.Context, start: Ledger.State, j: Journal, now: Ledger.State, created: seq<string>)
    requires PolicyRules.Covers(ctx.policy.categories) && Kept(ctx, start, j, now, created)
    ensures WorkingSet.Chain(ctx, j.states, j.log) && j.states[0] == start && j.states[|j.log|] == now
  {
  }

  lemma RefusedKind(events: seq<LedgerRuns.Event>, e: EngineError)
    requires LedgerRefused(events, e)
    ensures e.LedgerFailed? && events != []
  {
  }

  // ----- the answer to a request

  /** What a request has to meet before anything is decided: its size, its form, and texts that can be scanned. */
  ghost predicate Admissible(policy: PolicyRules.Policy, scanner: Scan.Scanner, codec: Codec, body: string) {
    |body| <= policy.maxRequestBytes && Readable(codec, body) && AllPass(scanner, codec.parse(body).value)
  }

  /** The evidence is about this body as the engine found it. */
  ghost predicate About(env: Env, codec: Codec, body: string, ev: Evidence) {
    ev.env == env && Examined(ev) && codec.parse(body) == Some(ev.root)
  }

  /** Why a request was refused. The last operation on the ledger is taking back what the request created. */
  ghost predicate RefusedFor(env: Env, codec: Codec, body: string, events: seq<LedgerRuns.Event>,
                             e: EngineError, ev: Evidence)
  {
    match e
    case Oversize => |body| > env.policy.maxRequestBytes
    case BadPayload(_) => |body| <= env.policy.maxRequestBytes && !Readable(codec, body)
    case DetectorFailed(_) =>
      && |body| <= env.policy.maxRequestBytes && Readable(codec, body)
      && !AllPass(env.scanner, codec.parse(body).value)
    case LedgerFailed(_) =>
      && Admissible(env.policy, env.scanner, codec, body) && About(env, codec, body, ev)
      && !CallsForBlock(ev.raws) && Occurs(ev.plans, Tokenize)
      && events != [] && LedgerRefused(events[..|events| - 1], e)
    case BadTarget(t) =>
      && Admissible(env.policy, env.scanner, codec, body) && About(env, codec, body, ev)
      && Justified(ev) && codec.encode(ev.after).None? && t == SerializeFailed
    case InvalidRewriteSpan => false
    case BlockedReachedRewrite => false
  }

  /** What a request that is not refused comes to. */
  ghost predicate AnsweredBy(env: Env, codec: Codec, body: string, answer: Outcome, ev: Evidence) {
    && Admissible(env.policy, env.scanner, codec, body) && About(env, codec, body, ev)
    && (answer.Blocked? <==> CallsForBlock(ev.raws))
    && Tallied(AllKinds(ev.plans, |ev.plans|), answer.summary.findings)
    && answer.summary.scannedFields == Saturated(|ev.plans|)
    && (answer.Forward? ==>
          && Justified(ev) && codec.encode(ev.after) == Some(answer.body)
          && (answer.decision == Rewritten <==> Occurs(ev.plans, Mask) || Occurs(ev.plans, Tokenize)))
  }

  /** The lookups of the candidates from `k` on, last one first. */
  function Lookups(s: Ledger.State, scope: string, text: string, cs: seq<Span>, k: nat,
                   nowMs: nat): seq<LedgerRuns.Event>
    requires k <= |cs| && forall c :: c in cs ==> c.start <= c.end <= |text|
    decreases |cs| - k
  {
    if k == |cs| then []
    else
      var token := text[cs[k].start..cs[k].end];
      Lookups(s, scope, text, cs, k + 1, nowMs)
      + [LedgerRuns.Restore(scope, token, nowMs, Ledger.Lookup(s, scope, token, nowMs))]
  }

  class PrivacyEngine {
    const policy: PolicyRules.Policy
    const scanner: Scan.Scanner
    const codec: Codec
    const ledger: Ledger.TokenLedger
    ghost var past: History

    ghost predicate Valid()
      reads this`past, ledger
    {
      && PolicyRules.Covers(policy.categories) && Scan.SoundScanner(scanner) && SoundCodec(codec)
      && Leads(ledger.random, past, ledger.Now())
    }

    /** A request of this scope and time began when the history was `base`, and has created these tokens. */
    ghost predicate Serving(base: History, scope: string, nowMs: nat, created: seq<string>)
      reads this`past, ledger
    {
      Underway(ledger.random, base, past, ledger.Now(), scope, nowMs, created)
    }

    /** The journal of the request so far is the last stretch of the history. */
    ghost predicate Journaled(ctx: WorkingSet.Context, start: Ledger.State, j: Journal, created: seq<string>)
      requires PolicyRules.Covers(ctx.policy.categories)
      reads this`past, ledger
    {
      Kept(ctx, start, j, ledger.Now(), created) && Logged(ctx, past, |past.events|, j)
    }

    constructor (policy: PolicyRules.Policy, scanner: Scan.Scanner, codec: Codec, ledger: Ledger.TokenLedger)
      requires PolicyRules.Covers(policy.categories) && Scan.SoundScanner(scanner) && SoundCodec(codec)
      requires 1 <= ledger.maxEntries && ledger.Now() == Ledger.State(map[], ledger.maxEntries, 0, 0)
      ensures Valid() && past == History([ledger.Now()], [])
      ensures this.policy == policy && this.scanner == scanner && this.codec == codec && this.ledger == ledger
    {
      LeadsFrom(ledger.random, ledger.Now());
      this.policy := policy;
      this.scanner := scanner;
      this.codec := codec;
      this.ledger := ledger;
      this.past := History([ledger.Now()], []);
    }

    /** `with_random`: an engine for a validated policy, over an empty ledger. */
    static method WithRandom(policy: PolicyRules.Policy, scanner: Scan.Scanner, codec: Codec,
                             random: Ledger.Random, capacity: nat)
      returns (r: Result<PrivacyEngine, EngineError>)
      requires PolicyRules.Validate(policy).Ok? && Scan.SoundScanner(scanner) && SoundCodec(codec)
      ensures r.Ok? <==> 1 <= capacity <= Ledger.MAX_CAPACITY
      ensures r.Err? ==> r.error == LedgerFailed(Ledger.InvalidCapacity)
      ensures r.Ok? ==> fresh(r.value) && fresh(r.value.ledger) && r.value.Valid()
      ensures r.Ok? ==> r.value.policy == policy && r.value.scanner == scanner && r.value.codec == codec
      ensures r.Ok? ==> r.value.ledger.Now() == Ledger.State(map[], capacity, 0, 0) && r.value.ledger.random == random
    {
      hide PolicyRules.Validate, PolicyRules.Covers;
      PolicyRules.ValidateIff(policy);
      var created := Ledger.TokenLedger.WithRandom(capacity, random);
      match created
      case Err(e) => return Err(LedgerFailed(e));
      case Ok(tokens) =>
        var engine := new PrivacyEngine(policy, scanner, codec, tokens);
        r := Ok(engine);
    }

    method Decide(text: string, mode: RewriteMode, findings: seq<Finding>, scope: string, nowMs: nat,
                  ghost env: Env, ghost base: History)
      returns (r: Result<seq<Planned>, EngineError>)
      requires PolicyRules.Covers(policy.categories) && env == Env(policy, scanner, env.ledger, scope, nowMs)
      requires Settled(env.ledger, ledger.Now(), nowMs) && Serving(base, scope, nowMs, [])
      modifies ledger`entries, this`past
      ensures Settled(env.ledger, ledger.Now(), nowMs) && Serving(base, scope, nowMs, [])
      ensures r.Ok? ==> Decided(env, text, mode, findings, r.value)
      ensures r.Err? ==> r.error == InvalidRewriteSpan && exists f :: f in findings && !OnBoundaries(text, f.span)
    {
      hide Settled, Ledger.Lookup, Ledger.AfterPurge, Utf8.IsBoundary, PolicyRules.Covers, Decided, Underway;
      DecidedNothing(env, text, mode);
      assert findings[..0] == [];
      var raw: seq<Planned> := [];
      for i := 0 to |findings|
        invariant Settled(env.ledger, ledger.Now(), nowMs) && Serving(base, scope, nowMs, [])
        invariant Decided(env, text, mode, findings[..i], raw)
      {
        var finding := findings[i];
        var action := PolicyRules.RuleFor(policy, finding.dataClass).action;
        if finding.dataClass.TokenNamespace? {
          match Slice(text, finding.span)
          case None =>
            assert finding in findings;
            return Err(InvalidRewriteSpan);
          case Some(candidate) =>
            SettledLookup(env.ledger, ledger.Now(), nowMs, scope, candidate);
            UnderwayPurged(ledger.random, base, past, ledger.Now(), scope, nowMs, []);
            var owned := ledger.OwnsToken(scope, candidate, nowMs);
            past := With(past, LedgerRuns.Purge(nowMs), ledger.Now());
            if owned {
              action := Allow;
            }
        }
        if mode.BlockOnly? && action != Allow {
          action := Block;
        }
        DecidedStep(env, text, mode, findings[..i], raw, finding);
        assert findings[..i + 1] == findings[..i] + [finding];
        raw := raw + [Planned(finding, action)];
      }
      assert findings[..|findings|] == findings;
      r := Ok(raw);
    }

    method PlanTarget(request: ValidatedRequest, index: nat, scope: string, nowMs: nat, ghost env: Env,
                      ghost base: History)
      returns (r: Result<TargetPlan, EngineError>, ghost raw: seq<Planned>)
      requires PolicyRules.Covers(policy.categories) && Scan.SoundScanner(scanner) && index < |request.targets|
      requires var text := ReadTarget(request.value, request.targets[index]); text.Ok? ==> Utf8.Valid(text.value)
      requires env == Env(policy, scanner, env.ledger, scope, nowMs)
      requires Settled(env.ledger, ledger.Now(), nowMs) && Serving(base, scope, nowMs, [])
      modifies ledger`entries, this`past
      ensures Settled(env.ledger, ledger.Now(), nowMs) && Serving(base, scope, nowMs, [])
      ensures r.Ok? ==> PlanOk(env, request.value, request.targets[index], index, r.value, raw)
      ensures r.Ok? ==> Passes(scanner, request.value, request.targets[index])
      ensures r.Err? && r.error.DetectorFailed? ==>
                && r.error.detector in {InvalidPercentEncoding, NormalizationLimit}
                && !Passes(scanner, request.value, request.targets[index])
      ensures r.Err? && !r.error.DetectorFailed? ==>
                || ReadTarget(request.value, request.targets[index]).Err?
                || Misreported(scanner, ReadTarget(request.value, request.targets[index]).value)
    {
      hide PolicyRules.Covers, Scan.SoundScanner, Settled, Utf8.Valid, Scan.Reports, ActionFor, Resolved, OnBoundaries;
      hide Scan.Searchable, Scan.Scannable, ReadTarget, Detected, Serving;
      raw := [];
      var target := request.targets[index];
      var read := request.Text(target);
      match read
      case Err(e) => r := Err(BadTarget(e));
      case Ok(text) =>
        var scanned := Scan.ScanSource(scanner, text);
        match scanned
        case Err(e) => r := Err(DetectorFailed(e));
        case Ok(findings) =>
          var decided := Decide(text, target.mode, findings, scope, nowMs, env, base);
          match decided
          case Err(e) => r := Err(e);
          case Ok(pairs) =>
            assert Assessed(env, text, target.mode, pairs);
            AssessedNonempty(env, text, target.mode, pairs);
            raw := pairs;
            var merged := ResolveOverlaps(pairs);
            r := Ok(TargetPlan(index, target.fieldClass, text, merged));
    }

    method PlanAll(request: ValidatedRequest, scope: string, nowMs: nat, ghost env: Env, ghost base: History)
      returns (r: Result<seq<TargetPlan>, EngineError>, ghost raws: seq<seq<Planned>>)
      requires PolicyRules.Covers(policy.categories) && Scan.SoundScanner(scanner)
      requires request.Valid() && request.value == request.parsed && ValidStrings(request.value)
      requires env == Env(policy, scanner, env.ledger, scope, nowMs)
      requires Settled(env.ledger, ledger.Now(), nowMs) && Serving(base, scope, nowMs, [])
      modifies ledger`entries, this`past
      ensures Settled(env.ledger, ledger.Now(), nowMs) && Serving(base, scope, nowMs, [])
      ensures r.Ok? <==> AllPass(scanner, request.parsed)
      ensures r.Ok? ==> PlansOk(env, request.parsed, r.value, raws)
      ensures r.Err? ==> r.error.DetectorFailed? && r.error.detector in {InvalidPercentEncoding, NormalizationLimit}
    {
      hide PolicyRules.Covers, Scan.SoundScanner, Settled, Utf8.Valid, PlanOk, Accepted, AllTargets, SameShape;
      hide Misreported, ValidStrings, ReadTarget, Serving, Passes;
      var plans: seq<TargetPlan> := [];
      raws := [];
      for i := 0 to |request.targets|
        invariant Settled(env.ledger, ledger.Now(), nowMs) && Serving(base, scope, nowMs, [])
        invariant |plans| == |raws| == i
        invariant forall k :: 0 <= k < i ==> PlanOk(env, request.parsed, request.targets[k], k, plans[k], raws[k])
        invariant forall k :: 0 <= k < i ==> Passes(scanner, request.parsed, request.targets[k])
      {
        TargetsValid(request.parsed, request.targets[i]);
        var plan, raw := PlanTarget(request, i, scope, nowMs, env, base);
        match plan {
          case Err(e) =>
            NeverMisreported(env, ReadTarget(request.value, request.targets[i]).value);
            return Err(e), raws;
          case Ok(p) =>
            plans := plans + [p];
            raws := raws + [raw];
        }
      }
      r := Ok(plans);
    }

    /** The token or the mask that replaces one finding. */
    method Replacement(original: string, f: Planned, scope: string, nowMs: nat, created: seq<string>,
                       ghost ctx: WorkingSet.Context, ghost base: History, ghost start: Ledger.State, ghost j: Journal)
      returns (r: Result<string, EngineError>, all: seq<string>, ghost j': Journal)
      requires PolicyRules.Covers(policy.categories) && ctx == WorkingSet.Context(ledger.random, policy, scope, nowMs)
      requires original != "" && (f.action == Tokenize ==> !f.finding.dataClass.HardBlock()) && f.action != Allow
      requires Journaled(ctx, start, j, created) && LedgerTraced(start, ledger.Now(), scope, created)
      requires Serving(base, scope, nowMs, created)
      modifies ledger, this`past
      ensures LedgerTraced(start, ledger.Now(), scope, all) && Serving(base, scope, nowMs, all)
      ensures r.Ok? ==> Journaled(ctx, start, j', all) && j.log <= j'.log && r.value != "" && r.value[0] == '['
      ensures r.Ok? ==> if f.action == Mask then r.value == Tokens.MaskText(f.finding.dataClass)
                        else f.action == Tokenize && IssuedFor(j'.log, f.finding.dataClass, original, r.value)
      ensures r.Ok? ==> forall q :: q in j'.log ==> q in j.log || IsIssueOf(q, f, original)
      ensures r.Err? ==> || (LedgerRefused(past.events, r.error) && f.action == Tokenize)
                         || (r.error == BlockedReachedRewrite && f.action == Block)
    {
      hide PolicyRules.Covers, LedgerTraced, Kept, Underway, Logged, Ledger.IssueStep, Tokens.IsToken, Restorable;
      j', all := j, created;
      match f.action
      case Block => r := Err(BlockedReachedRewrite);
      case Mask =>
        MaskOpens(f.finding.dataClass);
        r := Ok(Tokens.MaskText(f.finding.dataClass));
      case Tokenize =>
        var rule := PolicyRules.RuleFor(policy, f.finding.dataClass);
        var args := Ledger.IssueArgs(scope, f.finding.dataClass, original, nowMs, rule.Ttl());
        PolicyRules.TtlBounded(policy, f.finding.dataClass);
        ghost var s := ledger.Now();
        UnderwayMeans(ledger.random, base, past, s, scope, nowMs, created);
        var issued := ledger.IssueTracked(args);
        TrackedIssue(ledger.random, start, s, args, created, issued, ledger.Now());
        UnderwayIssued(ledger.random, base, past, s, args, created, issued, ledger.Now());
        ghost var event := LedgerRuns.Issue(args, issued);
        ghost var before := past;
        past := With(past, event, ledger.Now());
        assert past.events[|past.events| - 1] == event;
        match issued {
          case Err(e) =>
            assert created + [] == created;
            r := Err(LedgerFailed(e));
          case Ok(token) =>
            ghost var record := Issued(f.finding.dataClass, original, token.token, token.created);
            assert token == Ledger.IssuedToken(token.token, token.created);
            KeptStep(ctx, start, j, s, created, record, ledger.Now());
            LoggedStep(ctx, before, j, record, event, ledger.Now());
            j' := Journal(j.states + [ledger.Now()], j.log + [record]);
            assert j'.log[|j.log|] == record;
            TokenOpens(token.token);
            if token.created {
              all := all + [token.token];
            } else {
              assert created + [] == created;
            }
            r := Ok(token.token);
        }
      case Allow =>
    }

    /** The inner loop of `apply_rewrites`: replaces the findings of one text in place, last one first. */
    method RewriteText(plan: TargetPlan, scope: string, nowMs: nat, created: seq<string>,
                       ghost ctx: WorkingSet.Context, ghost base: History, ghost start: Ledger.State, ghost j: Journal)
      returns (r: Result<string, EngineError>, all: seq<string>, ghost j': Journal, ghost edits: seq<Edit>)
      requires PolicyRules.Covers(policy.categories) && ctx == WorkingSet.Context(ledger.random, policy, scope, nowMs)
      requires AllNonempty(plan.findings) && SafelyTokenized(plan.findings)
      requires Journaled(ctx, start, j, created) && LedgerTraced(start, ledger.Now(), scope, created)
      requires Serving(base, scope, nowMs, created)
      modifies ledger, this`past
      ensures LedgerTraced(start, ledger.Now(), scope, all) && Serving(base, scope, nowMs, all)
      ensures r.Ok? ==> Journaled(ctx, start, j', all) && GrownFrom(plan, j.log, j'.log)
      ensures r.Ok? && Rewritable(plan.original, plan.findings) ==>
                && Edits(plan.original, Actionable(plan.findings), edits, j'.log) && Fits(edits, 0, |plan.original|)
                && r.value == Splice(plan.original, edits, 0)
      ensures r.Err? ==> || (LedgerRefused(past.events, r.error) && Has(plan.findings, Tokenize))
                         || (r.error == InvalidRewriteSpan && !Rewritable(plan.original, plan.findings))
                         || (r.error == BlockedReachedRewrite && Has(plan.findings, Block))
    {
      hide PolicyRules.Covers, LedgerTraced, Journaled, Serving, Partway, Rewritable, Sorting.Sort, Edits, Splice, Fits;
      hide LedgerRefused, Later, FromPlan, Tokens.IsToken, IsIssueOf;
      ghost var sane := Rewritable(plan.original, plan.findings);
      var text, fs := plan.original, plan.findings;
      var rewritten := text;
      var queue := Sorting.Sort(Later, fs);
      SameFindings(fs, queue);
      all, j', edits := created, j, [];
      ghost var limit: nat := |text|;
      if sane {
        PartwayStarts(text, fs, j.log);
        RewritableBackwards(text, fs);
      }
      for i := 0 to |queue|
        invariant LedgerTraced(start, ledger.Now(), scope, all) && Serving(base, scope, nowMs, all)
        invariant Journaled(ctx, start, j', all) && GrownFrom(plan, j.log, j'.log)
        invariant sane ==> Partway(text, fs, |fs| - i, edits, limit, rewritten, j'.log)
      {
        var f := queue[i];
        ghost var k := |fs| - i;
        assert f in queue && f in fs;
        if f.action == Allow {
          if sane {
            PartwaySkip(text, fs, k, edits, limit, rewritten, j'.log);
          }
        } else {
          var s := f.finding.span;
          if sane {
            PartwayBoundaries(text, fs, k, edits, limit, rewritten, j'.log);
          }
          if !Utf8.IsBoundary(rewritten, s.start) || !Utf8.IsBoundary(rewritten, s.end) {
            return Err(InvalidRewriteSpan), all, j', edits;
          }
          var sliced := Slice(text, s);
          if sliced.None? {
            return Err(InvalidRewriteSpan), all, j', edits;
          }
          var replacement: Result<string, EngineError>;
          ghost var before := j'.log;
          replacement, all, j' := Replacement(sliced.value, f, scope, nowMs, all, ctx, base, start, j');
          match replacement {
            case Err(e) => return Err(e), all, j', edits;
            case Ok(put) =>
              GrownStep(plan, f, sliced.value, j.log, before, j'.log);
              if sane {
                assert j'.log == before + j'.log[|before|..];
                PartwayLonger(text, fs, k, edits, limit, rewritten, before, j'.log[|before|..]);
                PartwayStep(text, fs, k, edits, limit, rewritten, j'.log, put);
              }
              rewritten := rewritten[..s.start] + put + rewritten[s.end..];
              edits, limit := [Edit(s, put)] + edits, s.start;
          }
        }
      }
      if sane {
        PartwayWhole(text, fs, edits, limit, rewritten, j'.log);
      }
      r := Ok(rewritten);
    }

    /** One round of the outer loop of `apply_rewrites`. */
    method RewritePlan(request: ValidatedRequest, plan: TargetPlan, scope: string, nowMs: nat, created: seq<string>,
                       ghost ctx: WorkingSet.Context, ghost base: History, ghost start: Ledger.State, ghost j: Journal)
      returns (error: Option<EngineError>, all: seq<string>, ghost j': Journal, ghost edits: seq<Edit>)
      requires PolicyRules.Covers(policy.categories) && ctx == WorkingSet.Context(ledger.random, policy, scope, nowMs)
      requires request.Valid() && AllNonempty(plan.findings) && SafelyTokenized(plan.findings)
      requires Journaled(ctx, start, j, created) && LedgerTraced(start, ledger.Now(), scope, created)
      requires Serving(base, scope, nowMs, created)
      modifies ledger, this`past, request`value
      ensures request.Valid() && LedgerTraced(start, ledger.Now(), scope, all) && Serving(base, scope, nowMs, all)
      ensures error.None? ==> Journaled(ctx, start, j', all) && GrownFrom(plan, j.log, j'.log)
      ensures error.None? && Rewritable(plan.original, plan.findings) ==>
                && EditsOk(plan, edits, j'.log)
                && request.value == Written(old(request.value), request.targets, plan, Splice(plan.original, edits, 0))
      ensures error.Some? ==> || (LedgerRefused(past.events, error.value) && Has(plan.findings, Tokenize))
                              || !Rewritable(plan.original, plan.findings)
                              || Has(plan.findings, Block) || Unwritable(old(request.value), request.targets, plan)
    {
      hide PolicyRules.Covers, LedgerTraced, Journaled, Serving, Rewritable, GrownFrom, Edits, Splice, Fits;
      hide LedgerRefused, Has, Accepted, AllTargets, SameShape;
      var rewritten: Result<string, EngineError>;
      rewritten, all, j', edits := RewriteText(plan, scope, nowMs, created, ctx, base, start, j);
      match rewritten
      case Err(e) => error := Some(e);
      case Ok(text) =>
        error := None;
        if Rewritable(plan.original, plan.findings) {
          UneditedIsOriginal(plan.original, plan.findings, edits, j'.log);
        }
        if text != plan.original {
          var failure := request.ReplaceText(plan.targetIndex, text);
          if failure.Some? {
            error := Some(BadTarget(failure.value));
          }
        }
    }

    method ApplyRewrites(request: ValidatedRequest, plans: seq<TargetPlan>, scope: string, nowMs: nat,
                         ghost ctx: WorkingSet.Context, ghost env: Env, ghost raws: seq<seq<Planned>>,
                         ghost base: History)
      returns (error: Option<EngineError>, created: seq<string>, ghost j: Journal, ghost edits: seq<seq<Edit>>)
      requires PolicyRules.Covers(policy.categories) && ctx == WorkingSet.Context(ledger.random, policy, scope, nowMs)
      requires env.policy == policy && request.Valid() && request.value == request.parsed
      requires PlansOk(env, request.parsed, plans, raws) && !Occurs(plans, Block) && Serving(base, scope, nowMs, [])
      modifies ledger, this`past, request`value
      ensures request.Valid() && LedgerTraced(old(ledger.Now()), ledger.Now(), scope, created)
      ensures Serving(base, scope, nowMs, created)
      ensures error.None? ==> Journaled(ctx, old(ledger.Now()), j, created)
                              && RewritesOk(request.parsed, request.value, plans, edits, j.log) && AllFrom(plans, j.log)
      ensures error.Some? ==> LedgerRefused(past.events, error.value) && Occurs(plans, Tokenize)
    {
      hide PolicyRules.Covers, LedgerTraced, Journaled, Serving, Rewritable, EditsOk, LedgerRefused, Accepted;
      hide AllTargets;
      hide SameShape, Written, Unwritable, PlanOk, Has, FromPlan, SafelyTokenized, AllNonempty, Occurs;
      ghost var start := ledger.Now();
      created, edits, j := [], [], Journal([start], []);
      StartsJournaled(ctx, base, scope, nowMs);
      ProgressStarts(env, request.parsed, plans, raws, []);
      for i := 0 to |plans|
        invariant request.Valid() && LedgerTraced(start, ledger.Now(), scope, created)
        invariant Serving(base, scope, nowMs, created) && Journaled(ctx, start, j, created)
        invariant Progress(request.parsed, request.value, plans, edits, j.log, i) && AllFrom(plans, j.log)
      {
        ghost var t := request.targets[i];
        PlanAt(env, request.parsed, plans, raws, i);
        PlanFacts(env, request.parsed, t, i, plans[i], raws[i]);
        ghost var value, before := request.value, j.log;
        ghost var more: seq<Edit>;
        error, created, j, more := RewritePlan(request, plans[i], scope, nowMs, created, ctx, base, start, j);
        WritableAt(env, request.parsed, value, plans, i, raws[i]);
        HasOccurs(plans, i, Tokenize);
        if error.Some? {
          return;
        }
        AllFromGrows(plans, i, before, j.log);
        ProgressStep(request.parsed, value, plans, edits, before, i, more, j.log, request.value);
        edits := edits + [more];
      }
      error := None;
      ProgressWhole(request.parsed, request.value, plans, edits, j.log);
    }

    lemma StartsJournaled(ctx: WorkingSet.Context, base: History, scope: string, nowMs: nat)
      requires PolicyRules.Covers(ctx.policy.categories) && Serving(base, scope, nowMs, [])
      ensures Journaled(ctx, ledger.Now(), Journal([ledger.Now()], []), [])
      ensures LedgerTraced(ledger.Now(), ledger.Now(), scope, [])
    {
      hide Underway, Kept, Logged, LedgerTraced, PolicyRules.Covers;
      UnderwayMeans(ledger.random, base, past, ledger.Now(), scope, nowMs, []);
      NothingIssued(ctx, past, ledger.Now(), scope);
    }

    /** Takes back what a request has created, the last thing a failing request does. */
    method RollBack(scope: string, nowMs: nat, created: seq<string>, ghost base: History)
      requires Serving(base, scope, nowMs, created)
      modifies ledger`entries, this`past
      ensures ledger.Now() == Ledger.AfterRollback(old(ledger.Now()), scope, created)
      ensures Leads(ledger.random, past, ledger.Now()) && Continues(base, past)
      ensures OwnWork(past.events, |base.events|, scope, nowMs)
      ensures past.events == old(past.events) + [LedgerRuns.Rollback(scope, created)]
    {
      hide Underway, Leads, Continues, OwnWork, Ledger.AfterRollback, Restorable;
      UnderwayRolledBack(ledger.random, base, past, ledger.Now(), scope, nowMs, created);
      ledger.RollbackCreated(scope, created);
      past := With(past, LedgerRuns.Rollback(scope, created), ledger.Now());
      UnderwayMeans(ledger.random, base, past, ledger.Now(), scope, nowMs, created);
    }

    /**
     * A request is refused for its size, for its payload, because a text of it cannot be scanned, because the
     * ledger could not issue a token for it, or because the edited value cannot be serialized; otherwise it is
     * blocked or forwarded with its findings replaced.
     */
    method Protect(body: string, scope: string, nowMs: nat)
      returns (r: Result<Outcome, EngineError>, ghost ev: Evidence)
      requires Valid()
      modifies ledger, this`past
      ensures Valid() && Continues(old(past), past) && OwnWork(past.events, |old(past).events|, scope, nowMs)
      ensures var env := Env(policy, scanner, old(ledger.Now()), scope, nowMs);
              match r
              case Err(e) =>
                RefusedFor(env, codec, body, past.events, e, ev) && Survivors(old(ledger.entries), ledger.entries)
              case Ok(answer) =>
                && AnsweredBy(env, codec, body, answer, ev) && ev.random == ledger.random
                && if answer.Blocked? then Settled(old(ledger.Now()), ledger.Now(), nowMs)
                   else Logged(ContextOf(ev), past, |past.events|, ev.journal)
    {
      hide PolicyRules.Covers, Scan.SoundScanner, SoundCodec, Leads, LedgerTraced, Settled, PlansOk, Accepted;
      hide ValidStrings, AcceptedShape.RequestShape;
      hide AllTargets, SameShape, RewritesOk, Tallied, AllKinds, Occurs, Reported, Survivors, Kept, CallsForBlock;
      hide AllPass, OwnWork, Continues, Logged, Underway, LedgerRefused, Ledger.AfterRollback;
      ghost var start, base := ledger.Now(), past;
      ghost var env := Env(policy, scanner, start, scope, nowMs);
      ev := Evidence(env, ledger.random, Null, [], [], [], Journal([start], []), Null);
      SettledStart(start, nowMs);
      SurvivorsSettled(start, start, nowMs);
      UnderwayStarts(ledger.random, base, start, scope, nowMs);
      UnderwayMeans(ledger.random, base, base, start, scope, nowMs, []);
      if |body| > policy.maxRequestBytes {
        return Err(Oversize), ev;
      }
      var parsed := ValidatedRequest.Parse(codec, body);
      match parsed
      case Err(e) => return Err(BadPayload(e)), ev;
      case Ok(request) =>
        ParsedValid(codec, body);
        var planned: Result<seq<TargetPlan>, EngineError>;
        ghost var raws: seq<seq<Planned>>;
        planned, raws := PlanAll(request, scope, nowMs, env, base);
        ghost var settled := ledger.Now();
        SurvivorsSettled(start, settled, nowMs);
        UnderwayMeans(ledger.random, base, past, settled, scope, nowMs, []);
        match planned {
          case Err(e) => return Err(e), ev;
          case Ok(plans) =>
            ev := ev.(root := request.parsed, plans := plans, raws := raws);
            BlocksWhenCalledFor(env, ev.root, plans, raws);
            var summary := Summarize(plans);
            ActionsReported(plans, summary, Block);
            ActionsReported(plans, summary, Mask);
            ActionsReported(plans, summary, Tokenize);
            var blocked := AnyFinding(summary, Block);
            if blocked {
              return Ok(Blocked(summary)), ev;
            }
            var error, created;
            ghost var j: Journal;
            ghost var edits: seq<seq<Edit>>;
            error, created, j, edits := ApplyRewrites(request, plans, scope, nowMs, ContextOf(ev), env, raws, base);
            TracedBack(start, settled, ledger.Now(), nowMs, scope, created);
            UnderwayMeans(ledger.random, base, past, ledger.Now(), scope, nowMs, created);
            if error.Some? {
              RefusedKind(past.events, error.value);
              RollBack(scope, nowMs, created, base);
              return Err(error.value), ev;
            }
            ev := ev.(edits := edits, journal := j, after := request.value);
            KeptMeans(ContextOf(ev), settled, j, ledger.Now(), created);
            var serialized := request.Serialize(codec);
            match serialized {
              case Err(e) =>
                RollBack(scope, nowMs, created, base);
                return Err(BadTarget(e)), ev;
              case Ok(text) =>
                var masked := AnyFinding(summary, Mask);
                var tokenized := AnyFinding(summary, Tokenize);
                r := Ok(Forward(text, if masked || tokenized then Rewritten else Allowed, summary));
            }
        }
    }

    /** Looks up every token in the text, last one first, and puts the values in place. */
    method RestoreDisplayText(scope: string, text: string, nowMs: nat) returns (restored: string)
      requires Valid()
      modifies ledger, this`past
      ensures Valid() && Continues(old(past), past)
      ensures restored == Tokens.Restored(text, Display.Asking(old(ledger.Now()), scope, nowMs))
      ensures (forall c :: c in Display.Candidates(text, 0) ==> c.start < c.end <= |text|)
              && var start, cs := old(ledger.Now()), Display.Candidates(text, 0);
                 && ledger.Now() == Display.AfterRestores(start, scope, text, cs, 0, nowMs)
                 && past.events == old(past.events) + Lookups(start, scope, text, cs, 0, nowMs)
    {
      hide Tokens.Restored, Display.Candidates, Display.Answered, Ledger.Lookup, Ledger.AfterRestore, Splice, Fits;
      hide Tail;
      hide Leads, PolicyRules.Covers, Scan.SoundScanner, SoundCodec;
      ghost var start := ledger.Now();
      ghost var lookup := Display.Asking(start, scope, nowMs);
      var candidates := Display.FindCandidates(text);
      Display.AnswersRestore(text, 0, lookup);
      assert text[0..] == text;
      restored := text;
      ghost var limit: nat := |text|;
      TailStarts(text);
      assert candidates[|candidates|..] == [] && Display.Answered(text, [], lookup) == [] by {
        Display.NothingAnswered(text, lookup);
      }
      for i := |candidates| downto 0
        invariant limit <= |text| && (forall k :: 0 <= k < i ==> candidates[k].end <= limit)
        invariant Tail(text, Display.Answered(text, candidates[i..], lookup), limit, restored)
        invariant ledger.Now() == Display.AfterRestores(start, scope, text, candidates, i, nowMs)
        invariant Leads(ledger.random, past, ledger.Now()) && Continues(old(past), past)
        invariant past.events == old(past.events) + Lookups(start, scope, text, candidates, i, nowMs)
      {
        var c := candidates[i];
        assert c in candidates;
        var token := text[c.start..c.end];
        Display.LookupsKept(start, scope, text, candidates, i + 1, nowMs, token);
        ghost var before := ledger.Now();
        var value := ledger.RestoreExact(scope, token, nowMs);
        ghost var event := LedgerRuns.Restore(scope, token, nowMs, value);
        LeadsOn(ledger.random, past, before, event, ledger.Now());
        past := With(past, event, ledger.Now());
        Display.AnswerStep(text, candidates, i, limit, restored, lookup);
        if value.Some? {
          restored := restored[..c.start] + value.value + restored[c.end..];
        }
        limit := c.start;
        Display.CandidatesApart(text, 0, i);
      }
      assert candidates[0..] == candidates;
      TailWhole(text, Display.Answered(text, candidates, lookup), limit, restored);
    }

    method ClearScope(scope: string) returns (removed: int)
      requires Valid()
      modifies ledger`entries, this`past
      ensures Valid() && past == With(old(past), LedgerRuns.Clear(scope), ledger.Now())
      ensures ledger.Now() == Ledger.AfterClear(old(ledger.Now()), scope)
      ensures removed == |old(ledger.entries)| - |ledger.entries|
    {
      hide Leads;
      ghost var before := ledger.Now();
      removed := ledger.ClearScope(scope);
      LeadsOn(ledger.random, past, before, LedgerRuns.Clear(scope), ledger.Now());
      past := With(past, LedgerRuns.Clear(scope), ledger.Now());
    }

    method LedgerEntryCount(nowMs: nat) returns (count: nat)
      requires Valid()
      modifies ledger`entries, this`past
      ensures Valid() && past == With(old(past), LedgerRuns.Purge(nowMs), ledger.Now())
      ensures ledger.Now() == Ledger.AfterPurge(old(ledger.Now()), nowMs) && count == |ledger.entries|
    {
      hide Leads;
      ghost var before := ledger.Now();
      count := ledger.EntryCount(nowMs);
      LeadsOn(ledger.random, past, before, LedgerRuns.Purge(nowMs), ledger.Now());
      past := With(past, LedgerRuns.Purge(nowMs), ledger.Now());
    }
  }
}
