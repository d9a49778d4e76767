/**
 * The history of the ledger inside one engine (src/engine.rs): every operation the engine has made since
 * the ledger was created, with the states in between.
 */
module LedgerHistory {
  import opened Domain
  import opened Ledger
  import opened LedgerRuns
  import opened Rewriting
  import opened Transactions
  import PolicyRules
  import Tokens
  import WorkingSet

  datatype History = History(states: seq<State>, events: seq<Event>)

  /** No token is issued for longer than a validated policy allows. */
  predicate Timely(e: Event) {
    e.Issue? ==> e.args.ttlSeconds <= PolicyRules.MAX_RESTORATION_TTL_SECONDS
  }

  /** The history starts with an empty ledger and leads to `now`. */
  ghost predicate Leads(random: Random, h: History, now: State) {
    && Run(random, h.states, h.events) && h.states[|h.events|] == now
    && forall i {:trigger Timely(h.events[i])} :: 0 <= i < |h.events| ==> Timely(h.events[i])
  }

  ghost predicate Continues(h: History, longer: History) {
    h.states <= longer.states && h.events <= longer.events
  }

  /** One more operation. */
  function With(h: History, e: Event, s: State): History {
    History(h.states + [s], h.events + [e])
  }

  lemma LeadsFrom(random: Random, s: State)
    requires 1 <= s.maxEntries && s == State(map[], s.maxEntries, 0, 0)
    ensures Leads(random, History([s], []), s)
  {
  }

  lemma LeadsOn(random: Random, h: History, s: State, e: Event, s': State)
    requires Leads(random, h, s) && Step(random, s, e, s') && Timely(e)
    ensures Leads(random, With(h, e, s'), s') && Continues(h, With(h, e, s'))
  {
    hide Step, Timely;
    var next := With(h, e, s');
    forall i | 0 <= i < |next.events|
      ensures Step(random, next.states[i], next.events[i], next.states[i + 1])
      ensures Timely(next.events[i])
    {
      if i < |h.events| {
        assert Step(random, h.states[i], h.events[i], h.states[i + 1]) && Timely(h.events[i]);
      }
    }
  }

  lemma LeadsSizes(random: Random, h: History, now: State)
    requires Leads(random, h, now)
    ensures |h.states| == |h.events| + 1 && h.states[|h.events|] == now && Run(random, h.states, h.events)
  {
  }

  // ----- every state of a history

  lemma StepRestorable(random: Random, s: State, e: Event, s': State)
    requires Step(random, s, e, s') && Restorable(s.entries)
    ensures Restorable(s'.entries)
  {
    hide RestorableEntry, IssueStep;
    match e
    case Issue(a, r) =>
      hide Transactions.Issuance, Restorable;
      IssueIs(random, s, a, r, s');
      IssuanceRestorable(s.entries, a, r, s'.entries);
    case Restore(scope, token, nowMs, _) => TouchedRestorable(s, scope, token, nowMs);
    case _ =>
  }

  lemma TouchedRestorable(s: State, scope: string, token: string, nowMs: nat)
    requires Restorable(s.entries)
    ensures Restorable(AfterRestore(s, scope, token, nowMs).entries)
  {
    hide Tokens.IsToken;
  }

  lemma {:induction false} RunRestorable(random: Random, states: seq<State>, events: seq<Event>, n: nat)
    requires Run(random, states, events) && n <= |events|
    ensures n < |states| && Restorable(states[n].entries)
  {
    hide Step, Restorable;
    if n == 0 {
      EmptyRestorable(random, states, events);
    } else {
      RunRestorable(random, states, events, n - 1);
      StepAt(random, states, events, n - 1);
      StepRestorable(random, states[n - 1], events[n - 1], states[n]);
    }
  }

  lemma EmptyRestorable(random: Random, states: seq<State>, events: seq<Event>)
    requires Run(random, states, events)
    ensures |states| == |events| + 1 && Restorable(states[0].entries)
  {
  }

  lemma LeadsRestorable(random: Random, h: History, now: State)
    requires Leads(random, h, now)
    ensures Restorable(now.entries)
  {
    hide Run, Restorable;
    RunRestorable(random, h.states, h.events, |h.events|);
  }

  // ----- what one request adds

  lemma {:induction false} LastOfPrefix(kind: Kind, events: seq<Event>, longer: seq<Event>, n: nat, t: string)
    requires events <= longer && n <= |events|
    ensures Last(kind, events, n, t) == Last(kind, longer, n, t)
  {
    hide Is;
    if n > 0 {
      LastOfPrefix(kind, events, longer, n - 1, t);
    }
  }

  /** An operation one request may make: it drops expired entries, issues tokens, or takes back those it has created. */
  ghost predicate OwnEvent(events: seq<Event>, from: nat, k: nat, scope: string, nowMs: nat)
    requires k < |events|
  {
    match events[k]
    case Purge(time) => time == nowMs
    case Issue(a, _) => a.scope == scope && a.nowMs == nowMs
    case Rollback(s, tokens) => s == scope && forall t :: t in tokens ==> from <= Last(Creation, events, k, t)
    case _ => false
  }

  ghost predicate OwnWork(events: seq<Event>, from: nat, scope: string, nowMs: nat) {
    forall k {:trigger OwnEvent(events, from, k, scope, nowMs)} ::
      from <= k < |events| ==> OwnEvent(events, from, k, scope, nowMs)
  }

  /** Every token listed was created since `from`. */
  ghost predicate CreatedSince(events: seq<Event>, from: nat, created: seq<string>) {
    forall t :: t in created ==> from <= Last(Creation, events, |events|, t)
  }

  /** A request that began when the history was `base` has led to `now`, and has created the tokens listed. */
  ghost predicate Underway(random: Random, base: History, h: History, now: State, scope: string, nowMs: nat,
                           created: seq<string>)
  {
    && Leads(random, h, now) && Continues(base, h)
    && OwnWork(h.events, |base.events|, scope, nowMs) && CreatedSince(h.events, |base.events|, created)
  }

  lemma UnderwayStarts(random: Random, h: History, now: State, scope: string, nowMs: nat)
    requires Leads(random, h, now)
    ensures Underway(random, h, h, now, scope, nowMs, [])
  {
    hide Leads;
  }

  lemma UnderwayMeans(random: Random, base: History, h: History, now: State, scope: string, nowMs: nat,
                      created: seq<string>)
    requires Underway(random, base, h, now, scope, nowMs, created)
    ensures Leads(random, h, now) && Continues(base, h) && OwnWork(h.events, |base.events|, scope, nowMs)
    ensures |h.states| == |h.events| + 1 && h.states[|h.events|] == now && Restorable(now.entries)
  {
    hide Restorable;
    LeadsRestorable(random, h, now);
  }

  lemma OwnWorkStep(events: seq<Event>, from: nat, scope: string, nowMs: nat, e: Event)
    requires OwnWork(events, from, scope, nowMs) && from <= |events|
    requires OwnEvent(events + [e], from, |events|, scope, nowMs)
    ensures OwnWork(events + [e], from, scope, nowMs)
  {
    hide Last;
    var longer := events + [e];
    forall k | from <= k < |longer|
      ensures OwnEvent(longer, from, k, scope, nowMs)
    {
      if k < |events| {
        assert OwnEvent(events, from, k, scope, nowMs);
        forall t: string
          ensures Last(Creation, events, k, t) == Last(Creation, longer, k, t)
        {
          LastOfPrefix(Creation, events, longer, k, t);
        }
      }
    }
  }

  lemma CreatedSinceStep(events: seq<Event>, from: nat, created: seq<string>, e: Event)
    requires CreatedSince(events, from, created) && from <= |events|
    ensures CreatedSince(events + [e], from, created)
    ensures e.Issue? ==> CreatedSince(events + [e], from, created + Creates(e.result))
  {
    var longer := events + [e];
    forall t: string
      ensures Last(Creation, longer, |longer|, t)
           == if Is(Creation, e, t) then |events| else Last(Creation, events, |events|, t)
    {
      LastOfPrefix(Creation, events, longer, |events|, t);
    }
  }

  lemma UnderwayPurged(random: Random, base: History, h: History, s: State, scope: string, nowMs: nat,
                       created: seq<string>)
    requires Underway(random, base, h, s, scope, nowMs, created)
    ensures var s' := AfterPurge(s, nowMs);
            Underway(random, base, With(h, Purge(nowMs), s'), s', scope, nowMs, created)
  {
    hide Leads, OwnWork, CreatedSince, AfterPurge;
    var e, s' := Event.Purge(nowMs), AfterPurge(s, nowMs);
    LeadsOn(random, h, s, e, s');
    OwnWorkStep(h.events, |base.events|, scope, nowMs, e);
    CreatedSinceStep(h.events, |base.events|, created, e);
  }

  lemma UnderwayIssued(random: Random, base: History, h: History, s: State, a: IssueArgs, created: seq<string>,
                       r: Result<IssuedToken, LedgerError>, s': State)
    requires Underway(random, base, h, s, a.scope, a.nowMs, created) && IssueStep(random, s, a, r, s')
    requires a.ttlSeconds <= PolicyRules.MAX_RESTORATION_TTL_SECONDS
    ensures Underway(random, base, With(h, Issue(a, r), s'), s', a.scope, a.nowMs, created + Creates(r))
  {
    hide Leads, OwnWork, CreatedSince, IssueStep, Creates;
    LeadsOn(random, h, s, Issue(a, r), s');
    OwnWorkStep(h.events, |base.events|, a.scope, a.nowMs, Issue(a, r));
    CreatedSinceStep(h.events, |base.events|, created, Issue(a, r));
  }

  lemma UnderwayRolledBack(random: Random, base: History, h: History, s: State, scope: string, nowMs: nat,
                           created: seq<string>)
    requires Underway(random, base, h, s, scope, nowMs, created)
    ensures var s' := AfterRollback(s, scope, created);
            Underway(random, base, With(h, Rollback(scope, created), s'), s', scope, nowMs, created)
  {
    hide Leads, OwnWork, AfterRollback;
    var e, s' := Rollback(scope, created), AfterRollback(s, scope, created);
    LeadsOn(random, h, s, e, s');
    forall t | t in created
      ensures |base.events| <= Last(Creation, h.events + [e], |h.events|, t)
    {
      LastOfPrefix(Creation, h.events, h.events + [e], |h.events|, t);
    }
    OwnWorkStep(h.events, |base.events|, scope, nowMs, e);
    CreatedSinceStep(h.events, |base.events|, created, e);
  }

  // ----- the journal of a request as a stretch of the history

  /** The operation at `k` handed out the token of the record. */
  ghost predicate Recorded(ctx: WorkingSet.Context, e: Event, r: Issued)
    requires PolicyRules.Covers(ctx.policy.categories)
  {
    e == Issue(WorkingSet.ArgsFor(ctx, r.dataClass, r.value), Ok(IssuedToken(r.token, r.created)))
  }

  /** The last operations before `n` are those of the journal, and go through its states. */
  ghost predicate Logged(ctx: WorkingSet.Context, h: History, n: nat, j: Journal)
    requires PolicyRules.Covers(ctx.policy.categories)
  {
    && |j.states| == |j.log| + 1 && |j.log| <= n <= |h.events| && n < |h.states|
    && (forall i {:trigger j.states[i]} :: 0 <= i <= |j.log| ==> h.states[n - |j.log| + i] == j.states[i])
    && (forall i {:trigger j.log[i]} :: 0 <= i < |j.log| ==> Recorded(ctx, h.events[n - |j.log| + i], j.log[i]))
  }

  lemma LoggedStep(ctx: WorkingSet.Context, h: History, j: Journal, r: Issued, e: Event, s: State)
    requires PolicyRules.Covers(ctx.policy.categories) && |h.states| == |h.events| + 1
    requires Logged(ctx, h, |h.events|, j) && Recorded(ctx, e, r)
    ensures Logged(ctx, With(h, e, s), |h.events| + 1, Journal(j.states + [s], j.log + [r]))
  {
    hide Recorded, PolicyRules.Covers;
  }

  lemma LoggedLater(ctx: WorkingSet.Context, h: History, longer: History, n: nat, j: Journal)
    requires PolicyRules.Covers(ctx.policy.categories) && Logged(ctx, h, n, j) && Continues(h, longer)
    ensures Logged(ctx, longer, n, j)
  {
    hide Recorded, PolicyRules.Covers;
  }
}
