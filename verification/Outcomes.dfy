/**
 * What a forwarded or blocked request leaves behind as proof of what was done to it (src/engine.rs,
 * `protect`): the request as parsed, the plan of every target with the decisions behind it, the edits made,
 * the tokens issued with the ledger states in between, and the value sent. `Justified` ties them together.
 */
module Outcomes {
  import opened Domain
  import opened JsonTree
  import opened Payload
  import opened PayloadShape
  import opened Planning
  import opened Request
  import opened Rewrites
  import opened Rewriting
  import opened Summary
  import opened Transactions
  import Ledger
  import PolicyRules
  import WorkingSet

  datatype Decision = Allowed | Rewritten

  /** Planning only drops expired entries. */
  ghost predicate Settled(start: Ledger.State, now: Ledger.State, nowMs: nat) {
    now == start || now == Ledger.AfterPurge(start, nowMs)
  }

  lemma SettledLookup(start: Ledger.State, now: Ledger.State, nowMs: nat, scope: string, token: string)
    requires Settled(start, now, nowMs)
    ensures Ledger.Lookup(now, scope, token, nowMs) == Ledger.Lookup(start, scope, token, nowMs)
    ensures Settled(start, Ledger.AfterPurge(now, nowMs), nowMs)
  {
    var once := Ledger.Purged(start.entries, nowMs);
    assert Ledger.Purged(once, nowMs) == once;
  }

  /** The parsed request, its plans with the decisions behind them, the edits made and the tokens issued. */
  datatype Evidence = Evidence(
    env: Env,
    random: Ledger.Random,
    root: Json,
    plans: seq<TargetPlan>,
    raws: seq<seq<Planned>>,
    edits: seq<seq<Edit>>,
    journal: Journal,
    after: Json)

  function ContextOf(ev: Evidence): WorkingSet.Context {
    WorkingSet.Context(ev.random, ev.env.policy, ev.env.scope, ev.env.nowMs)
  }

  ghost predicate Examined(ev: Evidence) {
    && PolicyRules.Covers(ev.env.policy.categories) && Accepted(ev.root) && ValidStrings(ev.root)
    && PlansOk(ev.env, ev.root, ev.plans, ev.raws)
  }

  /** Some finding in some target, taken by itself, calls for blocking the request. */
  ghost predicate CallsForBlock(raws: seq<seq<Planned>>) {
    exists i :: 0 <= i < |raws| && Has(raws[i], Block)
  }

  /** The request was examined, nothing in it calls for blocking, and the value sent is exactly the edited one. */
  ghost predicate Justified(ev: Evidence) {
    && Examined(ev) && !CallsForBlock(ev.raws)
    && SameShape(ev.root, ev.after) && RewritesOk(ev.root, ev.after, ev.plans, ev.edits, ev.journal.log)
    && AllFrom(ev.plans, ev.journal.log)
    && WorkingSet.Chain(ContextOf(ev), ev.journal.states, ev.journal.log)
    && Settled(ev.env.ledger, ev.journal.states[0], ev.env.nowMs)
  }

  /** Resolved findings block exactly if some decided finding does. */
  lemma BlocksWhenCalledFor(env: Env, root: Json, plans: seq<TargetPlan>, raws: seq<seq<Planned>>)
    requires PolicyRules.Covers(env.policy.categories) && Accepted(root) && PlansOk(env, root, plans, raws)
    ensures Occurs(plans, Block) <==> CallsForBlock(raws)
  {
    hide PolicyRules.Covers, Accepted, AllTargets, Assessed, Has, ReadTarget;
    if Occurs(plans, Block) {
      var i, f :| 0 <= i < |plans| && f in plans[i].findings && f.action == Block;
      PlanAt(env, root, plans, raws, i);
      BlockKept(raws[i], plans[i].findings);
      HasMember(plans[i].findings, f);
    }
    if CallsForBlock(raws) {
      var i :| 0 <= i < |raws| && Has(raws[i], Block);
      PlanAt(env, root, plans, raws, i);
      BlockKept(raws[i], plans[i].findings);
      var f := MemberHas(plans[i].findings, Block);
    }
  }

  lemma HasMember(fs: seq<Planned>, f: Planned)
    requires f in fs
    ensures Has(fs, f.action)
  {
  }

  lemma MemberHas(fs: seq<Planned>, a: Action) returns (f: Planned)
    requires Has(fs, a)
    ensures f in fs && f.action == a
  {
    f :| f in fs && f.action == a;
  }
}
