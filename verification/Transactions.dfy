/**
 * What one request may do to the ledger (src/engine.rs, `protect` and `apply_rewrites`): it adds the
 * tokens it created and nothing else, and undoing those leaves nothing of it behind.
 */
module Transactions {
  import opened Domain
  import opened Ledger
  import LedgerRuns
  import Rewriting
  import Tokens
  import WorkingSet
  import PolicyRules

  // ----- what every entry is like

  predicate RestorableEntry(t: string, e: Entry) {
    Tokens.IsToken(t) && !e.dataClass.HardBlock() && e.value != ""
  }

  /** Every key has the form of a token; every value is nonempty and of a class that may be restored. */
  ghost predicate Restorable(entries: map<string, Entry>) {
    forall t {:trigger t in entries} :: t in entries ==> RestorableEntry(t, entries[t])
  }

  lemma SubMapRestorable(a: map<string, Entry>, b: map<string, Entry>)
    requires LedgerRuns.SubMap(a, b) && Restorable(b)
    ensures Restorable(a)
  {
    hide RestorableEntry;
  }

  lemma PurgedSubMap(entries: map<string, Entry>, nowMs: nat)
    ensures LedgerRuns.SubMap(Purged(entries, nowMs), entries)
  {
  }

  lemma RoomSubMap(before: map<string, Entry>, maxEntries: nat, after: map<string, Entry>)
    requires MadeRoom(before, maxEntries, after)
    ensures LedgerRuns.SubMap(after, before)
  {
  }

  /** The entries after an issue: those there before, the token's own aside. */
  ghost predicate Issuance(before: map<string, Entry>, a: IssueArgs, r: Result<IssuedToken, LedgerError>,
                           after: map<string, Entry>)
  {
    forall t {:trigger t in after} :: t in after ==>
      if r.Ok? && t == r.value.token
      then && after[t].scope == a.scope && after[t].dataClass == a.dataClass && after[t].value == a.value
           && RestorableEntry(t, after[t])
           && (!r.value.created ==> t in before && LedgerRuns.SameValue(before[t], after[t]))
      else t in before && after[t] == before[t]
  }

  lemma IssueIs(random: Random, s: State, a: IssueArgs, r: Result<IssuedToken, LedgerError>, s': State)
    requires IssueStep(random, s, a, r, s') && Restorable(s.entries)
    ensures Issuance(s.entries, a, r, s'.entries) && s'.maxEntries == s.maxEntries
    ensures r.Ok? ==> a.value != "" && !a.dataClass.HardBlock() && Tokens.IsToken(r.value.token)
    ensures r.Err? && a.value != "" && !a.dataClass.HardBlock() ==>
              r.error in {RandomUnavailable, TokenCollision, ExpiryOverflow}
  {
    hide Mint, Tokens.IsToken, MadeRoom, HoldsSome;
    if Refusal(a).None? {
      var p := Purged(s.entries, a.nowMs);
      PurgedSubMap(s.entries, a.nowMs);
      SubMapRestorable(p, s.entries);
      if HoldsSome(p, a.scope, a.dataClass, a.value) {
        assert r.value.token in p;
      } else {
        var room :| MadeRoom(p, s.maxEntries, room) && CreatedFrom(random, s, a, room, r, s');
        RoomSubMap(p, s.maxEntries, room);
        if r.Ok? {
          LedgerRuns.MintedIsToken(random, s.drawn, MAX_TOKEN_ATTEMPTS, a.dataClass, room.Keys);
        }
      }
    }
  }

  lemma IssuanceRestorable(before: map<string, Entry>, a: IssueArgs, r: Result<IssuedToken, LedgerError>,
                           after: map<string, Entry>)
    requires Restorable(before) && Issuance(before, a, r, after)
    ensures Restorable(after)
  {
    hide RestorableEntry;
  }

  // ----- tracing entries back to the start of the request

  /** Entries the request did not create are those it found, with the same scope, class and value. */
  ghost predicate Traced(before: map<string, Entry>, after: map<string, Entry>, scope: string, created: seq<string>) {
    forall t {:trigger t in after} :: t in after ==>
      if t in created then after[t].scope == scope else t in before && LedgerRuns.SameValue(before[t], after[t])
  }

  /** No key is new and no entry stands for anything else than before. */
  ghost predicate Survivors(before: map<string, Entry>, after: map<string, Entry>) {
    forall t {:trigger t in after} :: t in after ==> t in before && LedgerRuns.SameValue(before[t], after[t])
  }

  function Creates(r: Result<IssuedToken, LedgerError>): seq<string> {
    if r.Ok? && r.value.created then [r.value.token] else []
  }

  lemma TracedIssue(start: map<string, Entry>, before: map<string, Entry>, a: IssueArgs, created: seq<string>,
                    r: Result<IssuedToken, LedgerError>, after: map<string, Entry>)
    requires Traced(start, before, a.scope, created) && Issuance(before, a, r, after)
    ensures Traced(start, after, a.scope, created + Creates(r))
  {
    hide RestorableEntry;
  }

  /** Rolling back what was created leaves no new key and changes no survivor. */
  lemma RolledBack(start: map<string, Entry>, s: State, scope: string, created: seq<string>)
    requires Traced(start, s.entries, scope, created)
    ensures Survivors(start, AfterRollback(s, scope, created).entries)
    ensures LedgerRuns.SubMap(AfterRollback(s, scope, created).entries, s.entries)
  {
  }

  // ----- the journal of a request

  /** The tokens handed out so far and the ledger states in between. */
  datatype Journal = Journal(states: seq<State>, log: seq<Rewriting.Issued>)

  function Created(log: seq<Rewriting.Issued>): seq<string> {
    if log == [] then []
    else Created(log[..|log| - 1]) + (if log[|log| - 1].created then [log[|log| - 1].token] else [])
  }

  /** The journal leads from `start` to `now`, and `created` lists the tokens it created. */
  ghost predicate Kept(ctx: WorkingSet.Context, start: State, j: Journal, now: State, created: seq<string>)
    requires PolicyRules.Covers(ctx.policy.categories)
  {
    && WorkingSet.Chain(ctx, j.states, j.log)
    && j.states[0] == start && j.states[|j.log|] == now && created == Created(j.log)
  }

  lemma KeptStep(ctx: WorkingSet.Context, start: State, j: Journal, s: State, created: seq<string>,
                 r: Rewriting.Issued, s': State)
    requires PolicyRules.Covers(ctx.policy.categories) && Kept(ctx, start, j, s, created)
    requires WorkingSet.Linked(ctx, s, r, s')
    ensures Kept(ctx, start, Journal(j.states + [s'], j.log + [r]), s', created + (if r.created then [r.token] else []))
  {
    hide WorkingSet.Linked, PolicyRules.Covers;
    var states, log := j.states + [s'], j.log + [r];
    assert log[..|log| - 1] == j.log;
    forall i | 0 <= i < |log|
      ensures WorkingSet.Linked(ctx, states[i], log[i], states[i + 1])
    {
      if i < |j.log| {
        assert WorkingSet.Linked(ctx, j.states[i], j.log[i], j.states[i + 1]);
      }
    }
  }
}
