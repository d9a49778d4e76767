/** How long the ledger keeps a set of tokens (src/ledger.rs), whatever other requests do in between. */
module Retention {
  import opened Domain
  import opened Ledger
  import opened LedgerRuns

  /** The time the operation is given. */
  function TimeOf(e: Event): Option<nat> {
    match e
    case Issue(a, _) => Some(a.nowMs)
    case Restore(_, _, nowMs, _) => Some(nowMs)
    case Purge(nowMs) => Some(nowMs)
    case _ => None
  }

  /** The expiry the token has been given by its last issue before position `n`. */
  function ExpiryAt(events: seq<Event>, n: nat, t: string): nat
    requires n <= |events|
  {
    var i := Last(Issuance, events, n, t);
    if i < 0 then 0 else events[i].args.ExpiresAtMs()
  }

  /** The issue gets past its checks and finds no live token to hand out again, so it asks for a new one. */
  predicate Makes(e: Event) {
    e.Issue? && Refusal(e.args).None? && (e.result.Ok? ==> e.result.value.created)
  }

  /** The operation neither clears the scope nor takes back tokens of the scope created before `since`. */
  ghost predicate Spares(events: seq<Event>, since: nat, k: nat, scope: string)
    requires k < |events|
  {
    match events[k]
    case Clear(s) => s != scope
    case ClearEverything => false
    case Rollback(s, tokens) => s != scope || forall t :: t in tokens ==> since <= Last(Creation, events, k, t)
    case _ => true
  }

  ghost predicate InTime(events: seq<Event>, k: nat, tokens: set<string>)
    requires k < |events|
  {
    TimeOf(events[k]).Some? ==> forall t :: t in tokens ==> TimeOf(events[k]).value < ExpiryAt(events, k, t)
  }

  /** A new token finds room beside `tokens` and all those issued or restored since. */
  ghost predicate LeavesRoom(events: seq<Event>, since: nat, k: nat, tokens: set<string>, maxEntries: nat)
    requires k < |events|
  {
    Makes(events[k]) ==> |tokens + TouchedIn(events, since, k)| < maxEntries
  }

  /** The operation leaves `tokens` of `scope` alone. */
  ghost predicate Leaves(events: seq<Event>, since: nat, k: nat, scope: string, tokens: set<string>, maxEntries: nat)
    requires k < |events|
  {
    Spares(events, since, k, scope) && InTime(events, k, tokens) && LeavesRoom(events, since, k, tokens, maxEntries)
  }

  ghost predicate Undisturbed(events: seq<Event>, since: nat, to: nat, scope: string, tokens: set<string>,
                              maxEntries: nat)
    requires to <= |events|
  {
    forall k :: since <= k < to ==> Leaves(events, since, k, scope, tokens, maxEntries)
  }

  /** As long as the set and all tokens handed out up to `to` fit the ledger, a successful issue finds room. */
  lemma FreshFindsRoom(events: seq<Event>, since: nat, k: nat, to: nat, tokens: set<string>, maxEntries: nat)
    requires since <= k < to <= |events| && |tokens + TouchedIn(events, since, to)| <= maxEntries
    requires events[k].Issue? ==>
               events[k].result.Ok? && events[k].result.value.token !in tokens + TouchedIn(events, since, k)
    ensures LeavesRoom(events, since, k, tokens, maxEntries)
  {
    hide TouchedIn;
    if Makes(events[k]) {
      var before, x := tokens + TouchedIn(events, since, k), events[k].result.value.token;
      TouchedSplit(events, since, k + 1, to);
      TouchedGrows(events, since, k, x);
      SubsetSmaller(before + {x}, tokens + TouchedIn(events, since, to));
    }
  }

  /** Handing out a live token again, or refusing to issue one, takes no unexpired token away. */
  lemma EvictedMakes(random: Random, states: seq<State>, events: seq<Event>, k: nat, t: string)
    requires Run(random, states, events) && k < |events| < |states| && Evicted(states, events, k, t)
    ensures Makes(events[k])
  {
    hide Run, Mint, MadeRoom;
    StepAt(random, states, events, k);
    assert t in Purged(states[k].entries, events[k].args.nowMs);
  }

  lemma {:induction false} TouchedSplit(events: seq<Event>, from: nat, mid: nat, to: nat)
    requires from <= mid <= to <= |events|
    ensures TouchedIn(events, from, to) == TouchedIn(events, from, mid) + TouchedIn(events, mid, to)
  {
    if mid < to {
      TouchedSplit(events, from, mid, to - 1);
    }
  }

  /** A token in use since `from` is not evicted while a new token finds room beside the set. */
  lemma NotEvicted(random: Random, states: seq<State>, events: seq<Event>, from: nat, since: nat, k: nat,
                   tokens: set<string>, t: string)
    requires Run(random, states, events) && |events| <= U64_MAX && from <= since <= k < |events| < |states|
    requires t in tokens && TouchedIn(events, from, since) <= tokens && from <= Last(Touch, events, k, t)
    requires LeavesRoom(events, since, k, tokens, states[0].maxEntries)
    ensures !Evicted(states, events, k, t)
  {
    hide Run, TouchedIn, Makes, Evicted;
    if Evicted(states, events, k, t) {
      EvictedMakes(random, states, events, k, t);
      EvictionNeedsUse(random, states, events, k, t);
      var u, all := Last(Touch, events, k, t), tokens + TouchedIn(events, since, k);
      TouchedSplit(events, from, since, k);
      TouchedSplit(events, from, u + 1, k);
      SubsetSmaller(TouchedIn(events, u + 1, k) - {t}, all - {t});
    }
  }

  /** One operation leaves a token in place that it neither revokes, nor finds expired, nor evicts. */
  lemma HeldOn(random: Random, states: seq<State>, events: seq<Event>, since: nat, k: nat, scope: string,
               tokens: set<string>, t: string)
    requires Run(random, states, events) && since <= k < |events| < |states| && t in tokens
    requires t in states[k].entries && states[k].entries[t].scope == scope && Last(Creation, events, k, t) < since
    requires Spares(events, since, k, scope) && InTime(events, k, tokens) && !Evicted(states, events, k, t)
    ensures t in states[k + 1].entries && SameValue(states[k].entries[t], states[k + 1].entries[t])
    ensures !Is(Creation, events[k], t)
  {
    hide Run, HeldSince, IssueStep;
    StepAt(random, states, events, k);
    EntriesRemembered(random, states, events, k, t);
    assert TimeOf(events[k]).Some? ==> TimeOf(events[k]).value < states[k].entries[t].expiresAtMs;
    assert t in states[k + 1].entries;
    EntryFate(random, states[k], events[k], states[k + 1], t);
  }

  /**
   * Retention. A token of the set that has been in use since `from` is still there for the same value at `to`,
   * whatever was done in the meantime, as long as it left the set undisturbed.
   */
  lemma {:induction false} Retained(random: Random, states: seq<State>, events: seq<Event>, from: nat, since: nat,
                                    to: nat, scope: string, tokens: set<string>, t: string)
    requires Run(random, states, events) && |events| <= U64_MAX && from <= since <= to <= |events| < |states|
    requires t in tokens && TouchedIn(events, from, since) <= tokens
    requires t in states[since].entries && states[since].entries[t].scope == scope
    requires from <= Last(Touch, events, since, t)
    requires Undisturbed(events, since, to, scope, tokens, states[0].maxEntries)
    ensures t in states[to].entries && SameValue(states[since].entries[t], states[to].entries[t])
    ensures from <= Last(Touch, events, to, t) && Last(Creation, events, to, t) < since
  {
    hide Run, TouchedIn, Spares, InTime, LeavesRoom, Evicted, Is;
    if since < to {
      var k := to - 1;
      assert Leaves(events, since, k, scope, tokens, states[0].maxEntries);
      Retained(random, states, events, from, since, k, scope, tokens, t);
      NotEvicted(random, states, events, from, since, k, tokens, t);
      HeldOn(random, states, events, since, k, scope, tokens, t);
    }
  }

  /** A retained token is answered with the value it stood for, until the expiry its last issue gave it. */
  lemma RetainedAnswers(random: Random, states: seq<State>, events: seq<Event>, from: nat, since: nat, to: nat,
                        scope: string, tokens: set<string>, t: string, laterMs: nat)
    requires Run(random, states, events) && |events| <= U64_MAX && from <= since <= to <= |events| < |states|
    requires t in tokens && TouchedIn(events, from, since) <= tokens
    requires t in states[since].entries && states[since].entries[t].scope == scope
    requires from <= Last(Touch, events, since, t)
    requires Undisturbed(events, since, to, scope, tokens, states[0].maxEntries) && laterMs < ExpiryAt(events, to, t)
    ensures Lookup(states[to], scope, t, laterMs) == Some(states[since].entries[t].value)
  {
    hide Run, TouchedIn, Undisturbed, HeldSince;
    Retained(random, states, events, from, since, to, scope, tokens, t);
    EntriesRemembered(random, states, events, to, t);
  }
}
