/**
 * What holds of an engine after any calls (src/engine.rs): `Valid` is established by `with_random` and kept by
 * every method, so these theorems assume nothing of the ledger beyond a use counter that has not run out. They
 * join what is proved of runs of the ledger with what is proved of single requests.
 */
module EngineRuns {
  import opened Domain
  import opened Engine
  import opened Guarantees
  import opened LedgerHistory
  import opened Outcomes
  import opened Payload
  import opened Request
  import opened Retention
  import Display
  import LedgerRuns

  /** The ledger stays within its capacity, shares no value between tokens, and keeps use numbers apart. */
  lemma LedgerSound(e: PrivacyEngine)
    requires e.Valid() && |e.past.events| <= U64_MAX
    ensures LedgerRuns.Sound(e.ledger.Now()) && LedgerRuns.DistinctUses(e.ledger.entries)
  {
    hide LedgerRuns.Run, LedgerRuns.Sound, LedgerRuns.DistinctUses;
    LedgerRuns.RunSound(e.ledger.random, e.past.states, e.past.events, |e.past.events|);
  }

  /**
   * Any value that ever came back was that of the token's last creation, and came back within half an hour of its
   * last issue.
   */
  lemma WithinHalfHour(e: PrivacyEngine, k: nat)
    requires e.Valid() && k < |e.past.events| && e.past.events[k].Restore? && e.past.events[k].value.Some?
    ensures var event := e.past.events[k];
            var c, i := LedgerRuns.Last(LedgerRuns.Creation, e.past.events, k, event.token),
                        LedgerRuns.Last(LedgerRuns.Issuance, e.past.events, k, event.token);
            && 0 <= c <= i
            && e.past.events[c].args.scope == event.scope && e.past.events[c].args.value == event.value.value
            && event.nowMs < e.past.events[i].args.nowMs + 1_800_000
  {
    hide LedgerRuns.Run, LedgerRuns.Last;
    LedgerRuns.RestorationSound(e.ledger.random, e.past.states, e.past.events, k);
    forall j | 0 <= j < k && e.past.events[j].Issue?
      ensures e.past.events[j].args.ttlSeconds <= 30 * 60
    {
      assert Timely(e.past.events[j]);
    }
    LedgerRuns.RestorationWindow(e.ledger.random, e.past.states, e.past.events, k);
  }

  /** What `restore_display_text` makes now of the text forwarded in place of target `i`. */
  lemma TextComesBack(e: PrivacyEngine, ev: Evidence, i: nat, n: nat, laterMs: nat)
    requires e.Valid() && Justified(ev) && ev.random == e.ledger.random && Logged(ContextOf(ev), e.past, n, ev.journal)
    requires i < |ev.plans| && KeptAlive(ev, e.past, n, e.ledger.maxEntries, laterMs)
    ensures i < |AllTargets(ev.root)| && ReadTarget(ev.after, TargetOf(ev, i)).Ok?
    ensures ComesBack(ReadTarget(ev.after, TargetOf(ev, i)).value, ev.plans[i],
                      Display.Asking(e.ledger.Now(), ev.env.scope, laterMs))
  {
    hide *;
    Bearing(e);
    RoundTrip(ev, i, e.past, n, e.ledger.Now(), laterMs);
  }

  lemma Bearing(e: PrivacyEngine)
    requires e.Valid()
    ensures Leads(e.ledger.random, e.past, e.ledger.Now()) && e.ledger.Now().maxEntries == e.ledger.maxEntries
  {
    hide Leads;
  }

  /** Another request, whether it succeeds or fails, takes back no token that was there before it began. */
  lemma RequestsSpare(h: History, later: History, n: nat, from: nat, k: nat, other: string, nowMs: nat, scope: string)
    requires OwnWork(h.events, from, other, nowMs) && Continues(h, later) && n <= from <= k < |h.events|
    ensures Spares(later.events, n, k, scope)
  {
    hide LedgerRuns.Last;
    assert OwnEvent(h.events, from, k, other, nowMs) && later.events[k] == h.events[k];
    forall t: string
      ensures LedgerRuns.Last(LedgerRuns.Creation, h.events, k, t)
                == LedgerRuns.Last(LedgerRuns.Creation, later.events, k, t)
    {
      LastOfPrefix(LedgerRuns.Creation, h.events, later.events, k, t);
    }
  }
}
