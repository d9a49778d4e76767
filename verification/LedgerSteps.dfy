/** What one ledger operation does, in plain terms (src/ledger.rs): refusals, lifetimes, expiry, drawing of tokens. */
module LedgerSteps {
  import opened Domain
  import opened Ledger
  import opened LedgerRuns
  import opened Retention

  /** An issue refused for an empty value, a hard-block class, or an expiry beyond 64 bits changes nothing. */
  lemma RefusedExactly(random: Random, s: State, a: IssueArgs, r: Result<IssuedToken, LedgerError>, s': State)
    requires IssueStep(random, s, a, r, s')
    ensures r == Err(EmptyValue) <==> a.value == ""
    ensures r.Err? && r.error.NonRestorableClass? <==> a.value != "" && a.dataClass.HardBlock()
    ensures r == Err(ExpiryOverflow) <==>
            a.value != "" && !a.dataClass.HardBlock() && a.nowMs + a.ttlSeconds * 1000 > 0xFFFF_FFFF_FFFF_FFFF
    ensures r.Err? && r.error !in {RandomUnavailable, TokenCollision} ==> s' == s
  {
    hide Mint, HoldsSome, MadeRoom;
    if Refusal(a).None? && !HoldsSome(Purged(s.entries, a.nowMs), a.scope, a.dataClass, a.value) {
      var room :| MadeRoom(Purged(s.entries, a.nowMs), s.maxEntries, room) && CreatedFrom(random, s, a, room, r, s');
    }
  }

  /** A token that is handed out is answered with its value for the seconds asked for, and no longer. */
  lemma LivesFor(random: Random, s: State, a: IssueArgs, r: Result<IssuedToken, LedgerError>, s': State, laterMs: nat)
    requires IssueStep(random, s, a, r, s') && r.Ok?
    ensures Lookup(s', a.scope, r.value.token, laterMs)
         == if laterMs < a.nowMs + a.ttlSeconds * 1000 then Some(a.value) else None
  {
    hide Mint, HoldsSome, MadeRoom;
    if !HoldsSome(Purged(s.entries, a.nowMs), a.scope, a.dataClass, a.value) {
      var room :| MadeRoom(Purged(s.entries, a.nowMs), s.maxEntries, room) && CreatedFrom(random, s, a, room, r, s');
    }
  }

  /** After an operation that is given a time, nothing that has expired by then is left, but a token issued just now. */
  lemma ExpiredGone(random: Random, s: State, e: Event, s': State, t: string)
    requires Step(random, s, e, s') && TimeOf(e).Some? && t in s'.entries
    requires e.Issue? ==> Refusal(e.args).None? && !Is(Issuance, e, t)
    ensures TimeOf(e).value < s'.entries[t].expiresAtMs
  {
    hide Mint, HoldsSome;
    if e.Issue? && !HoldsSome(Purged(s.entries, e.args.nowMs), e.args.scope, e.args.dataClass, e.args.value) {
      var room :| MadeRoom(Purged(s.entries, e.args.nowMs), s.maxEntries, room)
        && CreatedFrom(random, s, e.args, room, e.result, s');
    }
  }

  /** The draw yields a token, and it is taken. */
  predicate Taken(random: Random, draw: nat, c: DataClass, taken: set<string>) {
    random(draw).Filled? && TokenText(c, random(draw).bytes) in taken
  }

  ghost predicate AllTaken(random: Random, from: nat, to: nat, c: DataClass, taken: set<string>) {
    forall k: nat :: from <= k < to ==> Taken(random, k, c, taken)
  }

  /** Drawing goes on while tokens are taken, and stops at the first that is not, at a failure, or for good. */
  lemma {:induction false} MintedFirst(random: Random, drawn: nat, attempts: nat, c: DataClass, taken: set<string>)
    ensures match Mint(random, drawn, attempts, c, taken)
            case Minted(token, after) =>
              && drawn < after <= drawn + attempts && AllTaken(random, drawn, after - 1, c, taken)
              && !Taken(random, after - 1, c, taken)
              && random(after - 1).Filled? && token == TokenText(c, random(after - 1).bytes)
            case MintFailed(RandomUnavailable, after) =>
              && drawn < after <= drawn + attempts && AllTaken(random, drawn, after - 1, c, taken)
              && !Taken(random, after - 1, c, taken) && random(after - 1) == Unavailable
            case MintFailed(error, after) =>
              error == TokenCollision && after == drawn + attempts && AllTaken(random, drawn, after, c, taken)
    decreases attempts
  {
    hide TokenText;
    if attempts > 0 && Taken(random, drawn, c, taken) {
      MintedFirst(random, drawn + 1, attempts - 1, c, taken);
    }
  }

  /** Eight draws are made at most, and an issue fails with a collision exactly if all eight are taken. */
  lemma CollisionExactly(random: Random, drawn: nat, c: DataClass, taken: set<string>)
    ensures Mint(random, drawn, MAX_TOKEN_ATTEMPTS, c, taken).drawn <= drawn + 8
    ensures Mint(random, drawn, MAX_TOKEN_ATTEMPTS, c, taken) == MintFailed(TokenCollision, drawn + 8) <==>
            AllTaken(random, drawn, drawn + 8, c, taken)
  {
    hide Mint, Taken;
    MintedFirst(random, drawn, MAX_TOKEN_ATTEMPTS, c, taken);
  }
}
