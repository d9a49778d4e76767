/**
 * The tokens of one request keep each other alive: as long as a request needs no more distinct
 * (class, value) pairs than the ledger has room for, none of its tokens is evicted before it ends.
 */
module WorkingSet {
  import opened Domain
  import opened Ledger
  import opened LedgerRuns
  import opened Rewriting
  import PolicyRules

  /** What is fixed while one request is being rewritten. */
  datatype Context = Context(random: Random, policy: PolicyRules.Policy, scope: string, nowMs: nat)

  function ArgsFor(ctx: Context, c: DataClass, value: string): IssueArgs
    requires PolicyRules.Covers(ctx.policy.categories)
  {
    IssueArgs(ctx.scope, c, value, ctx.nowMs, PolicyRules.RuleFor(ctx.policy, c).Ttl())
  }

  ghost predicate Linked(ctx: Context, s: State, r: Issued, s': State)
    requires PolicyRules.Covers(ctx.policy.categories)
  {
    IssueStep(ctx.random, s, ArgsFor(ctx, r.dataClass, r.value), Ok(IssuedToken(r.token, r.created)), s')
  }

  /** Each record of the log takes the ledger from one state to the next. */
  ghost predicate Chain(ctx: Context, states: seq<State>, log: seq<Issued>)
    requires PolicyRules.Covers(ctx.policy.categories)
  {
    && |states| == |log| + 1
    && forall i {:trigger Linked(ctx, states[i], log[i], states[i + 1])} ::
         0 <= i < |log| ==> Linked(ctx, states[i], log[i], states[i + 1])
  }

  type Pair = (DataClass, string)

  function Pairs(log: seq<Issued>): set<Pair> {
    set r | r in log :: (r.dataClass, r.value)
  }

  /** The ledger holds the record's token, for its value, until it expires. */
  ghost predicate InForce(ctx: Context, s: State, r: Issued)
    requires PolicyRules.Covers(ctx.policy.categories)
  {
    && Holds(s.entries, r.token, ctx.scope, r.dataClass, r.value)
    && s.entries[r.token].expiresAtMs == ArgsFor(ctx, r.dataClass, r.value).ExpiresAtMs()
  }

  predicate Named(log: seq<Issued>, t: string) {
    exists r :: r in log && r.token == t
  }

  /** The entries used since the request began are those of its log, and all of them are there. */
  ghost predicate Working(ctx: Context, start: nat, s: State, log: seq<Issued>)
    requires PolicyRules.Covers(ctx.policy.categories)
  {
    && (forall r {:trigger InForce(ctx, s, r)} ::
        r in log ==> InForce(ctx, s, r) && s.entries[r.token].lastUsed > start)
    && (forall t {:trigger Named(log, t)} :: t in s.entries && s.entries[t].lastUsed > start ==> Named(log, t))
  }

  function Active(entries: map<string, Entry>, start: nat): set<string> {
    set t | t in entries && entries[t].lastUsed > start
  }

  // ----- counting

  lemma {:induction false} Injected(entries: map<string, Entry>, scope: string, tokens: set<string>, pairs: set<Pair>)
    requires Unshared(entries) && tokens <= entries.Keys
    requires forall t :: t in tokens ==> entries[t].scope == scope && (entries[t].dataClass, entries[t].value) in pairs
    ensures |tokens| <= |pairs|
    decreases tokens
  {
    if tokens != {} {
      var t :| t in tokens;
      var pair := (entries[t].dataClass, entries[t].value);
      forall u | u in tokens - {t}
        ensures (entries[u].dataClass, entries[u].value) in pairs - {pair}
      {
        assert !SameValue(entries[t], entries[u]);
      }
      Injected(entries, scope, tokens - {t}, pairs - {pair});
    }
  }

  lemma ActiveFewerThanPairs(ctx: Context, start: nat, s: State, log: seq<Issued>)
    requires PolicyRules.Covers(ctx.policy.categories) && Unshared(s.entries) && Working(ctx, start, s, log)
    ensures |Active(s.entries, start)| <= |Pairs(log)|
  {
    forall t | t in Active(s.entries, start)
      ensures s.entries[t].scope == ctx.scope && (s.entries[t].dataClass, s.entries[t].value) in Pairs(log)
    {
      assert Named(log, t);
      var r :| r in log && r.token == t;
      assert InForce(ctx, s, r);
    }
    Injected(s.entries, ctx.scope, Active(s.entries, start), Pairs(log));
  }

  lemma PairsGrow(log: seq<Issued>, r: Issued)
    ensures Pairs(log + [r]) == Pairs(log) + {(r.dataClass, r.value)}
  {
    forall p
      ensures p in Pairs(log + [r]) <==> p in Pairs(log) + {(r.dataClass, r.value)}
    {
      if p in Pairs(log + [r]) {
        var q :| q in log + [r] && p == (q.dataClass, q.value);
        assert q in log || q == r;
      }
      if p in Pairs(log) {
        var q :| q in log && p == (q.dataClass, q.value);
        assert q in log + [r];
      }
      assert r in log + [r];
    }
  }

  // ----- one issue

  lemma WorkingPurged(ctx: Context, start: nat, s: State, log: seq<Issued>)
    requires PolicyRules.Covers(ctx.policy.categories) && Working(ctx, start, s, log)
    requires forall r :: r in log ==> 0 < PolicyRules.RuleFor(ctx.policy, r.dataClass).Ttl()
    ensures Working(ctx, start, AfterPurge(s, ctx.nowMs), log)
  {
    var p := AfterPurge(s, ctx.nowMs);
    forall r | r in log
      ensures InForce(ctx, p, r) && p.entries[r.token].lastUsed > start
    {
      assert InForce(ctx, s, r);
    }
  }

  lemma WorkingReused(ctx: Context, start: nat, p: State, log: seq<Issued>, r: Issued, s': State)
    requires PolicyRules.Covers(ctx.policy.categories) && Working(ctx, start, p, log) && start <= p.sequence
    requires Holds(p.entries, r.token, ctx.scope, r.dataClass, r.value)
    requires s'.entries == p.entries[r.token := p.entries[r.token].(
               expiresAtMs := ArgsFor(ctx, r.dataClass, r.value).ExpiresAtMs(), lastUsed := p.sequence + 1)]
    ensures Working(ctx, start, s', log + [r])
  {
    forall q | q in log + [r]
      ensures InForce(ctx, s', q) && s'.entries[q.token].lastUsed > start
    {
      if q != r {
        assert InForce(ctx, p, q);
      }
    }
    NamedGrows(log, r);
    forall t | t in s'.entries && s'.entries[t].lastUsed > start
      ensures Named(log + [r], t)
    {
      assert t != r.token ==> Named(log, t);
    }
  }

  lemma NamedGrows(log: seq<Issued>, r: Issued)
    ensures Named(log + [r], r.token)
    ensures forall t {:trigger Named(log, t)} :: Named(log, t) ==> Named(log + [r], t)
  {
    assert r in log + [r];
    forall t | Named(log, t)
      ensures Named(log + [r], t)
    {
      var q :| q in log && q.token == t;
      assert q in log + [r];
    }
  }

  /** Making room leaves the working entries in place: the victim has not been used by this request. */
  lemma VictimIsIdle(ctx: Context, start: nat, p: State, log: seq<Issued>, r: Issued, room: map<string, Entry>)
    requires PolicyRules.Covers(ctx.policy.categories) && Sound(p) && Working(ctx, start, p, log)
    requires !HoldsSome(p.entries, ctx.scope, r.dataClass, r.value)
    requires |Pairs(log + [r])| <= p.maxEntries && MadeRoom(p.entries, p.maxEntries, room)
    ensures SubMap(room, p.entries)
    ensures forall t :: t in Active(p.entries, start) ==> t in room
  {
    hide Sound;
    SoundBounds(p);
    RoomMade(p.entries, p.maxEntries, room);
    if room != p.entries {
      FewerThanRoom(ctx, start, p, log, r);
      var victim :| IsLru(p.entries, victim) && room == p.entries - {victim};
      if victim in Active(p.entries, start) {
        assert forall u :: u in p.entries ==> u in Active(p.entries, start);
        SubsetSmaller(p.entries.Keys, Active(p.entries, start));
        assert false;
      }
    }
  }

  lemma FewerThanRoom(ctx: Context, start: nat, p: State, log: seq<Issued>, r: Issued)
    requires PolicyRules.Covers(ctx.policy.categories) && Sound(p) && Working(ctx, start, p, log)
    requires !HoldsSome(p.entries, ctx.scope, r.dataClass, r.value) && |Pairs(log + [r])| <= p.maxEntries
    ensures |Active(p.entries, start)| < p.maxEntries
  {
    ActiveFewerThanPairs(ctx, start, p, log);
    PairsGrow(log, r);
    forall q | q in log
      ensures (q.dataClass, q.value) != (r.dataClass, r.value)
    {
      assert InForce(ctx, p, q) && !Holds(p.entries, q.token, ctx.scope, r.dataClass, r.value);
    }
    assert (r.dataClass, r.value) !in Pairs(log);
  }

  lemma WorkingCreated(ctx: Context, start: nat, p: State, log: seq<Issued>, r: Issued, room: map<string, Entry>,
                       s': State)
    requires PolicyRules.Covers(ctx.policy.categories) && Working(ctx, start, p, log) && start <= p.sequence
    requires SubMap(room, p.entries) && r.token !in room
    requires forall t :: t in Active(p.entries, start) ==> t in room
    requires s'.entries == room[r.token := Entry(ctx.scope, r.dataClass, r.value,
                                                 ArgsFor(ctx, r.dataClass, r.value).ExpiresAtMs(), p.sequence + 1)]
    ensures Working(ctx, start, s', log + [r])
  {
    forall q | q in log + [r]
      ensures InForce(ctx, s', q) && s'.entries[q.token].lastUsed > start
    {
      if q != r {
        assert q in log && InForce(ctx, p, q);
        assert q.token in Active(p.entries, start);
      }
    }
    NamedGrows(log, r);
    forall t | t in s'.entries && s'.entries[t].lastUsed > start
      ensures Named(log + [r], t)
    {
      assert t != r.token ==> t in p.entries && Named(log, t);
    }
  }

  lemma WorkingStep(ctx: Context, start: nat, s: State, log: seq<Issued>, r: Issued, s': State)
    requires PolicyRules.Covers(ctx.policy.categories) && Sound(s) && Working(ctx, start, s, log)
    requires start <= s.sequence < U64_MAX && Linked(ctx, s, r, s') && |Pairs(log + [r])| <= s.maxEntries
    requires forall q :: q in log + [r] ==> 0 < PolicyRules.RuleFor(ctx.policy, q.dataClass).Ttl()
    ensures Working(ctx, start, s', log + [r])
  {
    hide Sound, Mint, HoldsSome, MadeRoom, Working, PolicyRules.Covers;
    var a, p := ArgsFor(ctx, r.dataClass, r.value), AfterPurge(s, ctx.nowMs);
    WorkingPurged(ctx, start, s, log);
    SubMapSound(p.entries, s);
    if HoldsSome(p.entries, ctx.scope, r.dataClass, r.value) {
      WorkingReused(ctx, start, p, log, r, s');
    } else {
      var room :| MadeRoom(p.entries, s.maxEntries, room)
        && CreatedFrom(ctx.random, s, a, room, Ok(IssuedToken(r.token, r.created)), s');
      VictimIsIdle(ctx, start, p, log, r, room);
      WorkingCreated(ctx, start, p, log, r, room, s');
    }
  }

  // ----- a whole request

  lemma PairsOfPrefix(log: seq<Issued>, n: nat)
    requires n <= |log|
    ensures |Pairs(log[..n])| <= |Pairs(log)|
  {
    SubsetSmaller(Pairs(log[..n]), Pairs(log));
  }

  lemma {:induction false} WorkingThroughout(ctx: Context, states: seq<State>, log: seq<Issued>, n: nat)
    requires PolicyRules.Covers(ctx.policy.categories) && Chain(ctx, states, log) && n <= |log|
    requires Sound(states[0]) && DistinctUses(states[0].entries) && states[0].sequence + |log| <= U64_MAX
    requires |Pairs(log)| <= states[0].maxEntries
    requires forall q :: q in log ==> 0 < PolicyRules.RuleFor(ctx.policy, q.dataClass).Ttl()
    ensures Sound(states[n]) && DistinctUses(states[n].entries) && states[n].maxEntries == states[0].maxEntries
    ensures states[0].sequence <= states[n].sequence <= states[0].sequence + n
    ensures Working(ctx, states[0].sequence, states[n], log[..n])
  {
    if n == 0 {
      StartsIdle(ctx, states[0], log);
    } else {
      hide Sound, DistinctUses, Chain, Linked, PolicyRules.Covers, Pairs;
      LinkAt(ctx, states, log, n - 1);
      var s, r := states[n - 1], log[n - 1];
      WorkingThroughout(ctx, states, log, n - 1);
      IssueSound(ctx.random, s, ArgsFor(ctx, r.dataClass, r.value), Ok(IssuedToken(r.token, r.created)), states[n]);
      assert log[..n] == log[..n - 1] + [r];
      PairsOfPrefix(log, n);
      WorkingStep(ctx, states[0].sequence, s, log[..n - 1], r, states[n]);
    }
  }

  lemma LinkAt(ctx: Context, states: seq<State>, log: seq<Issued>, i: nat)
    requires PolicyRules.Covers(ctx.policy.categories) && Chain(ctx, states, log) && i < |log|
    ensures i + 1 < |states| && Linked(ctx, states[i], log[i], states[i + 1])
    ensures IssueStep(ctx.random, states[i], ArgsFor(ctx, log[i].dataClass, log[i].value),
                      Ok(IssuedToken(log[i].token, log[i].created)), states[i + 1])
  {
  }

  lemma StartsIdle(ctx: Context, s: State, log: seq<Issued>)
    requires PolicyRules.Covers(ctx.policy.categories) && Sound(s)
    ensures Working(ctx, s.sequence, s, log[..0])
  {
    forall t | t in s.entries
      ensures s.entries[t].lastUsed <= s.sequence
    {
      assert UsableEntry(s.entries[t], s.sequence);
    }
  }
}
