/**
 * What the token ledger guarantees over whole runs: any sequence of operations, any clock values
 * (time may go backwards between operations), any outcomes of the random source.
 */
module LedgerRuns {
  import opened Domain
  import opened Ledger
  import Tokens

  datatype Event =
    | Issue(args: IssueArgs, result: Result<IssuedToken, LedgerError>)
    | Restore(scope: string, token: string, nowMs: nat, value: Option<string>)
    | Purge(nowMs: nat)
    | Rollback(scope: string, tokens: seq<string>)
    | Clear(scope: string)
    | ClearEverything

  ghost predicate Step(random: Random, s: State, e: Event, s': State) {
    match e
    case Issue(a, r) => IssueStep(random, s, a, r, s')
    case Restore(scope, token, nowMs, value) =>
      value == Lookup(s, scope, token, nowMs) && s' == AfterRestore(s, scope, token, nowMs)
    case Purge(nowMs) => s' == AfterPurge(s, nowMs)
    case Rollback(scope, tokens) => s' == AfterRollback(s, scope, tokens)
    case Clear(scope) => s' == AfterClear(s, scope)
    case ClearEverything => s' == s.(entries := map[])
  }

  ghost predicate Run(random: Random, states: seq<State>, events: seq<Event>) {
    && |states| == |events| + 1
    && 1 <= states[0].maxEntries && states[0] == State(map[], states[0].maxEntries, 0, 0)
    && forall i {:trigger Step(random, states[i], events[i], states[i + 1])} ::
         0 <= i < |events| ==> Step(random, states[i], events[i], states[i + 1])
  }

  lemma StepAt(random: Random, states: seq<State>, events: seq<Event>, i: nat)
    requires Run(random, states, events) && i < |events|
    ensures Step(random, states[i], events[i], states[i + 1])
  {
  }

  // ----- state invariant

  predicate SameValue(e: Entry, f: Entry) {
    e.scope == f.scope && e.dataClass == f.dataClass && e.value == f.value
  }

  /** No two tokens stand for the same value of the same class in the same scope. */
  ghost predicate Unshared(entries: map<string, Entry>) {
    forall t, u {:trigger SameValue(entries[t], entries[u])} ::
      t in entries && u in entries && SameValue(entries[t], entries[u]) ==> t == u
  }

  predicate UsableEntry(e: Entry, sequence: nat) {
    !e.dataClass.HardBlock() && e.value != "" && 1 <= e.lastUsed <= sequence
  }

  /** Entries hold nonempty values of classes that may be restored, and were last used in the past. */
  ghost predicate Usable(entries: map<string, Entry>, sequence: nat) {
    forall t {:trigger UsableEntry(entries[t], sequence)} :: t in entries ==> UsableEntry(entries[t], sequence)
  }

  predicate SameUse(e: Entry, f: Entry) { e.lastUsed == f.lastUsed }

  /** Live entries have pairwise distinct use numbers. */
  ghost predicate DistinctUses(entries: map<string, Entry>) {
    forall t, u {:trigger SameUse(entries[t], entries[u])} ::
      t in entries && u in entries && SameUse(entries[t], entries[u]) ==> t == u
  }

  /** Every key has the form of an issued token. */
  ghost predicate WellNamed(entries: map<string, Entry>) {
    forall t {:trigger Tokens.IsToken(t)} :: t in entries ==> Tokens.IsToken(t)
  }

  ghost predicate Sound(s: State) {
    && 1 <= s.maxEntries && |s.entries| <= s.maxEntries
    && Unshared(s.entries) && Usable(s.entries, s.sequence) && WellNamed(s.entries)
  }

  // ----- smaller maps

  ghost predicate SubMap(a: map<string, Entry>, b: map<string, Entry>) {
    forall t {:trigger t in a} :: t in a ==> t in b && a[t] == b[t]
  }

  lemma SubMapSmaller(a: map<string, Entry>, b: map<string, Entry>)
    requires SubMap(a, b)
    ensures |a| <= |b|
  {
    assert a.Keys <= b.Keys;
    SubsetSmaller(a.Keys, b.Keys);
  }

  lemma {:induction false} SubsetSmaller<T>(a: set<T>, b: set<T>)
    requires a <= b
    ensures |a| <= |b|
    decreases a
  {
    if a != {} {
      var x :| x in a;
      SubsetSmaller(a - {x}, b - {x});
    }
  }

  lemma SubMapUnshared(a: map<string, Entry>, b: map<string, Entry>)
    requires SubMap(a, b)
    ensures Unshared(b) ==> Unshared(a)
    ensures DistinctUses(b) ==> DistinctUses(a)
  {
    if Unshared(b) {
      forall t, u | t in a && u in a && SameValue(a[t], a[u])
        ensures t == u
      {
        assert SameValue(b[t], b[u]);
      }
    }
    if DistinctUses(b) {
      forall t, u | t in a && u in a && SameUse(a[t], a[u])
        ensures t == u
      {
        assert SameUse(b[t], b[u]);
      }
    }
  }

  lemma SubMapSound(a: map<string, Entry>, s: State)
    requires Sound(s) && SubMap(a, s.entries)
    ensures Sound(s.(entries := a))
    ensures DistinctUses(s.entries) ==> DistinctUses(a)
  {
    hide Unshared, DistinctUses, Tokens.IsToken;
    SubMapSmaller(a, s.entries);
    SubMapUnshared(a, s.entries);
    forall t | t in a
      ensures UsableEntry(a[t], s.sequence)
    {
      assert UsableEntry(s.entries[t], s.sequence);
    }
  }

  lemma RoomMade(before: map<string, Entry>, maxEntries: nat, after: map<string, Entry>)
    requires MadeRoom(before, maxEntries, after) && 1 <= maxEntries && |before| <= maxEntries
    ensures SubMap(after, before) && |after| < maxEntries
  {
    if |before| >= maxEntries {
      var t :| IsLru(before, t) && after == before - {t};
      assert after.Keys == before.Keys - {t};
    }
  }

  // ----- the invariant holds throughout

  /** Writing a freshly used entry that shares its value with no other token keeps values and uses distinct. */
  lemma WriteUnshared(entries: map<string, Entry>, sequence: nat, t: string, e: Entry)
    requires Unshared(entries) && Usable(entries, sequence) && e.lastUsed == sequence + 1
    requires forall u :: u in entries && u != t ==> !SameValue(e, entries[u])
    ensures Unshared(entries[t := e])
    ensures DistinctUses(entries) ==> DistinctUses(entries[t := e])
  {
    var after := entries[t := e];
    forall x, y | x in after && y in after && SameValue(after[x], after[y])
      ensures x == y
    {
      if x != t && y != t {
        assert SameValue(entries[x], entries[y]);
      }
    }
    if DistinctUses(entries) {
      forall x, y | x in after && y in after && SameUse(after[x], after[y])
        ensures x == y
      {
        assert x != t ==> UsableEntry(entries[x], sequence);
        assert y != t ==> UsableEntry(entries[y], sequence);
        if x != t && y != t {
          assert SameUse(entries[x], entries[y]);
        }
      }
    }
  }

  lemma WriteUsable(entries: map<string, Entry>, sequence: nat, t: string, e: Entry)
    requires Usable(entries, sequence) && UsableEntry(e, sequence + 1)
    ensures Usable(entries[t := e], sequence + 1)
  {
    var after := entries[t := e];
    forall u | u in after
      ensures UsableEntry(after[u], sequence + 1)
    {
      assert u != t ==> UsableEntry(entries[u], sequence);
    }
  }

  lemma TouchSound(s: State, t: string, e: Entry)
    requires Sound(s) && t in s.entries && s.sequence < U64_MAX
    requires SameValue(e, s.entries[t]) && e.lastUsed == s.sequence + 1
    ensures Sound(s.(entries := s.entries[t := e], sequence := s.sequence + 1))
    ensures DistinctUses(s.entries) ==> DistinctUses(s.entries[t := e])
  {
    hide DistinctUses, Tokens.IsToken;
    assert s.entries[t := e].Keys == s.entries.Keys;
    assert UsableEntry(s.entries[t], s.sequence);
    forall u | u in s.entries && u != t
      ensures !SameValue(e, s.entries[u])
    {
      assert !SameValue(s.entries[t], s.entries[u]);
    }
    WriteUnshared(s.entries, s.sequence, t, e);
    WriteUsable(s.entries, s.sequence, t, e);
  }

  lemma InsertSound(s: State, t: string, e: Entry)
    requires Sound(s) && t !in s.entries && |s.entries| < s.maxEntries && s.sequence < U64_MAX && Tokens.IsToken(t)
    requires !e.dataClass.HardBlock() && e.value != "" && e.lastUsed == s.sequence + 1
    requires !HoldsSome(s.entries, e.scope, e.dataClass, e.value)
    ensures Sound(s.(entries := s.entries[t := e], sequence := s.sequence + 1))
    ensures DistinctUses(s.entries) ==> DistinctUses(s.entries[t := e])
  {
    hide DistinctUses, Tokens.IsToken;
    assert s.entries[t := e].Keys == s.entries.Keys + {t};
    forall u | u in s.entries && u != t
      ensures !SameValue(e, s.entries[u])
    {
      assert !Holds(s.entries, u, e.scope, e.dataClass, e.value);
    }
    WriteUnshared(s.entries, s.sequence, t, e);
    WriteUsable(s.entries, s.sequence, t, e);
  }

  lemma BumpSound(s: State)
    requires Sound(s)
    ensures Sound(s.(sequence := Bump(s.sequence)))
  {
    hide Unshared, WellNamed;
    forall t | t in s.entries
      ensures UsableEntry(s.entries[t], Bump(s.sequence))
    {
      assert UsableEntry(s.entries[t], s.sequence);
    }
  }

  lemma IssueSound(random: Random, s: State, a: IssueArgs, r: Result<IssuedToken, LedgerError>, s': State)
    requires Sound(s) && DistinctUses(s.entries) && s.sequence < U64_MAX && IssueStep(random, s, a, r, s')
    ensures Sound(s') && DistinctUses(s'.entries) && s'.maxEntries == s.maxEntries
    ensures s.sequence <= s'.sequence <= s.sequence + 1
  {
    hide Sound, DistinctUses, Mint, HoldsSome, Holds, MadeRoom, Tokens.IsToken;
    if Refusal(a).None? {
      var p := AfterPurge(s, a.nowMs);
      SubMapSound(p.entries, s);
      if HoldsSome(p.entries, a.scope, a.dataClass, a.value) {
        var t := r.value.token;
        ReuseFacts(s, a, t, s');
        TouchSound(p, t, s'.entries[t]);
      } else {
        var room :| MadeRoom(p.entries, s.maxEntries, room) && CreatedFrom(random, s, a, room, r, s');
        SoundBounds(p);
        RoomMade(p.entries, s.maxEntries, room);
        SubMapSound(room, p);
        match Mint(random, s.drawn, MAX_TOKEN_ATTEMPTS, a.dataClass, room.Keys)
        case MintFailed(_, drawn) =>
          BumpSound(p.(entries := room));
          DrawnIrrelevant(p.(entries := room, sequence := Bump(s.sequence)), drawn);
        case Minted(t, drawn) =>
          MintedIsToken(random, s.drawn, MAX_TOKEN_ATTEMPTS, a.dataClass, room.Keys);
          RoomHoldsNone(p.entries, room, a);
          var q := p.(entries := room);
          InsertSound(q, t, s'.entries[t]);
          DrawnIrrelevant(q.(entries := room[t := s'.entries[t]], sequence := s.sequence + 1), drawn);
      }
    }
  }

  lemma {:induction false} MintedIsToken(random: Random, drawn: nat, attempts: nat, c: DataClass, taken: set<string>)
    requires !c.HardBlock() && Mint(random, drawn, attempts, c, taken).Minted?
    ensures Tokens.IsToken(Mint(random, drawn, attempts, c, taken).token)
    decreases attempts
  {
    hide Tokens.IsToken, TokenText;
    var bytes := random(drawn).bytes;
    Tokens.IssuedIsToken(c, bytes);
    if TokenText(c, bytes) in taken {
      MintedIsToken(random, drawn + 1, attempts - 1, c, taken);
    }
  }

  lemma SoundBounds(s: State)
    requires Sound(s)
    ensures 1 <= s.maxEntries && |s.entries| <= s.maxEntries
  {
  }

  lemma DrawnIrrelevant(s: State, drawn: nat)
    requires Sound(s)
    ensures Sound(s.(drawn := drawn))
  {
  }

  lemma ReuseFacts(s: State, a: IssueArgs, t: string, s': State)
    requires Reused(s, a, t, s')
    ensures var p := Purged(s.entries, a.nowMs);
            && t in p && t in s'.entries
            && p[t].scope == a.scope && p[t].dataClass == a.dataClass && p[t].value == a.value
            && s'.entries[t] == p[t].(expiresAtMs := a.ExpiresAtMs(), lastUsed := Bump(s.sequence))
            && s' == s.(entries := p[t := s'.entries[t]], sequence := Bump(s.sequence))
  {
  }

  lemma RoomHoldsNone(before: map<string, Entry>, room: map<string, Entry>, a: IssueArgs)
    requires SubMap(room, before) && !HoldsSome(before, a.scope, a.dataClass, a.value)
    ensures !HoldsSome(room, a.scope, a.dataClass, a.value)
  {
    forall t
      ensures !Holds(room, t, a.scope, a.dataClass, a.value)
    {
      assert !Holds(before, t, a.scope, a.dataClass, a.value);
    }
  }

  lemma StepSound(random: Random, s: State, e: Event, s': State)
    requires Sound(s) && DistinctUses(s.entries) && s.sequence < U64_MAX && Step(random, s, e, s')
    ensures Sound(s') && DistinctUses(s'.entries) && s'.maxEntries == s.maxEntries
    ensures s.sequence <= s'.sequence <= s.sequence + 1
  {
    hide Sound, DistinctUses, IssueStep;
    match e
    case Issue(a, r) => IssueSound(random, s, a, r, s');
    case Restore(scope, token, nowMs, value) =>
      var p := AfterPurge(s, nowMs);
      SubMapSound(p.entries, s);
      if value.Some? {
        TouchSound(p, token, s'.entries[token]);
      } else {
        BumpSound(p);
      }
    case Purge(nowMs) => SubMapSound(s'.entries, s);
    case Rollback(scope, tokens) => SubMapSound(s'.entries, s);
    case Clear(scope) => SubMapSound(s'.entries, s);
    case ClearEverything => SubMapSound(s'.entries, s);
  }

  /**
   * Over any run short of 2^64 operations the ledger never exceeds its capacity, never holds the same
   * value twice, never holds a hard-block class, and its use numbers stay distinct.
   */
  lemma {:induction false} RunSound(random: Random, states: seq<State>, events: seq<Event>, n: nat)
    requires Run(random, states, events) && n <= |events| <= U64_MAX
    ensures Sound(states[n]) && DistinctUses(states[n].entries)
    ensures states[n].maxEntries == states[0].maxEntries && states[n].sequence <= n
  {
    if n > 0 {
      RunSound(random, states, events, n - 1);
      StepAt(random, states, events, n - 1);
      StepSound(random, states[n - 1], events[n - 1], states[n]);
    }
  }

  // ----- what the entries remember of the past

  datatype Kind = Creation | Issuance | Touch

  /** The event creates the token, hands it out, or hands it out or its value back. */
  predicate Is(kind: Kind, e: Event, t: string) {
    if e.Issue? then e.result.Ok? && e.result.value.token == t && (kind.Creation? ==> e.result.value.created)
    else kind.Touch? && e.Restore? && e.token == t && e.value.Some?
  }

  /** The last event of the kind before position `n`, -1 if there is none. */
  function Last(kind: Kind, events: seq<Event>, n: nat, t: string): (i: int)
    requires n <= |events|
    ensures -1 <= i < n
    ensures i >= 0 ==> Is(kind, events[i], t)
    ensures forall j :: i < j < n ==> !Is(kind, events[j], t)
  {
    if n == 0 then -1 else if Is(kind, events[n - 1], t) then n - 1 else Last(kind, events, n - 1, t)
  }

  predicate Agrees(entry: Entry, a: IssueArgs) {
    entry.scope == a.scope && entry.dataClass == a.dataClass && entry.value == a.value
  }

  /** What one operation can have done to an entry that is there afterwards. */
  ghost predicate Fate(s: State, e: Event, s': State, t: string)
    requires t in s'.entries
  {
    var entry := s'.entries[t];
    if Is(Creation, e, t) then
      e.Issue? && Agrees(entry, e.args) && entry.expiresAtMs == e.args.ExpiresAtMs() && entry.lastUsed == s'.sequence
    else if Is(Issuance, e, t) then
      && t in s.entries && SameValue(s.entries[t], entry)
      && e.Issue? && Agrees(entry, e.args) && entry.expiresAtMs == e.args.ExpiresAtMs() && entry.lastUsed == s'.sequence
    else if Is(Touch, e, t) then
      t in s.entries && entry == s.entries[t].(lastUsed := s'.sequence)
    else
      t in s.entries && entry == s.entries[t]
  }

  lemma EntryFate(random: Random, s: State, e: Event, s': State, t: string)
    requires Step(random, s, e, s') && t in s'.entries
    ensures Fate(s, e, s', t)
  {
    hide Mint;
    if e.Issue? && Refusal(e.args).None? &&
       !HoldsSome(Purged(s.entries, e.args.nowMs), e.args.scope, e.args.dataClass, e.args.value) {
      var room :| MadeRoom(Purged(s.entries, e.args.nowMs), s.maxEntries, room)
        && CreatedFrom(random, s, e.args, room, e.result, s');
    }
  }

  /** Between its last creation and now the token was never absent and never stood for anything else. */
  ghost predicate HeldSince(states: seq<State>, c: int, n: nat, t: string, entry: Entry)
    requires -1 <= c && n < |states|
  {
    forall j {:trigger states[j]} :: c < j <= n ==> t in states[j].entries && SameValue(states[j].entries[t], entry)
  }

  /** An entry carries the value it was created for, the expiry of its last issue and the number of its last use. */
  ghost predicate Remembered(states: seq<State>, events: seq<Event>, n: nat, t: string)
    requires n <= |events| < |states| && t in states[n].entries
  {
    var entry := states[n].entries[t];
    var c, i, u := Last(Creation, events, n, t), Last(Issuance, events, n, t), Last(Touch, events, n, t);
    && 0 <= c <= i <= u
    && Agrees(entry, events[c].args) && Agrees(entry, events[i].args)
    && entry.expiresAtMs == events[i].args.ExpiresAtMs()
    && entry.lastUsed == states[u + 1].sequence
    && HeldSince(states, c, n, t, entry)
  }

  lemma {:induction false} EntriesRemembered(random: Random, states: seq<State>, events: seq<Event>, n: nat, t: string)
    requires Run(random, states, events) && n <= |events| && t in states[n].entries
    ensures Remembered(states, events, n, t)
  {
    hide Step, Run;
    RunStarts(random, states, events);
    if n > 0 {
      StepAt(random, states, events, n - 1);
      var s, e, s' := states[n - 1], events[n - 1], states[n];
      EntryFate(random, s, e, s', t);
      if Is(Creation, e, t) {
      } else {
        EntriesRemembered(random, states, events, n - 1, t);
        HeldOneMore(states, Last(Creation, events, n - 1, t), n - 1, t, s.entries[t], s'.entries[t]);
      }
    }
  }

  lemma RunStarts(random: Random, states: seq<State>, events: seq<Event>)
    requires Run(random, states, events)
    ensures |states| == |events| + 1 && states[0].entries == map[] && 1 <= states[0].maxEntries
  {
  }

  lemma HeldOneMore(states: seq<State>, c: int, n: nat, t: string, entry: Entry, next: Entry)
    requires -1 <= c <= n && n + 1 < |states| && HeldSince(states, c, n, t, entry) && SameValue(entry, next)
    requires t in states[n + 1].entries && states[n + 1].entries[t] == next
    ensures HeldSince(states, c, n + 1, t, next)
  {
  }

  /** The event takes the token away if it belongs to the scope. */
  predicate Revokes(e: Event, scope: string, t: string) {
    match e
    case Rollback(s, tokens) => s == scope && t in tokens
    case Clear(s) => s == scope
    case ClearEverything => true
    case _ => false
  }

  /**
   * Soundness of restoration over any run: a value comes back only if the token's last creation was for
   * that value in that scope, its last issue has not expired at the time of the query, and nothing
   * revoked it in between.
   */
  lemma RestorationSound(random: Random, states: seq<State>, events: seq<Event>, k: nat)
    requires Run(random, states, events) && k < |events| && events[k].Restore? && events[k].value.Some?
    ensures var e := events[k];
            var c, i := Last(Creation, events, k, e.token), Last(Issuance, events, k, e.token);
            && 0 <= c <= i
            && events[c].args.scope == e.scope && events[c].args.value == e.value.value
            && events[i].args.scope == e.scope && events[i].args.value == e.value.value
            && e.nowMs < events[i].args.ExpiresAtMs()
            && forall j :: c < j < k ==> !Revokes(events[j], e.scope, e.token)
  {
    hide Run;
    var e := events[k];
    RunStarts(random, states, events);
    StepAt(random, states, events, k);
    EntriesRemembered(random, states, events, k, e.token);
    var c := Last(Creation, events, k, e.token);
    forall j | c < j < k
      ensures !Revokes(events[j], e.scope, e.token)
    {
      StepAt(random, states, events, j);
      assert e.token in states[j + 1].entries && e.token in states[j].entries;
      assert SameValue(states[j].entries[e.token], states[k].entries[e.token]);
    }
  }

  /** With lifetimes of at most half an hour, as every validated policy has them, so is the window of restoration. */
  lemma RestorationWindow(random: Random, states: seq<State>, events: seq<Event>, k: nat)
    requires Run(random, states, events) && k < |events| && events[k].Restore? && events[k].value.Some?
    requires forall j :: 0 <= j < k && events[j].Issue? ==> events[j].args.ttlSeconds <= 30 * 60
    ensures var i := Last(Issuance, events, k, events[k].token);
            0 <= i && events[k].nowMs < events[i].args.nowMs + 1_800_000
  {
    RestorationSound(random, states, events, k);
  }

  // ----- least recently used

  function TouchedBy(e: Event): set<string> {
    match e
    case Issue(_, Ok(issued)) => {issued.token}
    case Restore(_, token, _, Some(_)) => {token}
    case _ => {}
  }

  /** The tokens issued or restored by the events from `from` up to `to`. */
  function TouchedIn(events: seq<Event>, from: nat, to: nat): set<string>
    requires to <= |events|
  {
    if to <= from then {} else TouchedIn(events, from, to - 1) + TouchedBy(events[to - 1])
  }

  lemma {:induction false} TouchCounts(events: seq<Event>, from: nat, to: nat, i: nat, t: string)
    requires from <= i < to <= |events| && Is(Touch, events[i], t)
    ensures t in TouchedIn(events, from, to)
  {
    if i < to - 1 {
      TouchCounts(events, from, to - 1, i, t);
    }
  }

  /** An unexpired entry leaves the ledger to make room for a new one. */
  ghost predicate Evicted(states: seq<State>, events: seq<Event>, k: nat, t: string)
    requires k < |events| < |states|
  {
    && events[k].Issue? && t in states[k].entries
    && states[k].entries[t].expiresAtMs > events[k].args.nowMs
    && (t !in states[k + 1].entries || Is(Creation, events[k], t))
  }

  lemma EvictionNeedsRoom(random: Random, s: State, a: IssueArgs, r: Result<IssuedToken, LedgerError>, s': State,
                          t: string)
    requires Sound(s) && IssueStep(random, s, a, r, s')
    requires t in s.entries && s.entries[t].expiresAtMs > a.nowMs
    requires t !in s'.entries || Is(Creation, Issue(a, r), t)
    ensures |Purged(s.entries, a.nowMs)| >= s.maxEntries && IsLru(Purged(s.entries, a.nowMs), t)
    ensures t in Purged(s.entries, a.nowMs) && SubMap(Purged(s.entries, a.nowMs), s.entries)
    ensures r.Ok? ==> r.value.created && (r.value.token == t || r.value.token !in Purged(s.entries, a.nowMs))
  {
    hide Mint;
    var p := Purged(s.entries, a.nowMs);
    assert t in p;
    assert Refusal(a).None?;
    assert !HoldsSome(p, a.scope, a.dataClass, a.value);
    var room :| MadeRoom(p, s.maxEntries, room) && CreatedFrom(random, s, a, room, r, s');
    assert t !in room;
  }

  lemma {:induction false} SequenceMonotone(random: Random, states: seq<State>, events: seq<Event>, i: nat, j: nat)
    requires Run(random, states, events) && i <= j <= |events| <= U64_MAX
    ensures states[i].sequence <= states[j].sequence
  {
    if i < j {
      SequenceMonotone(random, states, events, i, j - 1);
      RunSound(random, states, events, j - 1);
      StepAt(random, states, events, j - 1);
      StepSound(random, states[j - 1], events[j - 1], states[j]);
    }
  }

  lemma LastUse(random: Random, states: seq<State>, events: seq<Event>, k: nat, t: string)
    requires Run(random, states, events) && k <= |events| < |states| && t in states[k].entries
    ensures 0 <= Last(Touch, events, k, t) < k
    ensures states[k].entries[t].lastUsed == states[Last(Touch, events, k, t) + 1].sequence
  {
    hide Run, HeldSince, Is;
    EntriesRemembered(random, states, events, k, t);
  }

  /** Every other unexpired token has been used after the victim. */
  lemma OthersUsedLater(random: Random, states: seq<State>, events: seq<Event>, k: nat, t: string, x: string)
    requires Run(random, states, events) && k < |events| <= U64_MAX
    requires t in states[k].entries && x in states[k].entries && x != t
    requires states[k].entries[t].lastUsed <= states[k].entries[x].lastUsed
    ensures 0 <= Last(Touch, events, k, t) < Last(Touch, events, k, x)
  {
    hide *;
    RunStarts(random, states, events);
    RunSound(random, states, events, k);
    LastUse(random, states, events, k, t);
    LastUse(random, states, events, k, x);
    UsesDiffer(states[k].entries, t, x);
    var u, v := Last(Touch, events, k, t), Last(Touch, events, k, x);
    if v <= u {
      SequenceMonotone(random, states, events, v + 1, u + 1);
    }
  }

  lemma UsesDiffer(entries: map<string, Entry>, t: string, x: string)
    requires DistinctUses(entries) && t in entries && x in entries && t != x
    ensures entries[t].lastUsed != entries[x].lastUsed
  {
    assert !SameUse(entries[t], entries[x]);
  }

  /**
   * The working set of the ledger. When an unexpired token is evicted, at least `maxEntries - 1` other
   * tokens have been issued or restored since its own last use; with the new token that makes it
   * `maxEntries`, provided the operation did issue a token other than the victim.
   */
  lemma EvictionNeedsUse(random: Random, states: seq<State>, events: seq<Event>, k: nat, t: string)
    requires Run(random, states, events) && k < |events| <= U64_MAX && |events| < |states|
    requires Evicted(states, events, k, t)
    ensures var u := Last(Touch, events, k, t);
            && 0 <= u
            && |TouchedIn(events, u + 1, k) - {t}| >= states[0].maxEntries - 1
            && (events[k].result.Ok? && events[k].result.value.token != t ==>
                  |TouchedIn(events, u + 1, k + 1) - {t}| >= states[0].maxEntries)
  {
    hide Run, Sound, TouchedIn, IsLru, IssueStep, Purged, SubMap;
    RunSound(random, states, events, k);
    StepAt(random, states, events, k);
    var a, r := events[k].args, events[k].result;
    EvictionNeedsRoom(random, states[k], a, r, states[k + 1], t);
    var p, u := Purged(states[k].entries, a.nowMs), Last(Touch, events, k, t);
    OthersTouched(random, states, events, k, t, p);
    CountOthers(p, t, TouchedIn(events, u + 1, k));
    if r.Ok? && r.value.token != t {
      TouchedGrows(events, u + 1, k, r.value.token);
      CountWithNew(p, t, r.value.token, TouchedIn(events, u + 1, k), TouchedIn(events, u + 1, k + 1));
    }
  }

  /** What an issue at this moment would put in place of `t`, were it the least recently used of a full ledger. */
  ghost function MintedOver(random: Random, s: State, a: IssueArgs, t: string): Minted {
    Mint(random, s.drawn, MAX_TOKEN_ATTEMPTS, a.dataClass, (Purged(s.entries, a.nowMs) - {t}).Keys)
  }

  lemma EvictionMints(random: Random, s: State, a: IssueArgs, r: Result<IssuedToken, LedgerError>, s': State, t: string)
    requires IssueStep(random, s, a, r, s')
    requires t in s.entries && s.entries[t].expiresAtMs > a.nowMs
    requires t !in s'.entries || Is(Creation, Issue(a, r), t)
    ensures r.Ok? <==> MintedOver(random, s, a, t).Minted?
    ensures r.Ok? ==> r.value.token == MintedOver(random, s, a, t).token
  {
    hide Mint;
    var p := Purged(s.entries, a.nowMs);
    assert t in p;
    assert Refusal(a).None?;
    assert !HoldsSome(p, a.scope, a.dataClass, a.value);
    var room :| MadeRoom(p, s.maxEntries, room) && CreatedFrom(random, s, a, room, r, s');
    assert t !in room;
    assert room == p - {t};
  }

  lemma EvictedMeans(random: Random, states: seq<State>, events: seq<Event>, k: nat, t: string)
    requires Run(random, states, events) && k < |events| < |states| && Evicted(states, events, k, t)
    ensures var a, r := events[k].args, events[k].result;
            && events[k] == Issue(a, r) && IssueStep(random, states[k], a, r, states[k + 1])
            && t in states[k].entries && states[k].entries[t].expiresAtMs > a.nowMs
            && (t !in states[k + 1].entries || Is(Creation, Issue(a, r), t))
  {
    hide Run, IssueStep;
    StepAt(random, states, events, k);
  }

  /**
   * Exactly when the full working-set bound holds for an evicted token. Up to and including the eviction
   * at least `maxEntries` other tokens were issued or restored since its last use if and only if, before the
   * call, that many had been already, or the eight draws to come yield a token free to take other than itself.
   */
  lemma EvictionBoundExactly(random: Random, states: seq<State>, events: seq<Event>, k: nat, t: string)
    requires Run(random, states, events) && k < |events| <= U64_MAX && |events| < |states|
    requires Evicted(states, events, k, t)
    ensures var u, m := Last(Touch, events, k, t), MintedOver(random, states[k], events[k].args, t);
            && 0 <= u
            && (|TouchedIn(events, u + 1, k + 1) - {t}| >= states[0].maxEntries <==>
                  (m.Minted? && m.token != t) || |TouchedIn(events, u + 1, k) - {t}| >= states[0].maxEntries)
  {
    hide *;
    EvictedMeans(random, states, events, k, t);
    EvictionNeedsUse(random, states, events, k, t);
    EvictionMints(random, states[k], events[k].args, events[k].result, states[k + 1], t);
    TouchedAfter(events, Last(Touch, events, k, t) + 1, k, t);
  }

  /** A failing issue touches nothing, and one of the victim's own name touches no other token. */
  lemma TouchedAfter(events: seq<Event>, from: nat, k: nat, t: string)
    requires from <= k < |events| && events[k].Issue?
    ensures var before, after, r :=
              TouchedIn(events, from, k) - {t}, TouchedIn(events, from, k + 1) - {t}, events[k].result;
            && |before| <= |after|
            && (r.Err? || r.value.token == t ==> after == before)
  {
    SubsetSmaller(TouchedIn(events, from, k) - {t}, TouchedIn(events, from, k + 1) - {t});
  }

  lemma CountOthers(p: map<string, Entry>, t: string, touched: set<string>)
    requires t in p && p.Keys - {t} <= touched - {t}
    ensures |touched - {t}| >= |p| - 1
  {
    assert |p.Keys - {t}| == |p| - 1;
    SubsetSmaller(p.Keys - {t}, touched - {t});
  }

  lemma CountWithNew(p: map<string, Entry>, t: string, x: string, touched: set<string>, more: set<string>)
    requires t in p && x !in p && p.Keys - {t} <= touched - {t} && touched + {x} <= more
    ensures |more - {t}| >= |p|
  {
    var wanted := p.Keys - {t} + {x};
    assert |wanted| == |p|;
    SubsetSmaller(wanted, more - {t});
  }

  lemma OthersTouched(random: Random, states: seq<State>, events: seq<Event>, k: nat, t: string, p: map<string, Entry>)
    requires Run(random, states, events) && k < |events| <= U64_MAX
    requires SubMap(p, states[k].entries) && IsLru(p, t)
    ensures 0 <= Last(Touch, events, k, t)
    ensures p.Keys - {t} <= TouchedIn(events, Last(Touch, events, k, t) + 1, k) - {t}
  {
    hide Run, TouchedIn;
    EntriesRemembered(random, states, events, k, t);
    forall x | x in p.Keys - {t}
      ensures x in TouchedIn(events, Last(Touch, events, k, t) + 1, k)
    {
      OthersUsedLater(random, states, events, k, t, x);
      TouchCounts(events, Last(Touch, events, k, t) + 1, k, Last(Touch, events, k, x), x);
    }
  }

  lemma TouchedGrows(events: seq<Event>, from: nat, k: nat, t: string)
    requires from <= k < |events| && t in TouchedBy(events[k])
    ensures TouchedIn(events, from, k) + {t} <= TouchedIn(events, from, k + 1)
  {
  }

  function OneEmail(t: string): State {
    State(map[t := Entry("scope", Email, "a", 60_000, 1)], 1, 1, 1)
  }

  lemma FirstIssue(random: Random, bytes: Block)
    requires random(0) == Filled(bytes)
    ensures var t := TokenText(Email, bytes);
            IssueStep(random, State(map[], 1, 0, 0), IssueArgs("scope", Email, "a", 0, 60), Ok(IssuedToken(t, true)),
                      OneEmail(t))
  {
    hide TokenText;
    var s, a, t := State(map[], 1, 0, 0), IssueArgs("scope", Email, "a", 0, 60), TokenText(Email, bytes);
    assert Purged(s.entries, 0) == map[];
    assert MadeRoom(map[], 1, map[]);
    assert CreatedFrom(random, s, a, map[], Ok(IssuedToken(t, true)), OneEmail(t));
  }

  lemma SecondIssue(random: Random, t: string)
    requires random(1) == Unavailable
    ensures IssueStep(random, OneEmail(t), IssueArgs("scope", Email, "b", 0, 60), Err(RandomUnavailable),
                      State(map[], 1, 2, 2))
  {
    var s, a := OneEmail(t), IssueArgs("scope", Email, "b", 0, 60);
    assert Purged(s.entries, 0) == s.entries;
    assert IsLru(s.entries, t) && s.entries - {t} == map[];
    assert MadeRoom(s.entries, 1, map[]);
    assert CreatedFrom(random, s, a, map[], Err(RandomUnavailable), State(map[], 1, 2, 2));
  }

  /**
   * The bound of `maxEntries - 1` is met: in a ledger of capacity 1 a failing issue evicts the only
   * token although no other token was ever issued or restored.
   */
  lemma FailedIssueStillEvicts() returns (random: Random, states: seq<State>, events: seq<Event>)
    ensures Run(random, states, events) && |events| == 2 && |states| == 3 && states[0].maxEntries == 1
    ensures events[0].Issue? && events[0].result.Ok? && events[1].Issue? && events[1].result == Err(RandomUnavailable)
    ensures Evicted(states, events, 1, events[0].result.value.token)
    ensures TouchedIn(events, 1, 2) == {}
  {
    hide TokenText, IssueStep;
    var zeros: Block := seq(TOKEN_RANDOM_BYTES, i => 0);
    random := (i: nat) => if i == 0 then Filled(zeros) else Unavailable;
    var t := TokenText(Email, zeros);
    FirstIssue(random, zeros);
    SecondIssue(random, t);
    states := [State(map[], 1, 0, 0), OneEmail(t), State(map[], 1, 2, 2)];
    events := [Issue(IssueArgs("scope", Email, "a", 0, 60), Ok(IssuedToken(t, true))),
               Issue(IssueArgs("scope", Email, "b", 0, 60), Err(RandomUnavailable))];
    assert Step(random, states[0], events[0], states[1]);
    assert Step(random, states[1], events[1], states[2]);
  }
}
