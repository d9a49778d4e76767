/**
 * The memory-only token ledger (src/ledger.rs): a bounded map with expiry, least-recently-used
 * eviction, session scopes and reuse of live tokens. Time stamps are whatever the caller passes
 * and the random source is adversarial: any function from draw numbers to outcomes.
 */
module Ledger {
  import opened Domain

  const TOKEN_RANDOM_BYTES: nat := 16
  const MAX_TOKEN_ATTEMPTS: nat := 8
  const MAX_CAPACITY: nat := 16_384

  predicate IsBlock(b: seq<nat>) { |b| == TOKEN_RANDOM_BYTES && forall i :: 0 <= i < |b| ==> b[i] < 0x100 }

  type Block = b: seq<nat> | IsBlock(b) witness seq(TOKEN_RANDOM_BYTES, i => 0)

  /** One call of the random source. */
  datatype Draw = Filled(bytes: Block) | Unavailable

  type Random = nat -> Draw

  datatype Entry = Entry(scope: string, dataClass: DataClass, value: string, expiresAtMs: nat, lastUsed: nat)

  datatype State = State(entries: map<string, Entry>, maxEntries: nat, sequence: nat, drawn: nat)

  datatype LedgerError =
    | InvalidCapacity
    | EmptyValue
    | NonRestorableClass(dataClass: DataClass)
    | RandomUnavailable
    | TokenCollision
    | ExpiryOverflow

  datatype IssuedToken = IssuedToken(token: string, created: bool)

  // ----- tokens

  function HexUpper(d: nat): char
    requires d < 16
  {
    if d < 10 then ('0' as int + d) as char else ('A' as int + d - 10) as char
  }

  function HexEncode(bytes: seq<nat>): (s: string)
    requires forall i :: 0 <= i < |bytes| ==> bytes[i] < 0x100
    ensures |s| == 2 * |bytes|
  {
    if bytes == [] then ""
    else HexEncode(bytes[..|bytes| - 1]) + [HexUpper(bytes[|bytes| - 1] / 16), HexUpper(bytes[|bytes| - 1] % 16)]
  }

  function TokenText(dataClass: DataClass, bytes: Block): string {
    "[AV_" + dataClass.TokenLabel() + "_" + HexEncode(bytes) + "]"
  }

  // ----- the state after each operation

  function Purged(entries: map<string, Entry>, nowMs: nat): map<string, Entry> {
    map t | t in entries && entries[t].expiresAtMs > nowMs :: entries[t]
  }

  function Bump(sequence: nat): nat {
    if sequence < U64_MAX then sequence + 1 else sequence
  }

  predicate Holds(entries: map<string, Entry>, t: string, scope: string, dataClass: DataClass, value: string) {
    t in entries && entries[t].scope == scope && entries[t].dataClass == dataClass && entries[t].value == value
  }

  ghost predicate HoldsSome(entries: map<string, Entry>, scope: string, dataClass: DataClass, value: string) {
    exists t :: Holds(entries, t, scope, dataClass, value)
  }

  ghost predicate IsLru(entries: map<string, Entry>, t: string) {
    t in entries && forall u :: u in entries ==> entries[t].lastUsed <= entries[u].lastUsed
  }

  /** `after` is `before` with one least recently used entry removed if the ledger was full. */
  ghost predicate MadeRoom(before: map<string, Entry>, maxEntries: nat, after: map<string, Entry>) {
    if |before| >= maxEntries && before != map[]
    then exists t :: IsLru(before, t) && after == before - {t}
    else after == before
  }

  datatype Minted = Minted(token: string, drawn: nat) | MintFailed(error: LedgerError, drawn: nat)

  /** Draws until a token comes up that is not taken, at most `attempts` times. */
  function Mint(random: Random, drawn: nat, attempts: nat, dataClass: DataClass, taken: set<string>): (m: Minted)
    ensures m.Minted? ==> m.token !in taken
    ensures m.MintFailed? ==> m.error == TokenCollision || m.error == RandomUnavailable
    decreases attempts
  {
    if attempts == 0 then MintFailed(TokenCollision, drawn)
    else
      match random(drawn)
      case Unavailable => MintFailed(RandomUnavailable, drawn + 1)
      case Filled(bytes) =>
        var token := TokenText(dataClass, bytes);
        if token in taken then Mint(random, drawn + 1, attempts - 1, dataClass, taken) else Minted(token, drawn + 1)
  }

  datatype IssueArgs = IssueArgs(scope: string, dataClass: DataClass, value: string, nowMs: nat, ttlSeconds: nat) {
    function ExpiresAtMs(): nat { nowMs + ttlSeconds * 1000 }
  }

  /** The checks made before the ledger is touched. */
  function Refusal(a: IssueArgs): Option<LedgerError> {
    if a.value == "" then Some(EmptyValue)
    else if a.dataClass.HardBlock() then Some(NonRestorableClass(a.dataClass))
    else if a.ttlSeconds * 1000 > U64_MAX then Some(ExpiryOverflow)
    else if a.ExpiresAtMs() > U64_MAX then Some(ExpiryOverflow)
    else None
  }

  ghost predicate Reused(s: State, a: IssueArgs, t: string, s': State) {
    var entries := Purged(s.entries, a.nowMs);
    && Holds(entries, t, a.scope, a.dataClass, a.value)
    && s' == s.(entries := entries[t := entries[t].(expiresAtMs := a.ExpiresAtMs(), lastUsed := Bump(s.sequence))],
                sequence := Bump(s.sequence))
  }

  ghost predicate CreatedFrom(random: Random, s: State, a: IssueArgs, room: map<string, Entry>,
                              r: Result<IssuedToken, LedgerError>, s': State)
  {
    match Mint(random, s.drawn, MAX_TOKEN_ATTEMPTS, a.dataClass, room.Keys)
    case MintFailed(error, drawn) =>
      r == Err(error) && s' == s.(entries := room, sequence := Bump(s.sequence), drawn := drawn)
    case Minted(token, drawn) =>
      && r == Ok(IssuedToken(token, true))
      && s' == s.(entries := room[token := Entry(a.scope, a.dataClass, a.value, a.ExpiresAtMs(), Bump(s.sequence))],
                  sequence := Bump(s.sequence), drawn := drawn)
  }

  /** `issue_tracked`, up to the iteration order of the hash map. */
  ghost predicate IssueStep(random: Random, s: State, a: IssueArgs, r: Result<IssuedToken, LedgerError>, s': State) {
    match Refusal(a)
    case Some(error) => r == Err(error) && s' == s
    case None =>
      if HoldsSome(Purged(s.entries, a.nowMs), a.scope, a.dataClass, a.value)
      then r.Ok? && !r.value.created && Reused(s, a, r.value.token, s')
      else exists room ::
             MadeRoom(Purged(s.entries, a.nowMs), s.maxEntries, room) && CreatedFrom(random, s, a, room, r, s')
  }

  /** What `restore_exact` returns. */
  function Lookup(s: State, scope: string, token: string, nowMs: nat): Option<string> {
    if token in s.entries && s.entries[token].scope == scope && s.entries[token].expiresAtMs > nowMs
    then Some(s.entries[token].value) else None
  }

  function AfterRestore(s: State, scope: string, token: string, nowMs: nat): State {
    var entries := Purged(s.entries, nowMs);
    s.(entries := if Lookup(s, scope, token, nowMs).Some?
                  then entries[token := entries[token].(lastUsed := Bump(s.sequence))] else entries,
       sequence := Bump(s.sequence))
  }

  function AfterPurge(s: State, nowMs: nat): State {
    s.(entries := Purged(s.entries, nowMs))
  }

  function AfterRollback(s: State, scope: string, tokens: seq<string>): State {
    s.(entries := map t | t in s.entries && !(t in tokens && s.entries[t].scope == scope) :: s.entries[t])
  }

  function AfterClear(s: State, scope: string): State {
    s.(entries := map t | t in s.entries && s.entries[t].scope != scope :: s.entries[t])
  }

  // ----- the ledger

  class TokenLedger {
    var entries: map<string, Entry>
    var sequence: nat
    var drawn: nat
    const maxEntries: nat
    const random: Random

    ghost function Now(): State
      reads this
    {
      State(entries, maxEntries, sequence, drawn)
    }

    constructor (capacity: nat, random: Random)
      requires 1 <= capacity <= MAX_CAPACITY
      ensures Now() == State(map[], capacity, 0, 0) && this.random == random
    {
      entries := map[];
      sequence := 0;
      drawn := 0;
      maxEntries := capacity;
      this.random := random;
    }

    /** `with_random`: the capacity must lie between 1 and 16384. */
    static method WithRandom(capacity: nat, random: Random) returns (r: Result<TokenLedger, LedgerError>)
      ensures r.Ok? <==> 1 <= capacity <= MAX_CAPACITY
      ensures r.Err? ==> r.error == InvalidCapacity
      ensures r.Ok? ==> fresh(r.value) && r.value.Now() == State(map[], capacity, 0, 0) && r.value.random == random
    {
      if capacity == 0 || capacity > MAX_CAPACITY {
        return Err(InvalidCapacity);
      }
      var ledger := new TokenLedger(capacity, random);
      r := Ok(ledger);
    }

    method PurgeExpired(nowMs: nat)
      modifies this`entries
      ensures Now() == AfterPurge(old(Now()), nowMs)
    {
      entries := map t | t in entries && entries[t].expiresAtMs > nowMs :: entries[t];
    }

    /** The search over all entries for a live token of the same scope, class and value. */
    method FindLive(a: IssueArgs) returns (r: Option<string>)
      ensures r.Some? ==>
                Holds(entries, r.value, a.scope, a.dataClass, a.value) && entries[r.value].expiresAtMs > a.nowMs
      ensures r.None? ==> forall t ::
                Holds(entries, t, a.scope, a.dataClass, a.value) ==> entries[t].expiresAtMs <= a.nowMs
    {
      var rest := entries.Keys;
      while rest != {}
        invariant rest <= entries.Keys
        invariant forall t :: t in entries && t !in rest && Holds(entries, t, a.scope, a.dataClass, a.value) ==>
                    entries[t].expiresAtMs <= a.nowMs
        decreases rest
      {
        var t :| t in rest;
        if Holds(entries, t, a.scope, a.dataClass, a.value) && entries[t].expiresAtMs > a.nowMs {
          return Some(t);
        }
        rest := rest - {t};
      }
      r := None;
    }

    method EvictLru()
      requires entries != map[]
      modifies this`entries
      ensures exists t :: IsLru(old(entries), t) && entries == old(entries) - {t}
    {
      var victim :| victim in entries;
      var rest := entries.Keys - {victim};
      while rest != {}
        invariant victim in entries && rest <= entries.Keys
        invariant forall t :: t in entries && t !in rest ==> entries[victim].lastUsed <= entries[t].lastUsed
        decreases rest
      {
        var t :| t in rest;
        if entries[t].lastUsed < entries[victim].lastUsed {
          victim := t;
        }
        rest := rest - {t};
      }
      assert IsLru(entries, victim);
      entries := entries - {victim};
    }

    method GenerateToken(dataClass: DataClass) returns (r: Result<string, LedgerError>)
      modifies this`drawn
      ensures drawn == old(drawn) + 1
      ensures match random(old(drawn))
              case Unavailable => r == Err(RandomUnavailable)
              case Filled(bytes) => r == Ok(TokenText(dataClass, bytes))
    {
      var draw := random(drawn);
      drawn := drawn + 1;
      match draw
      case Unavailable => return Err(RandomUnavailable);
      case Filled(bytes) =>
        var encoded := "";
        for i := 0 to |bytes|
          invariant encoded == HexEncode(bytes[..i])
        {
          encoded := encoded + [HexUpper(bytes[i] / 16), HexUpper(bytes[i] % 16)];
          assert bytes[..i + 1][..i] == bytes[..i];
        }
        assert bytes[..|bytes|] == bytes;
        r := Ok("[AV_" + dataClass.TokenLabel() + "_" + encoded + "]");
    }

    method IssueTracked(a: IssueArgs) returns (r: Result<IssuedToken, LedgerError>)
      modifies this
      ensures IssueStep(random, old(Now()), a, r, Now())
    {
      if a.value == "" {
        return Err(EmptyValue);
      }
      if a.dataClass.HardBlock() {
        return Err(NonRestorableClass(a.dataClass));
      }
      if a.ttlSeconds * 1000 > U64_MAX || a.ExpiresAtMs() > U64_MAX {
        return Err(ExpiryOverflow);
      }
      ghost var s := Now();
      PurgeExpired(a.nowMs);
      sequence := Bump(sequence);
      var live := FindLive(a);
      if live.Some? {
        var t := live.value;
        entries := entries[t := entries[t].(lastUsed := sequence, expiresAtMs := a.ExpiresAtMs())];
        return Ok(IssuedToken(t, false));
      }
      assert forall t :: !Holds(entries, t, a.scope, a.dataClass, a.value);
      if |entries| >= maxEntries && entries != map[] {
        EvictLru();
      }
      ghost var room := entries;
      assert MadeRoom(Purged(s.entries, a.nowMs), s.maxEntries, room);
      r := InsertFresh(a, MAX_TOKEN_ATTEMPTS);
    }

    /** The bounded retry loop of `issue_tracked`. */
    method InsertFresh(a: IssueArgs, limit: nat) returns (r: Result<IssuedToken, LedgerError>)
      modifies this`entries, this`drawn
      ensures match Mint(random, old(drawn), limit, a.dataClass, old(entries).Keys)
              case MintFailed(error, last) => r == Err(error) && entries == old(entries) && drawn == last
              case Minted(token, last) =>
                && r == Ok(IssuedToken(token, true)) && drawn == last
                && entries == old(entries)[token := Entry(a.scope, a.dataClass, a.value, a.ExpiresAtMs(), sequence)]
    {
      var attempts := 0;
      while attempts < limit
        invariant attempts <= limit && entries == old(entries)
        invariant Mint(random, drawn, limit - attempts, a.dataClass, entries.Keys)
               == Mint(random, old(drawn), limit, a.dataClass, old(entries).Keys)
      {
        var token := GenerateToken(a.dataClass);
        match token
        case Err(e) => return Err(e);
        case Ok(text) =>
          if text !in entries {
            entries := entries[text := Entry(a.scope, a.dataClass, a.value, a.ExpiresAtMs(), sequence)];
            return Ok(IssuedToken(text, true));
          }
          attempts := attempts + 1;
      }
      r := Err(TokenCollision);
    }

    method RollbackCreated(scope: string, tokens: seq<string>)
      modifies this`entries
      ensures Now() == AfterRollback(old(Now()), scope, tokens)
    {
      ghost var s := Now();
      for i := 0 to |tokens|
        invariant entries == AfterRollback(s, scope, tokens[..i]).entries
      {
        assert tokens[..i + 1] == tokens[..i] + [tokens[i]];
        if tokens[i] in entries && entries[tokens[i]].scope == scope {
          entries := entries - {tokens[i]};
        }
      }
      assert tokens[..|tokens|] == tokens;
    }

    method RestoreExact(scope: string, token: string, nowMs: nat) returns (r: Option<string>)
      modifies this
      ensures r == Lookup(old(Now()), scope, token, nowMs)
      ensures Now() == AfterRestore(old(Now()), scope, token, nowMs)
    {
      PurgeExpired(nowMs);
      sequence := Bump(sequence);
      if token !in entries {
        return None;
      }
      var entry := entries[token];
      if entry.scope != scope || entry.expiresAtMs <= nowMs {
        return None;
      }
      entries := entries[token := entry.(lastUsed := sequence)];
      r := Some(entry.value);
    }

    method OwnsToken(scope: string, token: string, nowMs: nat) returns (r: bool)
      modifies this`entries
      ensures r == Lookup(old(Now()), scope, token, nowMs).Some?
      ensures Now() == AfterPurge(old(Now()), nowMs)
    {
      PurgeExpired(nowMs);
      r := token in entries && entries[token].scope == scope && entries[token].expiresAtMs > nowMs;
    }

    method ClearScope(scope: string) returns (removed: int)
      modifies this`entries
      ensures Now() == AfterClear(old(Now()), scope)
      ensures removed == |old(entries)| - |entries|
    {
      var before := |entries|;
      entries := map t | t in entries && entries[t].scope != scope :: entries[t];
      removed := before - |entries|;
    }

    method ClearAll() returns (count: nat)
      modifies this`entries
      ensures Now() == old(Now()).(entries := map[]) && count == |old(entries)|
    {
      count := |entries|;
      entries := map[];
    }

    method EntryCount(nowMs: nat) returns (count: nat)
      modifies this`entries
      ensures Now() == AfterPurge(old(Now()), nowMs) && count == |entries|
    {
      PurgeExpired(nowMs);
      count := |entries|;
    }
  }
}
