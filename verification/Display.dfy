/**
 * Restoring display text (src/engine.rs, `restore_display_text`): the pattern search and what the lookups do to the
 * ledger.
 */
module Display {
  import opened Domain
  import opened InPlace
  import opened Ledger
  import opened Rewriting
  import opened Tokens

  /** What `restore_display_text` looks tokens up in: the ledger as it is, in one scope. */
  function Asking(s: State, scope: string, nowMs: nat): Lookup {
    t => Ledger.Lookup(s, scope, t, nowMs)
  }

  /** The non-overlapping matches of the token pattern from `from` on, leftmost first. */
  function Candidates(s: string, from: nat): seq<Span>
    requires from <= |s|
    decreases |s| - from
  {
    if from == |s| then []
    else if 0 < TokenLen(s[from..]) <= |s| - from
    then [Span(from, from + TokenLen(s[from..]))] + Candidates(s, from + TokenLen(s[from..]))
    else Candidates(s, from + 1)
  }

  method FindCandidates(text: string) returns (found: seq<Span>)
    ensures found == Candidates(text, 0)
  {
    hide TokenLen;
    found := [];
    var at := 0;
    while at < |text|
      invariant at <= |text|
      invariant found + Candidates(text, at) == Candidates(text, 0)
    {
      var length := TokenLen(text[at..]);
      if 0 < length <= |text| - at {
        found := found + [Span(at, at + length)];
        at := at + length;
      } else {
        at := at + 1;
      }
    }
  }

  /** Each candidate from `k` on replaced by its value where there is one. */
  function Answered(text: string, cs: seq<Span>, lookup: Lookup): seq<Edit>
    requires forall c :: c in cs ==> c.start <= c.end <= |text|
  {
    if cs == [] then []
    else [Edit(cs[0], OrSelf(lookup, text[cs[0].start..cs[0].end]))] + Answered(text, cs[1..], lookup)
  }

  lemma {:induction false} CandidatesFit(s: string, from: nat, lookup: Lookup)
    requires from <= |s|
    ensures forall c :: c in Candidates(s, from) ==> from <= c.start < c.end <= |s|
    ensures Fits(Answered(s, Candidates(s, from), lookup), from, |s|)
    decreases |s| - from
  {
    hide TokenLen, OrSelf;
    if from < |s| {
      var n := TokenLen(s[from..]);
      if 0 < n <= |s| - from {
        CandidatesFit(s, from + n, lookup);
        assert Candidates(s, from)[1..] == Candidates(s, from + n);
      } else {
        CandidatesFit(s, from + 1, lookup);
        SpliceEarlier(s, Answered(s, Candidates(s, from + 1), lookup), from, from + 1);
      }
    }
  }

  lemma {:induction false} CandidatesApart(s: string, from: nat, i: nat)
    requires from <= |s| && i < |Candidates(s, from)|
    ensures forall k :: 0 <= k < i ==> Candidates(s, from)[k].end <= Candidates(s, from)[i].start
    ensures from <= Candidates(s, from)[i].start
    decreases |s| - from
  {
    hide TokenLen;
    var n := TokenLen(s[from..]);
    if 0 < n <= |s| - from {
      var rest := Candidates(s, from + n);
      assert Candidates(s, from) == [Span(from, from + n)] + rest;
      if i > 0 {
        CandidatesApart(s, from + n, i - 1);
      }
    } else {
      CandidatesApart(s, from + 1, i);
    }
  }

  lemma RestoredStep(s: string, from: nat, lookup: Lookup)
    requires from < |s|
    ensures var n := TokenLen(s[from..]);
            Restored(s[from..], lookup) == if 0 < n <= |s| - from
                                           then OrSelf(lookup, s[from..from + n]) + Restored(s[from + n..], lookup)
                                           else s[from..from + 1] + Restored(s[from + 1..], lookup)
  {
    hide TokenLen, OrSelf;
    var t, n := s[from..], TokenLen(s[from..]);
    assert s[from..from + 1] == [t[0]] && t[1..] == s[from + 1..];
    if 0 < n <= |t| {
      assert t[..n] == s[from..from + n] && t[n..] == s[from + n..];
    }
  }

  lemma SpliceFirst(s: string, from: nat, e: Edit, rest: seq<Edit>)
    requires from == e.span.start < e.span.end <= |s| && Fits(rest, e.span.end, |s|)
    ensures Fits([e] + rest, from, |s|) && Splice(s, [e] + rest, from) == e.replacement + Splice(s, rest, e.span.end)
  {
    assert ([e] + rest)[1..] == rest && s[from..from] == [];
  }

  /** Splicing the answers in gives the restored text. */
  lemma {:induction false} AnswersRestore(s: string, from: nat, lookup: Lookup)
    requires from <= |s|
    ensures forall c :: c in Candidates(s, from) ==> from <= c.start < c.end <= |s|
    ensures Fits(Answered(s, Candidates(s, from), lookup), from, |s|)
    ensures Splice(s, Answered(s, Candidates(s, from), lookup), from) == Restored(s[from..], lookup)
    decreases |s| - from
  {
    hide TokenLen, OrSelf, Restored, Splice, Fits;
    CandidatesFit(s, from, lookup);
    if from == |s| {
      assert s[from..] == "";
      NothingRestored(s, lookup);
    } else {
      var n := TokenLen(s[from..]);
      RestoredStep(s, from, lookup);
      if 0 < n <= |s| - from {
        CandidatesFit(s, from + n, lookup);
        AnswersRestore(s, from + n, lookup);
        var c, rest := Span(from, from + n), Candidates(s, from + n);
        assert Candidates(s, from) == [c] + rest && ([c] + rest)[1..] == rest;
        SpliceFirst(s, from, Edit(c, OrSelf(lookup, s[from..from + n])), Answered(s, rest, lookup));
      } else {
        CandidatesFit(s, from + 1, lookup);
        AnswersRestore(s, from + 1, lookup);
        SpliceEarlier(s, Answered(s, Candidates(s, from + 1), lookup), from, from + 1);
      }
    }
  }

  lemma NothingRestored(s: string, lookup: Lookup)
    ensures Fits([], |s|, |s|) && Splice(s, [], |s|) == Restored("", lookup)
  {
  }

  lemma NothingAnswered(text: string, lookup: Lookup)
    ensures Answered(text, [], lookup) == []
  {
  }

  lemma AnsweredStep(text: string, cs: seq<Span>, i: nat, lookup: Lookup)
    requires i < |cs| && forall c :: c in cs ==> c.start < c.end <= |text|
    ensures Answered(text, cs[i..], lookup)
         == [Edit(cs[i], OrSelf(lookup, text[cs[i].start..cs[i].end]))] + Answered(text, cs[i + 1..], lookup)
  {
    assert cs[i..][0] == cs[i] && cs[i..][1..] == cs[i + 1..];
  }

  lemma PutBack(now: string, from: nat, to: nat)
    requires from <= to <= |now|
    ensures now == now[..from] + now[from..to] + now[to..]
  {
  }

  /** Replacing one candidate in place, or leaving it when there is no value for it. */
  lemma AnswerStep(text: string, cs: seq<Span>, i: nat, limit: nat, now: string, lookup: Lookup)
    requires i < |cs| && forall c :: c in cs ==> c.start < c.end <= |text|
    requires cs[i].end <= limit && Tail(text, Answered(text, cs[i + 1..], lookup), limit, now)
    ensures cs[i].end <= |now| && limit <= |text|
    ensures Tail(text, Answered(text, cs[i..], lookup), cs[i].start,
                 match lookup(text[cs[i].start..cs[i].end])
                 case Some(value) => now[..cs[i].start] + value + now[cs[i].end..]
                 case None => now)
  {
    hide Splice, Fits, Tail, Answered;
    var c, rest := cs[i], Answered(text, cs[i + 1..], lookup);
    assert c in cs;
    var token := text[c.start..c.end];
    TailPrefix(text, rest, limit, now);
    AnsweredStep(text, cs, i, lookup);
    TailStep(text, rest, limit, now, Edit(c, OrSelf(lookup, token)));
    PutBack(now, c.start, c.end);
  }

  /** The ledger after the candidates from `k` on have been looked up, last one first. */
  function AfterRestores(s: State, scope: string, text: string, cs: seq<Span>, k: nat, nowMs: nat): State
    requires k <= |cs| && forall c :: c in cs ==> c.start <= c.end <= |text|
    decreases |cs| - k
  {
    if k == |cs| then s
    else AfterRestore(AfterRestores(s, scope, text, cs, k + 1, nowMs), scope, text[cs[k].start..cs[k].end], nowMs)
  }

  /** Looking tokens up does not change what later lookups at the same time return. */
  lemma {:induction false} LookupsKept(s: State, scope: string, text: string, cs: seq<Span>, k: nat, nowMs: nat,
                                       token: string)
    requires k <= |cs| && forall c :: c in cs ==> c.start <= c.end <= |text|
    ensures Ledger.Lookup(AfterRestores(s, scope, text, cs, k, nowMs), scope, token, nowMs)
         == Ledger.Lookup(s, scope, token, nowMs)
    decreases |cs| - k
  {
    if k < |cs| {
      LookupsKept(s, scope, text, cs, k + 1, nowMs, token);
      LookupsKept(s, scope, text, cs, k + 1, nowMs, text[cs[k].start..cs[k].end]);
    }
  }
}
