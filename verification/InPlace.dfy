/** Editing a string in place from right to left, as a refinement of splicing (src/engine.rs). */
module InPlace {
  import opened Domain
  import opened Overlaps
  import opened Rewriting
  import opened Views
  import Sorting
  import Tokens
  import Utf8

  /** `now` is the text with everything from `limit` on already edited. */
  ghost predicate Tail(text: string, edits: seq<Edit>, limit: nat, now: string) {
    Fits(edits, limit, |text|) && limit <= |text| && now == text[..limit] + Splice(text, edits, limit)
  }

  lemma TailStarts(text: string)
    ensures Tail(text, [], |text|, text)
  {
  }

  /** `String::replace_range` left of everything edited so far is one more edit in front. */
  lemma TailStep(text: string, edits: seq<Edit>, limit: nat, now: string, e: Edit)
    requires Tail(text, edits, limit, now) && e.span.start < e.span.end <= limit
    ensures e.span.end <= |now|
    ensures Tail(text, [e] + edits, e.span.start, now[..e.span.start] + e.replacement + now[e.span.end..])
  {
    var rest := Splice(text, edits, limit);
    SpliceEarlier(text, edits, e.span.end, limit);
    assert now[e.span.end..] == text[e.span.end..limit] + rest;
    assert now[..e.span.start] == text[..e.span.start];
    assert ([e] + edits)[1..] == edits && text[e.span.start..e.span.start] == [];
    assert Splice(text, [e] + edits, e.span.start) == e.replacement + Splice(text, edits, e.span.end);
    assert text[..e.span.start] + e.replacement + Splice(text, edits, e.span.end)
        == text[..e.span.start] + (e.replacement + Splice(text, edits, e.span.end));
  }

  lemma TailPrefix(text: string, edits: seq<Edit>, limit: nat, now: string)
    requires Tail(text, edits, limit, now)
    ensures limit <= |now| && limit <= |text| && now[..limit] == text[..limit]
    ensures forall i, j :: 0 <= i <= j <= limit ==> now[i..j] == text[i..j]
  {
    assert now[..limit] == text[..limit];
    forall i, j | 0 <= i <= j <= limit
      ensures now[i..j] == text[i..j]
    {
      assert now[i..j] == now[..limit][i..j] && text[i..j] == text[..limit][i..j];
    }
  }

  lemma TailWhole(text: string, edits: seq<Edit>, limit: nat, now: string)
    requires Tail(text, edits, limit, now)
    ensures Fits(edits, 0, |text|) && now == Splice(text, edits, 0)
  {
    SpliceEarlier(text, edits, 0, limit);
    assert text[0..limit] == text[..limit];
  }

  // ----- findings, last one first

  predicate Later(a: Planned, b: Planned) { a.finding.span.start >= b.finding.span.start }

  lemma LaterTotal()
    ensures Sorting.TotalPreorder(Later)
  {
  }

  function Backwards(fs: seq<Planned>): seq<Planned> {
    if fs == [] then [] else Backwards(fs[1..]) + [fs[0]]
  }

  lemma {:induction false} BackwardsAt(fs: seq<Planned>)
    ensures |Backwards(fs)| == |fs| && multiset(Backwards(fs)) == multiset(fs)
    ensures forall k :: 0 <= k < |fs| ==> Backwards(fs)[k] == fs[|fs| - 1 - k]
  {
    if fs != [] {
      BackwardsAt(fs[1..]);
      assert fs == [fs[0]] + fs[1..];
    }
  }

  /** Sorting disjoint findings by descending start is reversing them. */
  lemma SortedBackwards(fs: seq<Planned>)
    requires Disjoint(fs)
    ensures |Sorting.Sort(Later, fs)| == |fs|
    ensures forall k :: 0 <= k < |fs| ==> Sorting.Sort(Later, fs)[k] == fs[|fs| - 1 - k]
  {
    hide Sorting.Sort, Backwards, Sorting.TotalPreorder;
    var a, b := Sorting.Sort(Later, fs), Backwards(fs);
    LaterTotal();
    Sorting.SortSorts(Later, fs);
    BackwardsAt(fs);
    forall i, j | 0 <= i < j < |b|
      ensures Later(b[i], b[j]) && !Later(b[j], b[i])
    {
      DisjointStarts(fs, |fs| - 1 - j, |fs| - 1 - i);
    }
    Sorting.StrictlySortedUnique(Later, a, b);
  }

  lemma DisjointStarts(fs: seq<Planned>, i: nat, j: nat)
    requires Disjoint(fs) && i < j < |fs|
    ensures fs[i].finding.span.start < fs[i].finding.span.end <= fs[j].finding.span.start
  {
    assert fs[i] in fs;
  }

  // ----- rewriting the findings of one text

  /** Resolved findings whose edges lie between characters. */
  ghost predicate Rewritable(text: string, fs: seq<Planned>) {
    Disjoint(fs) && forall f :: f in fs ==> OnBoundaries(text, f.finding.span)
  }

  predicate Opens(s: string) { s == "" || s[0] == '[' }

  /** The findings from `k` on have been replaced, the ones before lie left of `limit`. */
  ghost predicate Partway(text: string, fs: seq<Planned>, k: nat, edits: seq<Edit>, limit: nat, now: string,
                          log: seq<Issued>)
  {
    && k <= |fs| && Tail(text, edits, limit, now) && Edits(text, Actionable(fs[k..]), edits, log)
    && (forall j :: 0 <= j < k ==> fs[j].finding.span.end <= limit)
    && Opens(now[limit..])
  }

  lemma PartwayStarts(text: string, fs: seq<Planned>, log: seq<Issued>)
    requires Rewritable(text, fs)
    ensures Partway(text, fs, |fs|, [], |text|, text, log)
  {
    TailStarts(text);
    assert fs[|fs|..] == [];
    assert text[|text|..] == "";
    forall j | 0 <= j < |fs|
      ensures fs[j].finding.span.end <= |text|
    {
      assert fs[j] in fs;
    }
  }

  /** The boundary checks on the half-edited string never fail. */
  lemma PartwayBoundaries(text: string, fs: seq<Planned>, k: nat, edits: seq<Edit>, limit: nat, now: string,
                          log: seq<Issued>)
    requires Rewritable(text, fs) && 0 < k && Partway(text, fs, k, edits, limit, now, log)
    ensures var s := fs[k - 1].finding.span;
            && s.start < s.end <= limit <= |now| && s.end <= |text|
            && Utf8.IsBoundary(now, s.start) && Utf8.IsBoundary(now, s.end)
            && Utf8.IsBoundary(text, s.start) && Utf8.IsBoundary(text, s.end)
  {
    hide Edits, Actionable, Disjoint, Splice, Fits;
    var s := fs[k - 1].finding.span;
    assert fs[k - 1] in fs;
    assert OnBoundaries(text, s);
    assert limit <= |now| && now[..limit] == text[..limit];
    assert forall i :: 0 <= i < limit ==> now[i] == now[..limit][i] && text[i] == text[..limit][i];
    if s.end == limit < |now| {
      assert now[limit..][0] == now[limit];
    }
  }

  lemma PartwaySkip(text: string, fs: seq<Planned>, k: nat, edits: seq<Edit>, limit: nat, now: string, log: seq<Issued>)
    requires 0 < k && Partway(text, fs, k, edits, limit, now, log) && fs[k - 1].action == Allow
    ensures Partway(text, fs, k - 1, edits, limit, now, log)
  {
    hide Edits;
    assert fs[k - 1..][1..] == fs[k..];
  }

  lemma PartwayStep(text: string, fs: seq<Planned>, k: nat, edits: seq<Edit>, limit: nat, now: string,
                    log: seq<Issued>, replacement: string)
    requires Rewritable(text, fs) && 0 < k && Partway(text, fs, k, edits, limit, now, log)
    requires fs[k - 1].action != Allow && Replaces(text, fs[k - 1], replacement, log)
    requires replacement != "" && replacement[0] == '['
    ensures var s := fs[k - 1].finding.span;
            && s.start < s.end <= |now|
            && Partway(text, fs, k - 1, [Edit(s, replacement)] + edits, s.start,
                       now[..s.start] + replacement + now[s.end..], log)
  {
    hide Replaces, Tail, Rewritable;
    var s, e := fs[k - 1].finding.span, Edit(fs[k - 1].finding.span, replacement);
    LimitInText(text, edits, limit, now);
    RewritableSpan(text, fs, k - 1);
    TailStep(text, edits, limit, now, e);
    assert fs[k - 1..][1..] == fs[k..];
    assert Actionable(fs[k - 1..]) == [fs[k - 1]] + Actionable(fs[k..]);
    forall j | 0 <= j < k - 1
      ensures fs[j].finding.span.end <= s.start
    {
      RewritableApart(text, fs, j, k - 1);
    }
    var after := now[..s.start] + replacement + now[s.end..];
    assert after[s.start..][0] == replacement[0];
  }

  lemma LimitInText(text: string, edits: seq<Edit>, limit: nat, now: string)
    requires Tail(text, edits, limit, now)
    ensures limit <= |now| && limit <= |text|
  {
  }

  lemma RewritableSpan(text: string, fs: seq<Planned>, i: nat)
    requires Rewritable(text, fs) && i < |fs|
    ensures fs[i].finding.span.start < fs[i].finding.span.end <= |text|
  {
    assert fs[i] in fs;
  }

  lemma RewritableApart(text: string, fs: seq<Planned>, i: nat, j: nat)
    requires Rewritable(text, fs) && i < j < |fs|
    ensures fs[i].finding.span.end <= fs[j].finding.span.start
  {
  }

  lemma PartwayWhole(text: string, fs: seq<Planned>, edits: seq<Edit>, limit: nat, now: string, log: seq<Issued>)
    requires Partway(text, fs, 0, edits, limit, now, log)
    ensures Edits(text, Actionable(fs), edits, log) && Fits(edits, 0, |text|) && now == Splice(text, edits, 0)
  {
    hide Edits;
    assert fs[0..] == fs;
    TailWhole(text, edits, limit, now);
  }

  /** A longer log answers for the same edits. */
  lemma PartwayLonger(text: string, fs: seq<Planned>, k: nat, edits: seq<Edit>, limit: nat, now: string,
                      log: seq<Issued>, more: seq<Issued>)
    requires Partway(text, fs, k, edits, limit, now, log)
    ensures Partway(text, fs, k, edits, limit, now, log + more)
  {
    EditsLonger(text, Actionable(fs[k..]), edits, log, more);
  }

  lemma EditsLonger(text: string, fs: seq<Planned>, edits: seq<Edit>, log: seq<Issued>, more: seq<Issued>)
    requires Edits(text, fs, edits, log)
    ensures Edits(text, fs, edits, log + more)
  {
    hide IssuedFor;
    forall k | 0 <= k < |fs|
      ensures edits[k].span == fs[k].finding.span && Replaces(text, fs[k], edits[k].replacement, log + more)
    {
      assert Replaces(text, fs[k], edits[k].replacement, log);
      if fs[k].action == Tokenize {
        IssuedLonger(log, more, fs[k].finding.dataClass, text[fs[k].finding.span.start..fs[k].finding.span.end],
                     edits[k].replacement);
      }
    }
  }

  lemma IssuedLonger(log: seq<Issued>, more: seq<Issued>, c: DataClass, value: string, token: string)
    requires IssuedFor(log, c, value, token)
    ensures IssuedFor(log + more, c, value, token)
  {
    var i :| 0 <= i < |log| && log[i].dataClass == c && log[i].value == value && log[i].token == token;
    assert (log + more)[i] == log[i];
  }

  lemma MaskOpens(c: DataClass)
    ensures Tokens.MaskText(c) != "" && Tokens.MaskText(c)[0] == '['
  {
  }

  lemma TokenOpens(t: string)
    requires Tokens.IsToken(t)
    ensures t != "" && t[0] == '['
  {
    Tokens.TokenDelimited(t);
  }
}
