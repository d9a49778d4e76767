/** What holds in every interleaving of any number of requests (src/gateway.rs). */
module GatewayRuns {
  import opened Domain
  import opened Dashboard
  import opened Gateway

  // ----- the invariant

  ghost predicate AllConsonant(s: System) {
    forall id {:trigger s.requests[id]} :: id in s.requests ==>
      Consonant(s.shared, id, s.requests[id]) && s.requests[id].ticket.sequence <= s.shared.counter
  }

  /** Counted requests have distinct numbers. */
  ghost predicate DistinctNumbers(s: System) {
    forall a, b {:trigger s.requests[a], s.requests[b]} ::
      a in s.requests && b in s.requests && a != b && s.requests[a].ticket.sequence != 0 ==>
        s.requests[a].ticket.sequence != s.requests[b].ticket.sequence
  }

  /** Every event carries a number given out before. */
  ghost predicate Counted(s: System) {
    && (forall e :: e in s.shared.log ==> e.sequence <= s.shared.counter)
    && (forall e :: e in s.shared.shown ==> e.sequence <= s.shared.counter)
  }

  ghost predicate SendersKnown(s: System) {
    forall x :: x in s.shared.sends ==> x.id in s.requests
  }

  ghost predicate Inv(s: System) {
    && AllConsonant(s) && DistinctNumbers(s) && Counted(s) && SendersKnown(s)
    && Faithful(s.shared.activity, s.shared.shown) && Consistent(s.shared.shown)
  }

  lemma {:induction false} NoneOf(events: seq<AuditEvent>, q: nat)
    requires forall e :: e in events ==> e.sequence != q
    ensures Of(events, q) == []
  {
    if Of(events, q) != [] {
      OfMembers(events, Of(events, q)[0], q);
    }
  }

  lemma NextIsFresh(s: System)
    requires Counted(s)
    ensures Fresh(s.shared, s.shared.counter + 1)
  {
    NoneOf(s.shared.log, s.shared.counter + 1);
    NoneOf(s.shared.shown, s.shared.counter + 1);
  }

  lemma {:induction false} NoSends(sends: seq<Send>, id: nat)
    requires forall x :: x in sends ==> x.id != id
    ensures SendsOf(sends, id) == []
  {
    if sends != [] {
      var last := sends[|sends| - 1];
      NoSends(sends[..|sends| - 1], id);
      assert last in sends;
    }
  }

  lemma ArrivalKeeps(s: System, id: nat, s': System)
    requires Inv(s) && Step(s, Arrive(id), s')
    ensures Inv(s')
  {
    hide Faithful, Consistent;
    NoSends(s.shared.sends, id);
    forall other | other in s'.requests
      ensures Consonant(s'.shared, other, s'.requests[other]) && s'.requests[other].ticket.sequence <= s'.shared.counter
    {
      if other != id {
        assert s'.requests[other] == s.requests[other];
      }
    }
    forall a, b | a in s'.requests && b in s'.requests && a != b && s'.requests[a].ticket.sequence != 0
      ensures s'.requests[a].ticket.sequence != s'.requests[b].ticket.sequence
    {
      assert a != id && s'.requests[a] == s.requests[a];
      if b != id {
        assert s'.requests[b] == s.requests[b];
      }
    }
  }

  /** The number the step gives to the request, if any, is new. */
  lemma NumbersKept(s: System, id: nat, i: Input, s': System)
    requires Inv(s) && Step(s, Run(id, i), s')
    ensures DistinctNumbers(s')
    ensures forall other :: other in s'.requests ==> s'.requests[other].ticket.sequence <= s'.shared.counter
  {
    hide Faithful, Consistent, Consonant, Advance;
    AdvanceGrows(s.shared, id, s.requests[id], i);
    forall a, b | a in s'.requests && b in s'.requests && a != b && s'.requests[a].ticket.sequence != 0
      ensures s'.requests[a].ticket.sequence != s'.requests[b].ticket.sequence
    {
      assert a != id ==> s'.requests[a] == s.requests[a];
      assert b != id ==> s'.requests[b] == s.requests[b];
    }
    forall other | other in s'.requests
      ensures s'.requests[other].ticket.sequence <= s'.shared.counter
    {
      assert other != id ==> s'.requests[other] == s.requests[other];
    }
  }

  lemma RecordsKept(s: System, id: nat, i: Input, s': System)
    requires Inv(s) && Step(s, Run(id, i), s')
    ensures Counted(s') && SendersKnown(s')
  {
    hide Faithful, Consistent, Consonant, Advance;
    AdvanceGrows(s.shared, id, s.requests[id], i);
    var sh, sh' := s.shared, s'.shared;
    forall e | e in sh'.log
      ensures e.sequence <= sh'.counter
    {
      LastOr(sh.log, sh'.log, e);
    }
    forall e | e in sh'.shown
      ensures e.sequence <= sh'.counter
    {
      LastOr(sh.shown, sh'.shown, e);
    }
    forall x | x in sh'.sends
      ensures x.id in s'.requests
    {
      LastOr(sh.sends, sh'.sends, x);
    }
  }

  lemma LastOr<T>(a: seq<T>, b: seq<T>, x: T)
    requires b == a || (|b| == |a| + 1 && a == b[..|a|])
    requires x in b
    ensures x in a || (|b| == |a| + 1 && x == b[|a|])
  {
  }

  lemma OthersKept(s: System, id: nat, i: Input, s': System)
    requires Inv(s) && Step(s, Run(id, i), s')
    ensures AllConsonant(s')
  {
    hide Faithful, Consistent, Consonant, Grows;
    NumbersKept(s, id, i, s');
    NextIsFresh(s);
    AdvanceConsonant(s.shared, id, s.requests[id], i);
    AdvanceGrows(s.shared, id, s.requests[id], i);
    forall other | other in s'.requests
      ensures Consonant(s'.shared, other, s'.requests[other])
    {
      if other != id {
        assert s'.requests[other] == s.requests[other];
        UncountedSilent(s.shared, id, s.requests[id], i);
        OthersConsonant(s.shared, id, s.requests[id].ticket.sequence, s'.shared, other, s.requests[other]);
      }
    }
  }

  /** A request that has no number yet records nothing. */
  lemma UncountedSilent(sh: Shared, id: nat, r: Request, i: Input)
    requires Consonant(sh, id, r)
    ensures r.ticket.sequence == 0 ==>
              Advance(sh, id, r, i).0.log == sh.log && Advance(sh, id, r, i).0.shown == sh.shown
  {
    hide Of, SendsOf, Shown;
  }

  lemma DashboardKept(s: System, id: nat, i: Input, s': System)
    requires Inv(s) && Step(s, Run(id, i), s')
    ensures Faithful(s'.shared.activity, s'.shared.shown) && Consistent(s'.shared.shown)
  {
    hide Faithful, Of, Shown;
    var r := s.requests[id];
    if r.phase.Showing? {
      var e := r.phase.event;
      ShowingConsistent(s.shared, id, r);
      ShownFaithful(s.shared.activity, s.shared.shown, e);
    }
  }

  /** A request's event agrees with those of it that were shown before. */
  lemma ShowingConsistent(sh: Shared, id: nat, r: Request)
    requires Consonant(sh, id, r) && r.phase.Showing? && Consistent(sh.shown)
    ensures Consistent(sh.shown + [r.phase.event])
  {
    hide Of, SendsOf;
    var e := r.phase.event;
    ReportNumber(sh, id, r);
    forall d | d in sh.shown && d.sequence == e.sequence
      ensures SameVerdict(d, e)
    {
      OfMembers(sh.shown, d, r.ticket.sequence);
    }
  }

  lemma StepKeeps(s: System, e: Event, s': System)
    requires Inv(s) && Step(s, e, s')
    ensures Inv(s')
  {
    hide Faithful, Consistent, AllConsonant, DistinctNumbers, Counted, SendersKnown;
    match e
    case Arrive(id) => ArrivalKeeps(s, id, s');
    case Run(id, i) =>
      NumbersKept(s, id, i, s');
      RecordsKept(s, id, i, s');
      OthersKept(s, id, i, s');
      DashboardKept(s, id, i, s');
  }

  lemma {:induction false} InvAlways(states: seq<System>, events: seq<Event>, k: nat)
    requires Behaviour(states, events) && k <= |events|
    ensures Inv(states[k])
  {
    if k > 0 {
      hide Inv, Behaviour, Step;
      InvAlways(states, events, k - 1);
      Behaves(states, events);
      StepAt(states, events, k - 1);
      StepKeeps(states[k - 1], events[k - 1], states[k]);
    }
  }

  lemma Behaves(states: seq<System>, events: seq<Event>)
    requires Behaviour(states, events)
    ensures |states| == |events| + 1 && states[0] == START
  {
  }

  // ----- egress safety

  /** The event announces a send of this body for this request. */
  predicate Covers(t: Ticket, p: AuditEvent, x: Send) {
    && x.event == p && Announces(t, p, x.body) && (p.decision == Allowed || p.decision == Rewritten)
  }

  /**
   * In every reachable state, every send belongs to a known request, was made after the Pending event of that
   * request had been persisted, carries the body the engine returned, and is the only one of its request.
   */
  lemma SendsAudited(states: seq<System>, events: seq<Event>, k: nat, x: Send)
    requires Behaviour(states, events) && k <= |events| && x in states[k].shared.sends
    ensures var s := states[k];
            && x.id in s.requests && Covers(s.requests[x.id].ticket, x.event, x) && SendsOf(s.shared.sends, x.id) == [x]
            && x.logged <= |s.shared.log| && x.event in s.shared.log[..x.logged]
  {
    hide Behaviour, Of, SendsOf, Consonant, Faithful, Consistent;
    Behaves(states, events);
    InvAlways(states, events, k);
    var s := states[k];
    SendMember(s.shared.sends, x);
    assert Consonant(s.shared, x.id, s.requests[x.id]);
    SendFacts(s.shared, x.id, s.requests[x.id], x);
  }

  lemma SendFacts(sh: Shared, id: nat, r: Request, x: Send)
    requires Consonant(sh, id, r) && x in SendsOf(sh.sends, id)
    ensures Covers(r.ticket, x.event, x) && SendsOf(sh.sends, id) == [x]
    ensures x.logged <= |sh.log| && x.event in sh.log[..x.logged]
  {
    hide Of, SendsOf, Refuses, Reports;
    var sends := SendsOf(sh.sends, id);
    assert |sends| == 1 ==> sends == [sends[0]];
  }

  lemma {:induction false} SendMember(sends: seq<Send>, x: Send)
    requires x in sends
    ensures x in SendsOf(sends, x.id)
  {
    var last := sends[|sends| - 1];
    if x != last {
      assert sends == sends[..|sends| - 1] + [last];
      SendMember(sends[..|sends| - 1], x);
    }
  }

  /** The events persisted for a request: none, one NotStarted, or one Pending and perhaps one Started or Failed. */
  predicate LawfulRecord(own: seq<AuditEvent>) {
    || own == []
    || (|own| == 1 && (own[0].outcome == NotStarted || own[0].outcome == Pending))
    || (|own| == 2 && own[0].outcome == Pending && Reports(own[0], own[1]))
  }

  /**
   * In every reachable state and for every request: its persisted events have the lawful shape; it was sent at
   * most once, and then its engine answer was to forward; if its reply claims that nothing was forwarded, it
   * was never sent.
   */
  lemma RequestLawful(states: seq<System>, events: seq<Event>, k: nat, id: nat)
    requires Behaviour(states, events) && k <= |events| && id in states[k].requests
    ensures var s := states[k]; var r := s.requests[id];
            && (r.ticket.sequence != 0 ==> LawfulRecord(Of(s.shared.log, r.ticket.sequence)))
            && |SendsOf(s.shared.sends, id)| <= 1
            && (SendsOf(s.shared.sends, id) != [] ==> r.ticket.verdict.Some? && r.ticket.verdict.value.EngineForwards?)
            && (r.phase.Done? && r.phase.reply.ClaimsZero() ==> SendsOf(s.shared.sends, id) == [])
            && (r.phase.Done? && r.phase.reply.Relayed? ==> SendsOf(s.shared.sends, id) != [])
  {
    hide Behaviour, Of, SendsOf, Faithful, Consistent;
    Behaves(states, events);
    InvAlways(states, events, k);
    assert Consonant(states[k].shared, id, states[k].requests[id]);
  }

  /** Every persisted event belongs to exactly one request, the one that drew its number. */
  lemma NumbersUnique(states: seq<System>, events: seq<Event>, k: nat, a: nat, b: nat)
    requires Behaviour(states, events) && k <= |events| && a in states[k].requests && b in states[k].requests && a != b
    requires states[k].requests[a].ticket.sequence != 0
    ensures states[k].requests[a].ticket.sequence != states[k].requests[b].ticket.sequence
  {
    hide Behaviour, Consonant, Faithful, Consistent;
    Behaves(states, events);
    InvAlways(states, events, k);
  }

  // ----- the gate

  /** The audit flag never comes back. */
  lemma {:induction false} NeverHealthyAgain(states: seq<System>, events: seq<Event>, i: nat, k: nat)
    requires Behaviour(states, events) && i <= k <= |events| && !states[i].shared.healthy
    ensures !states[k].shared.healthy
    decreases k
  {
    if i < k {
      NeverHealthyAgain(states, events, i, k - 1);
      StepAt(states, events, k - 1);
    }
  }

  /** The request has not reached the gate, or has been turned away without a number. */
  predicate Outside(s: System, id: nat) {
    id in s.requests ==>
      s.requests[id].ticket.sequence == 0 && SendsOf(s.shared.sends, id) == []
        && (s.requests[id].phase.Arrived? || s.requests[id].phase.Done?)
  }

  /** A request that comes to the gate after the audit sink has failed gets no number and is never sent. */
  lemma {:induction false} GateHolds(states: seq<System>, events: seq<Event>, i: nat, k: nat, id: nat)
    requires Behaviour(states, events) && i <= k <= |events| && !states[i].shared.healthy
    requires id in states[i].requests ==> states[i].requests[id].phase.Arrived?
    ensures Outside(states[k], id)
    decreases k
  {
    Behaves(states, events);
    InvAlways(states, events, i);
    if i == k {
      assert id in states[i].requests ==> Consonant(states[i].shared, id, states[i].requests[id]);
    } else {
      GateHolds(states, events, i, k - 1, id);
      NeverHealthyAgain(states, events, i, k - 1);
      StepAt(states, events, k - 1);
      InvAlways(states, events, k - 1);
      GateStep(states[k - 1], events[k - 1], states[k], id);
    }
  }

  lemma GateStep(s: System, e: Event, s': System, id: nat)
    requires Inv(s) && Step(s, e, s') && !s.shared.healthy && Outside(s, id)
    ensures Outside(s', id)
  {
    hide Faithful, Consistent, Of, Consonant, DistinctNumbers, Counted, Shown, Judged;
    match e
    case Arrive(a) => NoSendsUnknown(s, id);
    case Run(a, i) =>
      if a != id && id in s.requests {
        assert s'.requests[id] == s.requests[id];
        AdvanceGrows(s.shared, a, s.requests[a], i);
        if s'.shared.sends != s.shared.sends {
          var x := s'.shared.sends[|s.shared.sends|];
          assert s'.shared.sends == s.shared.sends + [x];
          SendsAppend(s.shared.sends, x, id);
        }
      }
  }

  lemma NoSendsUnknown(s: System, id: nat)
    requires SendersKnown(s)
    ensures id !in s.requests ==> SendsOf(s.shared.sends, id) == []
  {
    if id !in s.requests {
      NoSends(s.shared.sends, id);
    }
  }

  // ----- the dashboard

  /**
   * In every reachable state the activity list holds at most 64 entries with distinct numbers, each in agreement
   * with the latest event shown for its request, and no request has shown an event it has not persisted.
   */
  lemma DashboardFaithful(states: seq<System>, events: seq<Event>, k: nat)
    requires Behaviour(states, events) && k <= |events|
    ensures Faithful(states[k].shared.activity, states[k].shared.shown)
    ensures forall id :: id in states[k].requests && states[k].requests[id].ticket.sequence != 0 ==>
              var q := states[k].requests[id].ticket.sequence;
              Of(states[k].shared.shown, q) <= Of(states[k].shared.log, q)
  {
    hide Behaviour, Of, SendsOf, Faithful, Consistent;
    Behaves(states, events);
    InvAlways(states, events, k);
    forall id | id in states[k].requests && states[k].requests[id].ticket.sequence != 0
      ensures var q := states[k].requests[id].ticket.sequence;
              Of(states[k].shared.shown, q) <= Of(states[k].shared.log, q)
    {
      ShownPersisted(states[k].shared, id, states[k].requests[id]);
    }
  }

  lemma ShownPersisted(sh: Shared, id: nat, r: Request)
    requires Consonant(sh, id, r) && r.ticket.sequence != 0
    ensures Of(sh.shown, r.ticket.sequence) <= Of(sh.log, r.ticket.sequence)
  {
    hide Of, SendsOf;
  }
}
