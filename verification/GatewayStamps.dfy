/** The identifier and the times an audit event carries, in every interleaving (src/gateway.rs, `write_audit`). */
module GatewayStamps {
  import opened Domain
  import opened Dashboard
  import opened Gateway
  import opened GatewayRuns
  import opened GatewayTruth

  /** The event carries the identifier drawn for the request, the time its scan took, and the time it is about. */
  predicate Genuine(states: seq<System>, events: seq<Event>, k: nat, id: nat, e: AuditEvent)
    requires k <= |events| < |states|
  {
    var admission := Met(states, events, k, id, AtAdmission);
    var judging := Met(states, events, k, id, AtJudging);
    var sending := Met(states, events, k, id, AtSending);
    && admission.Some? && e.eventId == admission.value.eventId
    && judging.Some? && e.latencyMs == judging.value.latencyMs
    && if e.outcome in {Pending, NotStarted} then e.timestampMs == judging.value.timestampMs
       else sending.Some? && e.timestampMs == sending.value.timestampMs
  }

  predicate Carries(p: Phase, e: AuditEvent) {
    (p.Writing? || p.Showing? || p.Releasing? || p.Sending?) && p.event == e
  }

  /** All that is said of the request, and all it is about to say, is genuine. */
  ghost predicate Stamped(states: seq<System>, events: seq<Event>, k: nat, id: nat, own: seq<AuditEvent>, r: Request)
    requires k <= |events| < |states|
  {
    && (r.ticket.sequence != 0 ==>
          var admission := Met(states, events, k, id, AtAdmission);
          admission.Some? && r.ticket.eventId == admission.value.eventId)
    && (forall e :: Carries(r.phase, e) ==> Genuine(states, events, k, id, e))
    && (r.ticket.sequence != 0 ==> forall e :: e in own ==> Genuine(states, events, k, id, e))
  }

  lemma GenuineKept(states: seq<System>, events: seq<Event>, k: nat, id: nat, e: AuditEvent)
    requires k < |events| < |states| && Genuine(states, events, k, id, e)
    requires !TookAt(states, events, k, id, AtAdmission) && !TookAt(states, events, k, id, AtJudging)
    requires e.outcome in {Pending, NotStarted} || !TookAt(states, events, k, id, AtSending)
    ensures Genuine(states, events, k + 1, id, e)
  {
    hide Met, TookAt;
    MetNext(states, events, k, id, AtAdmission);
    MetNext(states, events, k, id, AtJudging);
    MetNext(states, events, k, id, AtSending);
  }

  /** A step of another request changes nothing of what was met. */
  lemma ElsewhereStamped(states: seq<System>, events: seq<Event>, k: nat, id: nat, own: seq<AuditEvent>, r: Request)
    requires k < |events| < |states| && Stamped(states, events, k, id, own, r)
    requires events[k].Run? ==> events[k].id != id
    ensures Stamped(states, events, k + 1, id, own, r)
  {
    hide Met, Genuine;
    MetNext(states, events, k, id, AtAdmission);
    forall e | Genuine(states, events, k, id, e)
      ensures Genuine(states, events, k + 1, id, e)
    {
      GenuineKept(states, events, k, id, e);
    }
  }

  /** The event written after judging has the times met there. */
  lemma JudgedGenuine(states: seq<System>, events: seq<Event>, k: nat, id: nat, r: Request)
    requires k < |events| < |states| && TookAt(states, events, k, id, AtJudging) && r == states[k].requests[id]
    requires Met(states, events, k, id, AtAdmission).Some?
    requires r.ticket.eventId == Met(states, events, k, id, AtAdmission).value.eventId
    ensures forall e :: Carries(Advance(states[k].shared, id, r, events[k].input).1.phase, e) ==>
              Genuine(states, events, k + 1, id, e)
  {
    hide Met;
    MetNext(states, events, k, id, AtAdmission);
    MetNext(states, events, k, id, AtJudging);
  }

  /** The event written after sending keeps all but the outcome and the time of the one before. */
  lemma SentGenuine(states: seq<System>, events: seq<Event>, k: nat, id: nat, r: Request)
    requires k < |events| < |states| && TookAt(states, events, k, id, AtSending) && r == states[k].requests[id]
    requires Genuine(states, events, k, id, r.phase.event)
    ensures forall e :: Carries(Advance(states[k].shared, id, r, events[k].input).1.phase, e) ==>
              Genuine(states, events, k + 1, id, e)
  {
    hide Met;
    MetNext(states, events, k, id, AtAdmission);
    MetNext(states, events, k, id, AtJudging);
    MetNext(states, events, k, id, AtSending);
  }

  /** Of a request being sent only the announcement is persisted. */
  lemma AwaitingAnswer(sh: Shared, id: nat, r: Request)
    requires Consonant(sh, id, r)
    ensures r.phase.Sending? ==>
              Of(sh.log, r.ticket.sequence) == [r.phase.event] && r.phase.event.outcome == Pending
    ensures r.phase.Numbered? ==> Of(sh.log, r.ticket.sequence) == []
    ensures r.phase.Arrived? || r.phase.Admitted? ==> r.ticket.sequence == 0
    ensures r.phase.Numbered? || r.phase.Sending? || r.phase.Writing? || r.phase.Showing? || r.phase.Releasing? ==>
              r.ticket.sequence != 0
    ensures r.phase.Writing? ==> r.phase.event.sequence == r.ticket.sequence
  {
    hide Of, SendsOf;
  }

  lemma AdmittedNext(sh: Shared, id: nat, r: Request, i: Input)
    requires r.phase.Arrived? || r.phase.Admitted?
    requires r.ticket.sequence == 0
    ensures var r' := Advance(sh, id, r, i).1;
            && (forall e :: !Carries(r'.phase, e))
            && (r'.ticket.sequence != 0 ==> r'.phase.Numbered? && r.phase.Admitted? && r'.ticket.eventId == i.eventId)
  {
  }

  /** What is carried on, and what is persisted, by a step that asks nothing new of the environment. */
  lemma CarriedNext(sh: Shared, id: nat, r: Request, i: Input)
    requires !(r.phase.Arrived? || r.phase.Admitted? || r.phase.Numbered? || r.phase.Sending?)
    requires r.phase.Writing? ==> r.phase.event.sequence == r.ticket.sequence
    ensures var (sh', r') := Advance(sh, id, r, i);
            && r'.ticket == r.ticket && (forall e :: Carries(r'.phase, e) ==> Carries(r.phase, e))
            && forall e :: e in Of(sh'.log, r.ticket.sequence) ==>
                 e in Of(sh.log, r.ticket.sequence) || Carries(r.phase, e)
  {
    hide Of, Shown;
    if r.phase.Writing? {
      OfAppend(sh.log, r.phase.event, r.ticket.sequence);
    }
  }

  lemma KeptLog(sh: Shared, id: nat, r: Request, i: Input)
    requires r.phase.Arrived? || r.phase.Admitted? || r.phase.Numbered? || r.phase.Sending?
    ensures Advance(sh, id, r, i).0.log == sh.log
    ensures !r.phase.Arrived? && !r.phase.Admitted? ==>
              && Advance(sh, id, r, i).1.ticket.sequence == r.ticket.sequence
              && Advance(sh, id, r, i).1.ticket.eventId == r.ticket.eventId
  {
  }

  lemma StepStamped(states: seq<System>, events: seq<Event>, k: nat, id: nat)
    requires k < |events| < |states| && events[k].Run? && events[k].id == id && id in states[k].requests
    requires id in states[k + 1].requests
    requires (states[k + 1].shared, states[k + 1].requests[id])
          == Advance(states[k].shared, id, states[k].requests[id], events[k].input)
    requires Consonant(states[k].shared, id, states[k].requests[id])
    requires Consonant(states[k + 1].shared, id, states[k + 1].requests[id])
    requires Stamped(states, events, k, id, Of(states[k].shared.log, states[k].requests[id].ticket.sequence),
                     states[k].requests[id])
    ensures Stamped(states, events, k + 1, id,
                    Of(states[k + 1].shared.log, states[k + 1].requests[id].ticket.sequence),
                    states[k + 1].requests[id])
  {
    hide Met, Genuine, Of, Advance, Consonant, TookAt;
    var sh, r, i := states[k].shared, states[k].requests[id], events[k].input;
    var sh', r' := states[k + 1].shared, states[k + 1].requests[id];
    MetNext(states, events, k, id, AtAdmission);
    StageTaken(states, events, k, id);
    AwaitingAnswer(sh, id, r);
    AwaitingAnswer(sh', id, r');
    if r.phase.Arrived? || r.phase.Admitted? {
      AdmittedNext(sh, id, r, i);
    } else if r.phase.Numbered? {
      KeptLog(sh, id, r, i);
      JudgedGenuine(states, events, k, id, r);
    } else if r.phase.Sending? {
      KeptLog(sh, id, r, i);
      SentGenuine(states, events, k, id, r);
      GenuineKept(states, events, k, id, r.phase.event);
    } else {
      CarriedNext(sh, id, r, i);
      forall e | Genuine(states, events, k, id, e)
        ensures Genuine(states, events, k + 1, id, e)
      {
        GenuineKept(states, events, k, id, e);
      }
    }
  }

  lemma StageTaken(states: seq<System>, events: seq<Event>, k: nat, id: nat)
    requires k < |events| < |states| && events[k].Run? && events[k].id == id && id in states[k].requests
    ensures TookAt(states, events, k, id, AtAdmission) <==> states[k].requests[id].phase.Admitted?
    ensures TookAt(states, events, k, id, AtJudging) <==> states[k].requests[id].phase.Numbered?
    ensures TookAt(states, events, k, id, AtSending) <==> states[k].requests[id].phase.Sending?
  {
  }

  lemma OthersLog(sh: Shared, id: nat, q: nat, sh': Shared, other: nat)
    requires Grows(sh, id, q, sh') && (other != q || sh'.log == sh.log)
    ensures Of(sh'.log, other) == Of(sh.log, other)
  {
    hide Of;
    OfSuffix(sh.log, sh'.log, other);
  }

  lemma {:induction false} AllStamped(states: seq<System>, events: seq<Event>, k: nat, id: nat)
    requires Behaviour(states, events) && k <= |events| && id in states[k].requests
    ensures |events| < |states|
    ensures Stamped(states, events, k, id, Of(states[k].shared.log, states[k].requests[id].ticket.sequence),
                    states[k].requests[id])
  {
    hide Stamped, Inv, Consonant, Advance, Behaviour, Grows, Of;
    Behaves(states, events);
    if k > 0 {
      StepAt(states, events, k - 1);
      InvAlways(states, events, k - 1);
      InvAlways(states, events, k);
      InvConsonant(states[k], id);
      var s, s' := states[k - 1], states[k];
      if id in s.requests {
        AllStamped(states, events, k - 1, id);
        var own := Of(s.shared.log, s.requests[id].ticket.sequence);
        match events[k - 1]
        case Arrive(_) => ElsewhereStamped(states, events, k - 1, id, own, s.requests[id]);
        case Run(other, i) =>
          InvConsonant(s, other);
          if other == id {
            StepStamped(states, events, k - 1, id);
          } else {
            AdvanceGrows(s.shared, other, s.requests[other], i);
            UncountedSilent(s.shared, other, s.requests[other], i);
            ApartNumbers(s, other, id);
            OthersLog(s.shared, other, s.requests[other].ticket.sequence, s'.shared, s.requests[id].ticket.sequence);
            ElsewhereStamped(states, events, k - 1, id, own, s.requests[id]);
          }
      } else {
        NewStamped(states, events, k, id, Of(s'.shared.log, 0));
      }
    }
  }

  lemma NewStamped(states: seq<System>, events: seq<Event>, k: nat, id: nat, own: seq<AuditEvent>)
    requires k <= |events| < |states|
    ensures Stamped(states, events, k, id, own, Request(Arrived, Ticket("", 0, None)))
  {
  }

  /**
   * Every event persisted for a request carries the identifier drawn when it was admitted and the time its scan took;
   * its own time is that of the judgement, or of the upstream's answer where it reports on that.
   */
  lemma EventsStamped(states: seq<System>, events: seq<Event>, k: nat, id: nat, e: AuditEvent)
    requires Behaviour(states, events) && k <= |events| && id in states[k].requests
    requires states[k].requests[id].ticket.sequence != 0
    requires e in Of(states[k].shared.log, states[k].requests[id].ticket.sequence)
    ensures |events| < |states| && Genuine(states, events, k, id, e)
  {
    hide Behaviour, Genuine, Of;
    AllStamped(states, events, k, id);
  }
}
