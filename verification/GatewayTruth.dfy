/**
 * Replies and audit events tell what happened (src/gateway.rs): each has its cause in an earlier step of its request,
 * stated here over whole behaviours and without the step function, through what the environment answered.
 */
module GatewayTruth {
  import opened Domain
  import opened Dashboard
  import opened Gateway
  import opened GatewayRuns

  /** The points at which the environment decides how a request goes on. */
  datatype Stage = AtGate | AtAdmission | AtJudging | AtWriting | AtSending

  predicate IsAt(stage: Stage, phase: Phase) {
    match stage
    case AtGate => phase.Arrived?
    case AtAdmission => phase.Admitted?
    case AtJudging => phase.Numbered?
    case AtWriting => phase.Writing?
    case AtSending => phase.Sending?
  }

  /** The event at `j` is a step the request took at this stage. */
  predicate TookAt(states: seq<System>, events: seq<Event>, j: nat, id: nat, stage: Stage) {
    && j < |events| && j < |states| && events[j].Run? && events[j].id == id && id in states[j].requests
    && IsAt(stage, states[j].requests[id].phase)
  }

  /** The last step before `k` the request took at this stage, -1 if it took none. */
  function LastAt(states: seq<System>, events: seq<Event>, k: nat, id: nat, stage: Stage): (j: int)
    requires k <= |events| < |states|
    ensures -1 <= j < k
    ensures 0 <= j ==> TookAt(states, events, j, id, stage)
    ensures forall m: nat {:trigger TookAt(states, events, m, id, stage)} :: j < m < k ==>
              !TookAt(states, events, m, id, stage)
  {
    if k == 0 then -1
    else if TookAt(states, events, k - 1, id, stage) then k - 1
    else LastAt(states, events, k - 1, id, stage)
  }

  /** What the environment did in that step, if the request took one. */
  function Met(states: seq<System>, events: seq<Event>, k: nat, id: nat, stage: Stage): Option<Input>
    requires k <= |events| < |states|
  {
    var j := LastAt(states, events, k, id, stage);
    if j < 0 then None else Some(events[j].input)
  }

  /** The audit sink was known to be broken when the request came to the gate. */
  predicate FoundUnhealthy(states: seq<System>, events: seq<Event>, k: nat, id: nat)
    requires k <= |events| < |states|
  {
    var j := LastAt(states, events, k, id, AtGate);
    0 <= j && !states[j].shared.healthy
  }

  lemma MetNext(states: seq<System>, events: seq<Event>, k: nat, id: nat, stage: Stage)
    requires k < |events| < |states|
    ensures TookAt(states, events, k, id, stage) ==>
              Met(states, events, k + 1, id, stage) == Some(events[k].input)
    ensures !TookAt(states, events, k, id, stage) ==>
              Met(states, events, k + 1, id, stage) == Met(states, events, k, id, stage)
    ensures stage.AtGate? && TookAt(states, events, k, id, stage) ==>
              (FoundUnhealthy(states, events, k + 1, id) <==> !states[k].shared.healthy)
    ensures stage.AtGate? && !TookAt(states, events, k, id, stage) ==>
              (FoundUnhealthy(states, events, k + 1, id) <==> FoundUnhealthy(states, events, k, id))
  {
  }

  // ----- what each reply means

  /** What has to have happened for a request to be given this reply. */
  predicate Earned(reply: Reply, states: seq<System>, events: seq<Event>, k: nat, id: nat, counted: bool)
    requires k <= |events| < |states|
  {
    var gate, admission := Met(states, events, k, id, AtGate), Met(states, events, k, id, AtAdmission);
    var judging, writing := Met(states, events, k, id, AtJudging), Met(states, events, k, id, AtWriting);
    var sending := Met(states, events, k, id, AtSending);
    match reply
    case Unauthorized => !counted && gate.Some? && !gate.value.ok
    case UnsupportedEncoding => !counted && admission.Some? && admission.value.refusal == Some(UnsupportedEncoding)
    case UpstreamAuthMissing => !counted && admission.Some? && admission.value.refusal == Some(UpstreamAuthMissing)
    case RandomUnavailable => !counted && admission.Some? && admission.value.refusal == Some(RandomUnavailable)
    case RequestRejected => counted && judging.Some? && judging.value.verdict.EngineFailed?
    case RequestBlocked => counted && judging.Some? && judging.value.verdict.EngineBlocked?
    case UpstreamConfiguration =>
      counted && judging.Some? && judging.value.verdict.EngineForwards? && !judging.value.targetFound
    case AuditUnavailable =>
      if counted
      then writing.Some? && !writing.value.ok && Bound(judging)
      else gate.Some? && gate.value.ok && FoundUnhealthy(states, events, k, id)
    case Relayed => counted && sending.Some? && sending.value.ok && !sending.value.dropped && Bound(judging)
    case UpstreamUnavailable =>
      counted && sending.Some? && !sending.value.ok && !sending.value.dropped && Bound(judging)
  }

  /** The engine let the request through and there was an upstream to send it to. */
  predicate Bound(judging: Option<Input>) {
    judging.Some? && judging.value.verdict.EngineForwards? && judging.value.targetFound
  }

  /** The outcome that goes with the reply. */
  predicate Tells(reply: Reply, e: AuditEvent) {
    match reply
    case Relayed => e.outcome == Started
    case UpstreamUnavailable => e.outcome == Failed
    case _ => e.outcome == NotStarted
  }

  /** Where the request stands, what it is about to answer, and what led there. */
  predicate Explained(states: seq<System>, events: seq<Event>, k: nat, id: nat, r: Request)
    requires k <= |events| < |states|
  {
    var judging := Met(states, events, k, id, AtJudging);
    && (r.ticket.verdict.Some? ==>
          judging.Some? && r.ticket.verdict == Some(judging.value.verdict) && !judging.value.dropped)
    && match r.phase
       case Arrived => true
       case Admitted => true
       case Numbered => true
       case Writing(e, ThenReply(reply)) =>
         Tells(reply, e) && !reply.AuditUnavailable? && Earned(reply, states, events, k, id, true)
       case Writing(_, ThenSend(_)) => Bound(judging)
       case Degrading(ThenReply(reply)) => !reply.AuditUnavailable? && Earned(reply, states, events, k, id, true)
       case Degrading(ThenSend(_)) => Earned(AuditUnavailable, states, events, k, id, true)
       case Showing(e, ThenReply(reply)) =>
         Tells(reply, e) && !reply.AuditUnavailable? && Earned(reply, states, events, k, id, true)
       case Showing(_, ThenSend(_)) => Bound(judging)
       case Releasing(_, _) => Bound(judging)
       case Sending(_) => Bound(judging)
       case Done(reply) => Earned(reply, states, events, k, id, r.ticket.sequence != 0)
       case Dropped => r.ticket.verdict.Some? ==> Bound(judging)
  }

  /** The step of another request changes nothing of this one's past. */
  lemma ElsewhereExplained(states: seq<System>, events: seq<Event>, k: nat, id: nat, r: Request)
    requires k < |events| < |states| && Explained(states, events, k, id, r)
    requires events[k].Run? ==> events[k].id != id
    ensures Explained(states, events, k + 1, id, r)
  {
    hide LastAt;
    forall stage: Stage
      ensures Met(states, events, k + 1, id, stage) == Met(states, events, k, id, stage)
    {
      MetNext(states, events, k, id, stage);
    }
    MetNext(states, events, k, id, AtGate);
  }

  lemma EarlyExplained(states: seq<System>, events: seq<Event>, k: nat, id: nat)
    requires k < |events| < |states| && events[k].Run? && events[k].id == id && id in states[k].requests
    requires Consonant(states[k].shared, id, states[k].requests[id])
    requires Explained(states, events, k, id, states[k].requests[id])
    requires var p := states[k].requests[id].phase; p.Arrived? || p.Admitted? || p.Numbered?
    ensures Explained(states, events, k + 1, id,
                      Advance(states[k].shared, id, states[k].requests[id], events[k].input).1)
  {
    hide LastAt, Met, FoundUnhealthy, Of, SendsOf, Shown, Announces, Refuses, Reports, SentOnce;
    MetNext(states, events, k, id, AtGate);
    MetNext(states, events, k, id, AtAdmission);
    MetNext(states, events, k, id, AtJudging);
    MetNext(states, events, k, id, AtWriting);
    MetNext(states, events, k, id, AtSending);
  }

  lemma WritingExplained(states: seq<System>, events: seq<Event>, k: nat, id: nat)
    requires k < |events| < |states| && events[k].Run? && events[k].id == id && id in states[k].requests
    requires Consonant(states[k].shared, id, states[k].requests[id])
    requires Explained(states, events, k, id, states[k].requests[id])
    requires var p := states[k].requests[id].phase; p.Writing? || p.Degrading?
    ensures Explained(states, events, k + 1, id,
                      Advance(states[k].shared, id, states[k].requests[id], events[k].input).1)
  {
    hide LastAt, Met, FoundUnhealthy, Of, SendsOf, Shown, Announces, Refuses, Reports, SentOnce;
    MetNext(states, events, k, id, AtGate);
    MetNext(states, events, k, id, AtAdmission);
    MetNext(states, events, k, id, AtJudging);
    MetNext(states, events, k, id, AtWriting);
    MetNext(states, events, k, id, AtSending);
  }

  lemma LateExplained(states: seq<System>, events: seq<Event>, k: nat, id: nat)
    requires k < |events| < |states| && events[k].Run? && events[k].id == id && id in states[k].requests
    requires Consonant(states[k].shared, id, states[k].requests[id])
    requires Explained(states, events, k, id, states[k].requests[id])
    requires var p := states[k].requests[id].phase;
             p.Showing? || p.Releasing? || p.Sending? || p.Done? || p.Dropped?
    ensures Explained(states, events, k + 1, id,
                      Advance(states[k].shared, id, states[k].requests[id], events[k].input).1)
  {
    hide LastAt, Met, FoundUnhealthy, Of, SendsOf, Shown, Announces, Refuses, Reports, SentOnce;
    MetNext(states, events, k, id, AtGate);
    MetNext(states, events, k, id, AtAdmission);
    MetNext(states, events, k, id, AtJudging);
    MetNext(states, events, k, id, AtWriting);
    MetNext(states, events, k, id, AtSending);
  }

  /** A step leads only where its cause says. */
  lemma StepExplained(states: seq<System>, events: seq<Event>, k: nat, id: nat)
    requires k < |events| < |states| && events[k].Run? && events[k].id == id && id in states[k].requests
    requires Consonant(states[k].shared, id, states[k].requests[id])
    requires Explained(states, events, k, id, states[k].requests[id])
    ensures Explained(states, events, k + 1, id,
                      Advance(states[k].shared, id, states[k].requests[id], events[k].input).1)
  {
    hide *;
    match states[k].requests[id].phase
    case Arrived => EarlyExplained(states, events, k, id);
    case Admitted => EarlyExplained(states, events, k, id);
    case Numbered => EarlyExplained(states, events, k, id);
    case Writing(_, _) => WritingExplained(states, events, k, id);
    case Degrading(_) => WritingExplained(states, events, k, id);
    case _ => LateExplained(states, events, k, id);
  }

  lemma {:induction false} AllExplained(states: seq<System>, events: seq<Event>, k: nat, id: nat)
    requires Behaviour(states, events) && k <= |events| && id in states[k].requests
    ensures Explained(states, events, k, id, states[k].requests[id])
  {
    hide Explained, Inv, Consonant, Advance, Behaviour;
    Behaves(states, events);
    if k == 0 {
      assert false;
    }
    StepAt(states, events, k - 1);
    InvAlways(states, events, k - 1);
    if id in states[k - 1].requests {
      AllExplained(states, events, k - 1, id);
      if events[k - 1].Run? && events[k - 1].id == id {
        InvConsonant(states[k - 1], id);
        StepExplained(states, events, k - 1, id);
      } else {
        ElsewhereExplained(states, events, k - 1, id, states[k].requests[id]);
      }
    } else {
      NewExplained(states, events, k, id);
    }
  }

  lemma InvConsonant(s: System, id: nat)
    requires Inv(s) && id in s.requests
    ensures Consonant(s.shared, id, s.requests[id])
  {
    hide Consonant, Faithful, Consistent;
  }

  lemma NewExplained(states: seq<System>, events: seq<Event>, k: nat, id: nat)
    requires k <= |events| < |states|
    ensures Explained(states, events, k, id, Request(Arrived, Ticket("", 0, None)))
  {
  }

  // ----- what is persisted

  /** What has been persisted of a request that is about to answer how its send went, or has. */
  predicate ReportTold(sh: Shared, r: Request) {
    var own := Of(sh.log, r.ticket.sequence);
    match r.phase
    case Degrading(ThenReply(reply)) => reply in {Relayed, UpstreamUnavailable} ==> |own| == 1
    case Showing(_, ThenReply(reply)) => reply in {Relayed, UpstreamUnavailable} ==> |own| == 2 && Tells(reply, own[1])
    case Done(reply) =>
      reply in {Relayed, UpstreamUnavailable} && r.ticket.sequence != 0 ==>
        |own| == 1 || (|own| == 2 && Tells(reply, own[1]))
    case _ => true
  }

  lemma StepTold(sh: Shared, id: nat, r: Request, i: Input)
    requires Consonant(sh, id, r) && ReportTold(sh, r)
    requires forall e, reply :: r.phase == Writing(e, ThenReply(reply)) ==> Tells(reply, e)
    ensures ReportTold(Advance(sh, id, r, i).0, Advance(sh, id, r, i).1)
  {
    hide Of, SendsOf, Shown, Announces, Refuses, Reports, SentOnce, Tells;
    if r.phase.Writing? {
      OfAppend(sh.log, r.phase.event, r.ticket.sequence);
      ReportNumber(sh, id, r);
    }
  }

  lemma OthersTold(sh: Shared, id: nat, q: nat, sh': Shared, r: Request)
    requires Grows(sh, id, q, sh') && ReportTold(sh, r)
    requires r.ticket.sequence != q || sh'.log == sh.log
    ensures ReportTold(sh', r)
  {
    hide Of;
    OfSuffix(sh.log, sh'.log, r.ticket.sequence);
  }

  lemma {:induction false} AllTold(states: seq<System>, events: seq<Event>, k: nat, id: nat)
    requires Behaviour(states, events) && k <= |events| && id in states[k].requests
    ensures ReportTold(states[k].shared, states[k].requests[id])
  {
    hide Explained, Inv, Consonant, Advance, Behaviour, ReportTold, Grows;
    Behaves(states, events);
    if k > 0 {
      StepAt(states, events, k - 1);
      InvAlways(states, events, k - 1);
      var s, s' := states[k - 1], states[k];
      if id in s.requests {
        AllTold(states, events, k - 1, id);
        AllExplained(states, events, k - 1, id);
        match events[k - 1]
        case Arrive(_) =>
        case Run(other, i) =>
          InvConsonant(s, other);
          if other == id {
            WritingTells(states, events, k - 1, id);
            StepTold(s.shared, id, s.requests[id], i);
          } else {
            AdvanceGrows(s.shared, other, s.requests[other], i);
            UncountedSilent(s.shared, other, s.requests[other], i);
            ApartNumbers(s, other, id);
            OthersTold(s.shared, other, s.requests[other].ticket.sequence, s'.shared, s.requests[id]);
          }
      } else {
        NewTold(s'.shared);
      }
    }
  }

  lemma NewTold(sh: Shared)
    ensures ReportTold(sh, Request(Arrived, Ticket("", 0, None)))
  {
  }

  lemma ApartNumbers(s: System, a: nat, b: nat)
    requires Inv(s) && a in s.requests && b in s.requests && a != b
    ensures s.requests[a].ticket.sequence != 0 ==> s.requests[b].ticket.sequence != s.requests[a].ticket.sequence
  {
    hide Faithful, Consistent, Consonant;
  }

  lemma WritingTells(states: seq<System>, events: seq<Event>, k: nat, id: nat)
    requires k <= |events| < |states| && id in states[k].requests
    requires Explained(states, events, k, id, states[k].requests[id])
    ensures forall e, reply :: states[k].requests[id].phase == Writing(e, ThenReply(reply)) ==> Tells(reply, e)
  {
    hide Met, Earned, Tells;
  }

  /** The first event persisted for a request repeats the engine's answer. */
  predicate Repeats(v: Verdict, e: AuditEvent) {
    match v
    case EngineFailed => e.decision == AuditDecision.Rejected && e.findings == []
    case EngineBlocked(findings) => e.decision == AuditDecision.Blocked && e.findings == findings
    case EngineForwards(_, rewritten, findings) =>
      e.decision == (if rewritten then AuditDecision.Rewritten else AuditDecision.Allowed) && e.findings == findings
  }

  lemma FirstEvent(sh: Shared, id: nat, r: Request)
    requires Consonant(sh, id, r) && r.ticket.sequence != 0 && Of(sh.log, r.ticket.sequence) != []
    ensures r.ticket.verdict.Some? && Repeats(r.ticket.verdict.value, Of(sh.log, r.ticket.sequence)[0])
  {
    hide Of, SendsOf;
  }

  // ----- the theorems

  /**
   * In every interleaving a reply is given for its cause and no other: the upstream answered, or could not be
   * reached, or none was found, after the engine had let the request through; the engine blocked it or failed; the
   * audit sink did not take its event, or was known to be broken; the request did not get past the first checks.
   */
  lemma RepliesEarned(states: seq<System>, events: seq<Event>, k: nat, id: nat)
    requires Behaviour(states, events) && k <= |events|
    requires id in states[k].requests && states[k].requests[id].phase.Done?
    ensures |events| < |states|
    ensures var r := states[k].requests[id];
            Earned(r.phase.reply, states, events, k, id, r.ticket.sequence != 0)
  {
    hide Behaviour, Earned;
    Behaves(states, events);
    AllExplained(states, events, k, id);
  }

  /**
   * What is persisted is true: the first event of a request repeats what the engine answered, and the second says
   * Started if the upstream answered and Failed if it could not be reached.
   */
  lemma EventsTrue(states: seq<System>, events: seq<Event>, k: nat, id: nat)
    requires Behaviour(states, events) && k <= |events| && id in states[k].requests
    requires states[k].requests[id].ticket.sequence != 0
    ensures |events| < |states|
    ensures var r, own := states[k].requests[id], Of(states[k].shared.log, states[k].requests[id].ticket.sequence);
            && (own != [] ==> var judging := Met(states, events, k, id, AtJudging);
                  judging.Some? && Repeats(judging.value.verdict, own[0]))
            && (r.phase == Done(Relayed) && |own| > 1 ==> own[1].outcome == Started)
            && (r.phase == Done(UpstreamUnavailable) && |own| > 1 ==> own[1].outcome == Failed)
  {
    hide Behaviour, Of, Consonant, Inv, Earned, Repeats, Met;
    Behaves(states, events);
    InvAlways(states, events, k);
    InvConsonant(states[k], id);
    AllExplained(states, events, k, id);
    AllTold(states, events, k, id);
    if Of(states[k].shared.log, states[k].requests[id].ticket.sequence) != [] {
      FirstEvent(states[k].shared, id, states[k].requests[id]);
    }
  }

  /** A request is sent only if the engine let it through and an upstream was found for it. */
  lemma SentWhenBound(states: seq<System>, events: seq<Event>, k: nat, id: nat)
    requires Behaviour(states, events) && k <= |events| && id in states[k].requests
    requires SendsOf(states[k].shared.sends, id) != []
    ensures |events| < |states| && Bound(Met(states, events, k, id, AtJudging))
  {
    hide Behaviour, Consonant, Inv, Earned, Met, Explained, Bound;
    Behaves(states, events);
    InvAlways(states, events, k);
    InvConsonant(states[k], id);
    AllExplained(states, events, k, id);
    SentBound(states, events, k, id);
  }

  lemma SentBound(states: seq<System>, events: seq<Event>, k: nat, id: nat)
    requires k <= |events| < |states| && id in states[k].requests
    requires Consonant(states[k].shared, id, states[k].requests[id])
    requires Explained(states, events, k, id, states[k].requests[id]) && SendsOf(states[k].shared.sends, id) != []
    ensures Bound(Met(states, events, k, id, AtJudging))
  {
    hide Of, SendsOf, Met, Refuses, Reports;
  }
}
