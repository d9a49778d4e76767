/**
 * The request protocol (src/gateway.rs, `responses`): any number of requests, each a small step machine,
 * interleaved in any order over shared audit state. One step touches shared state at most once; a client
 * may go away wherever the code awaits.
 */
module Gateway {
  import opened Domain
  import opened Dashboard
  import opened Summary

  /** What the engine answered. */
  datatype Verdict =
    | EngineFailed
    | EngineBlocked(findings: seq<FindingSummary>)
    | EngineForwards(body: string, rewritten: bool, findings: seq<FindingSummary>)

  datatype Reply =
    | Unauthorized
    | AuditUnavailable
    | UnsupportedEncoding
    | UpstreamAuthMissing
    | RandomUnavailable
    | RequestRejected
    | RequestBlocked
    | UpstreamConfiguration
    | UpstreamUnavailable
    | Relayed
  {
    /** The replies that tell the client that no byte was forwarded. */
    predicate ClaimsZero() {
      AuditUnavailable? || RequestRejected? || RequestBlocked? || UpstreamConfiguration?
    }
  }

  /** What a request does once its audit event has been dealt with. */
  datatype Next = ThenReply(reply: Reply) | ThenSend(body: string)

  datatype Phase =
    | Arrived
    | Admitted
    | Numbered
    | Writing(event: AuditEvent, next: Next)
    | Degrading(next: Next)
    | Showing(event: AuditEvent, next: Next)
    | Releasing(event: AuditEvent, body: string)
    | Sending(event: AuditEvent)
    | Done(reply: Reply)
    | Dropped

  /**
   * The local variables of a request: its event id and sequence number (0 before it is counted), and what the
   * engine answered.
   */
  datatype Ticket = Ticket(eventId: string, sequence: nat, verdict: Option<Verdict>)

  datatype Request = Request(phase: Phase, ticket: Ticket)

  /** A request sent upstream, with the length of the audit log at that moment. */
  datatype Send = Send(id: nat, event: AuditEvent, body: string, logged: nat)

  datatype Shared = Shared(
    healthy: bool,
    counter: nat,
    log: seq<AuditEvent>,
    shown: seq<AuditEvent>,
    activity: seq<Activity>,
    sends: seq<Send>)

  datatype System = System(shared: Shared, requests: map<nat, Request>)

  /** The environment's share in a step: whether it goes well, and the values it supplies. */
  datatype Input = Input(
    ok: bool,
    dropped: bool,
    refusal: Option<Reply>,
    eventId: string,
    verdict: Verdict,
    targetFound: bool,
    timestampMs: nat,
    latencyMs: nat)

  function DecisionOf(rewritten: bool): AuditDecision { if rewritten then Rewritten else Allowed }

  /** The audit event and the continuation the engine's answer leads to. */
  function Judged(t: Ticket, v: Verdict, targetFound: bool, timestampMs: nat, latencyMs: nat): Phase {
    match v
    case EngineFailed =>
      Writing(AuditEvent(t.eventId, t.sequence, AuditDecision.Rejected, [], NotStarted, timestampMs, latencyMs),
              ThenReply(RequestRejected))
    case EngineBlocked(findings) =>
      Writing(AuditEvent(t.eventId, t.sequence, AuditDecision.Blocked, findings, NotStarted, timestampMs, latencyMs),
              ThenReply(RequestBlocked))
    case EngineForwards(body, rewritten, findings) =>
      if targetFound
      then Writing(AuditEvent(t.eventId, t.sequence, DecisionOf(rewritten), findings, Pending, timestampMs, latencyMs),
                   ThenSend(body))
      else
        Writing(AuditEvent(t.eventId, t.sequence, DecisionOf(rewritten), findings, NotStarted, timestampMs, latencyMs),
                ThenReply(UpstreamConfiguration))
  }

  /** One step of one request. */
  function Advance(sh: Shared, id: nat, r: Request, i: Input): (Shared, Request) {
    match r.phase
    case Arrived =>
      // `authorized`, then the gate: the audit sink has to be healthy
      if !i.ok then (sh, r.(phase := Done(Unauthorized)))
      else if !sh.healthy then (sh, r.(phase := Done(AuditUnavailable)))
      else (sh, r.(phase := Admitted))
    case Admitted =>
      if i.refusal.Some? && i.refusal.value in {UnsupportedEncoding, UpstreamAuthMissing, RandomUnavailable}
      then (sh, r.(phase := Done(i.refusal.value)))
      else (sh.(counter := sh.counter + 1), Request(Numbered, Ticket(i.eventId, sh.counter + 1, None)))
    case Numbered =>
      if i.dropped then (sh, r.(phase := Dropped))
      else (sh, Request(Judged(r.ticket, i.verdict, i.targetFound, i.timestampMs, i.latencyMs),
                        r.ticket.(verdict := Some(i.verdict))))
    case Writing(event, next) =>
      if i.ok then (sh.(log := sh.log + [event]), r.(phase := Showing(event, next)))
      else (sh, r.(phase := Degrading(next)))
    case Degrading(next) =>
      (sh.(healthy := false), r.(phase := Done(if next.ThenSend? then AuditUnavailable else next.reply)))
    case Showing(event, next) =>
      (sh.(shown := sh.shown + [event], activity := Shown(sh.activity, event)),
       r.(phase := if next.ThenSend? then Releasing(event, next.body) else Done(next.reply)))
    case Releasing(event, body) =>
      (sh.(sends := sh.sends + [Send(id, event, body, |sh.log|)]), r.(phase := Sending(event)))
    case Sending(event) =>
      if i.dropped then (sh, r.(phase := Dropped))
      else if i.ok then
        (sh, r.(phase := Writing(event.(outcome := Started, timestampMs := i.timestampMs), ThenReply(Relayed))))
      else
        (sh, r.(phase := Writing(event.(outcome := Failed, timestampMs := i.timestampMs),
                                 ThenReply(UpstreamUnavailable))))
    case Done(_) => (sh, r)
    case Dropped => (sh, r)
  }

  function AuditOf(sh: Shared): Audit { Audit(sh.healthy, sh.log, sh.activity) }

  /**
   * The phases in which a request writes its audit event are `write_audit` cut where other requests may come in
   * between: storing the event, then showing it or giving up. Taken one right after the other they do what the
   * method does, send nothing, and lead on only if the event was stored.
   */
  lemma AuditPhases(sh: Shared, id: nat, r: Request, first: Input, second: Input)
    requires r.phase.Writing?
    ensures var (between, halfway) := Advance(sh, id, r, first);
            var (after, done) := Advance(between, id, halfway, second);
            && AuditOf(after) == Written(AuditOf(sh), r.phase.event, first.ok)
            && after.counter == sh.counter && after.sends == sh.sends && done.ticket == r.ticket
            && done.phase == match r.phase.next
                             case ThenReply(reply) => Done(reply)
                             case ThenSend(body) =>
                               if first.ok then Releasing(r.phase.event, body) else Done(AuditUnavailable)
  {
    hide Shown;
    var (between, halfway) := Advance(sh, id, r, first);
    assert halfway.phase == if first.ok then Showing(r.phase.event, r.phase.next) else Degrading(r.phase.next);
  }

  datatype Event = Arrive(id: nat) | Run(id: nat, input: Input)

  predicate Step(s: System, e: Event, s': System) {
    match e
    case Arrive(id) =>
      id !in s.requests && s' == s.(requests := s.requests[id := Request(Arrived, Ticket("", 0, None))])
    case Run(id, input) =>
      && id in s.requests
      && var (sh, r) := Advance(s.shared, id, s.requests[id], input);
         s' == System(sh, s.requests[id := r])
  }

  const START := System(Shared(true, 0, [], [], [], []), map[])

  ghost predicate Behaviour(states: seq<System>, events: seq<Event>) {
    && |states| == |events| + 1 && states[0] == START
    && forall k {:trigger Step(states[k], events[k], states[k + 1])} ::
         0 <= k < |events| ==> Step(states[k], events[k], states[k + 1])
  }

  lemma StepAt(states: seq<System>, events: seq<Event>, k: nat)
    requires Behaviour(states, events) && k < |events|
    ensures Step(states[k], events[k], states[k + 1])
  {
  }

  // ----- what belongs to one request

  function SendsOf(sends: seq<Send>, id: nat): seq<Send> {
    if sends == [] then []
    else
      var last := sends[|sends| - 1];
      SendsOf(sends[..|sends| - 1], id) + (if last.id == id then [last] else [])
  }

  lemma SendsAppend(sends: seq<Send>, x: Send, id: nat)
    ensures SendsOf(sends + [x], id) == if x.id == id then SendsOf(sends, id) + [x] else SendsOf(sends, id)
  {
    assert (sends + [x])[..|sends + [x]| - 1] == sends;
    assert SendsOf(sends, id) + [] == SendsOf(sends, id);
  }

  /** The event announces a send: it is Pending, names the request, and its decision and findings are the engine's. */
  predicate Announces(t: Ticket, p: AuditEvent, body: string) {
    && p.eventId == t.eventId && p.sequence == t.sequence && p.outcome == Pending
    && t.verdict.Some? && t.verdict.value.EngineForwards?
    && p.decision == DecisionOf(t.verdict.value.rewritten) && p.findings == t.verdict.value.findings
    && body == t.verdict.value.body
  }

  /** The event closes a request that was not sent: it repeats the engine's answer. */
  predicate Refuses(t: Ticket, e: AuditEvent) {
    && e.eventId == t.eventId && e.sequence == t.sequence && e.outcome == NotStarted && t.verdict.Some?
    && match t.verdict.value
       case EngineFailed => e.decision == AuditDecision.Rejected && e.findings == []
       case EngineBlocked(findings) => e.decision == AuditDecision.Blocked && e.findings == findings
       case EngineForwards(_, rewritten, findings) => e.decision == DecisionOf(rewritten) && e.findings == findings
  }

  /** The event reports how the send announced by `p` went. */
  predicate Reports(p: AuditEvent, e: AuditEvent) {
    && e.eventId == p.eventId && e.sequence == p.sequence && SameVerdict(p, e)
    && (e.outcome == Started || e.outcome == Failed)
  }

  /** Nothing is persisted, shown or sent. */
  predicate Untouched(sh: Shared, id: nat, q: nat) {
    Of(sh.log, q) == [] && Of(sh.shown, q) == [] && SendsOf(sh.sends, id) == []
  }

  /** The one send of the request, made after its Pending event had been persisted. */
  predicate SentOnce(sh: Shared, id: nat, t: Ticket, p: AuditEvent) {
    var sends := SendsOf(sh.sends, id);
    && |sends| == 1 && sends[0].event == p && Announces(t, p, sends[0].body)
    && sends[0].logged <= |sh.log| && p in sh.log[..sends[0].logged]
  }

  /** The request was never sent; at most one closing or announcing event of it is persisted. */
  predicate NeverSent(sh: Shared, id: nat, t: Ticket) {
    var own := Of(sh.log, t.sequence);
    && SendsOf(sh.sends, id) == [] && Of(sh.shown, t.sequence) == own
    && (own == [] || (|own| == 1 && Refuses(t, own[0])))
  }

  /** The request was sent, and its events are the announcement and at most one report. */
  predicate SentAndReported(sh: Shared, id: nat, t: Ticket) {
    var own := Of(sh.log, t.sequence);
    && own != [] && SentOnce(sh, id, t, own[0]) && Of(sh.shown, t.sequence) == own
    && (|own| == 1 || (|own| == 2 && Reports(own[0], own[1])))
  }

  /** What the shared state holds of a request, phase by phase. */
  predicate Consonant(sh: Shared, id: nat, r: Request) {
    var t, q := r.ticket, r.ticket.sequence;
    match r.phase
    case Arrived => SendsOf(sh.sends, id) == [] && q == 0 && t.verdict.None?
    case Admitted => SendsOf(sh.sends, id) == [] && q == 0 && t.verdict.None?
    case Numbered => Untouched(sh, id, q) && 1 <= q && t.verdict.None?
    case Writing(e, ThenSend(body)) => Untouched(sh, id, q) && 1 <= q && Announces(t, e, body)
    case Writing(e, ThenReply(reply)) =>
      1 <= q && if reply.ClaimsZero() then Untouched(sh, id, q) && Refuses(t, e) else AwaitingReport(sh, id, t, e)
    case Degrading(ThenSend(_)) => Untouched(sh, id, q) && 1 <= q
    case Degrading(ThenReply(reply)) =>
      1 <= q && if reply.ClaimsZero() then Untouched(sh, id, q) else SentAndReported(sh, id, t)
    case Showing(e, ThenSend(body)) =>
      1 <= q && Announces(t, e, body) && Of(sh.log, q) == [e] && Of(sh.shown, q) == [] && SendsOf(sh.sends, id) == []
    case Showing(e, ThenReply(reply)) =>
      1 <= q && if reply.ClaimsZero()
                then Refuses(t, e) && Of(sh.log, q) == [e] && Of(sh.shown, q) == [] && SendsOf(sh.sends, id) == []
                else ShowingReport(sh, id, t, e)
    case Releasing(e, body) =>
      1 <= q && Announces(t, e, body) && Of(sh.log, q) == [e] && Of(sh.shown, q) == [e] && SendsOf(sh.sends, id) == []
    case Sending(e) => 1 <= q && Of(sh.log, q) == [e] && Of(sh.shown, q) == [e] && SentOnce(sh, id, t, e)
    case Done(reply) =>
      if q == 0 then SendsOf(sh.sends, id) == [] && !reply.Relayed?
      else if reply.ClaimsZero() then NeverSent(sh, id, t) else SentAndReported(sh, id, t)
    case Dropped => 1 <= q && (Untouched(sh, id, q) || SentAndReported(sh, id, t))
  }

  predicate AwaitingReport(sh: Shared, id: nat, t: Ticket, e: AuditEvent) {
    && |Of(sh.log, t.sequence)| == 1 && Of(sh.shown, t.sequence) == Of(sh.log, t.sequence)
    && SentOnce(sh, id, t, Of(sh.log, t.sequence)[0]) && Reports(Of(sh.log, t.sequence)[0], e)
  }

  predicate ShowingReport(sh: Shared, id: nat, t: Ticket, e: AuditEvent) {
    && |Of(sh.log, t.sequence)| == 2 && Of(sh.log, t.sequence)[1] == e
    && Of(sh.shown, t.sequence) == [Of(sh.log, t.sequence)[0]]
    && SentOnce(sh, id, t, Of(sh.log, t.sequence)[0]) && Reports(Of(sh.log, t.sequence)[0], e)
  }

  // ----- one step, seen by the request that takes it

  /**
   * What a step may do to the shared state: append one event or one send of its own request, count, or give up on
   * auditing.
   */
  predicate Grows(sh: Shared, id: nat, q: nat, sh': Shared) {
    && (sh'.healthy ==> sh.healthy)
    && (sh'.counter == sh.counter || sh'.counter == sh.counter + 1)
    && (sh'.log == sh.log || (|sh'.log| == |sh.log| + 1 && sh.log == sh'.log[..|sh.log|]
                              && sh'.log[|sh.log|].sequence == q))
    && (sh'.shown == sh.shown || (|sh'.shown| == |sh.shown| + 1 && sh.shown == sh'.shown[..|sh.shown|]
                                  && sh'.shown[|sh.shown|].sequence == q))
    && (sh'.sends == sh.sends || (|sh'.sends| == |sh.sends| + 1 && sh.sends == sh'.sends[..|sh.sends|]
                                  && sh'.sends[|sh.sends|].id == id))
  }

  lemma AdvanceGrows(sh: Shared, id: nat, r: Request, i: Input)
    requires Consonant(sh, id, r)
    ensures Grows(sh, id, r.ticket.sequence, Advance(sh, id, r, i).0)
    ensures var r' := Advance(sh, id, r, i).1;
            r'.ticket.sequence == r.ticket.sequence
              || (r.ticket.sequence == 0 && r'.ticket.sequence == sh.counter + 1 == Advance(sh, id, r, i).0.counter)
  {
    hide Of, SendsOf, Shown;
  }

  lemma PrefixesKept(a: seq<AuditEvent>, b: seq<AuditEvent>)
    requires |a| <= |b| && a == b[..|a|]
    ensures forall n: nat :: n <= |a| ==> a[..n] == b[..n]
  {
    forall n: nat | n <= |a|
      ensures a[..n] == b[..n]
    {
      assert a[..n] == b[..|a|][..n];
    }
  }

  /** Nothing persisted or shown carries the next number. */
  predicate Fresh(sh: Shared, q: nat) {
    Of(sh.log, q) == [] && Of(sh.shown, q) == []
  }

  lemma WritingConsonant(sh: Shared, id: nat, r: Request, i: Input)
    requires Consonant(sh, id, r) && r.phase.Writing?
    ensures Consonant(Advance(sh, id, r, i).0, id, Advance(sh, id, r, i).1)
  {
    hide Of, SendsOf, Refuses, Announces, Reports;
    OfAppend(sh.log, r.phase.event, r.ticket.sequence);
    PrefixesKept(sh.log, sh.log + [r.phase.event]);
    ReportNumber(sh, id, r);
  }

  lemma ReportNumber(sh: Shared, id: nat, r: Request)
    requires Consonant(sh, id, r) && (r.phase.Writing? || r.phase.Showing?)
    ensures r.phase.event.sequence == r.ticket.sequence
  {
    hide Of, SendsOf;
  }

  lemma ShowingConsonant(sh: Shared, id: nat, r: Request, i: Input)
    requires Consonant(sh, id, r) && r.phase.Showing?
    ensures Consonant(Advance(sh, id, r, i).0, id, Advance(sh, id, r, i).1)
  {
    hide Of, SendsOf, Refuses, Announces, Reports, Shown;
    OfAppend(sh.shown, r.phase.event, r.ticket.sequence);
    ReportNumber(sh, id, r);
    var own := Of(sh.log, r.ticket.sequence);
    assert |own| == 2 ==> own == [own[0]] + [own[1]];
  }

  lemma ReleasingConsonant(sh: Shared, id: nat, r: Request, i: Input)
    requires Consonant(sh, id, r) && r.phase.Releasing?
    ensures Consonant(Advance(sh, id, r, i).0, id, Advance(sh, id, r, i).1)
  {
    hide Of, SendsOf, Refuses, Announces, Reports;
    var e := r.phase.event;
    var x := Send(id, e, r.phase.body, |sh.log|);
    SendsAppend(sh.sends, x, id);
    OfMembers(sh.log, e, r.ticket.sequence);
    assert sh.log[..|sh.log|] == sh.log;
    assert [] + [x] == [x];
  }

  /** The step keeps the request's own records in order. */
  lemma AdvanceConsonant(sh: Shared, id: nat, r: Request, i: Input)
    requires Consonant(sh, id, r) && Fresh(sh, sh.counter + 1)
    ensures Consonant(Advance(sh, id, r, i).0, id, Advance(sh, id, r, i).1)
  {
    match r.phase
    case Writing(_, _) => WritingConsonant(sh, id, r, i);
    case Showing(_, _) => ShowingConsonant(sh, id, r, i);
    case Releasing(_, _) => ReleasingConsonant(sh, id, r, i);
    case Numbered => NumberedConsonant(sh, id, r, i);
    case Sending(_) => SendingConsonant(sh, id, r, i);
    case _ => QuietConsonant(sh, id, r, i);
  }

  lemma NumberedConsonant(sh: Shared, id: nat, r: Request, i: Input)
    requires Consonant(sh, id, r) && r.phase.Numbered?
    ensures Consonant(Advance(sh, id, r, i).0, id, Advance(sh, id, r, i).1)
  {
    hide Of, SendsOf;
  }

  lemma SendingConsonant(sh: Shared, id: nat, r: Request, i: Input)
    requires Consonant(sh, id, r) && r.phase.Sending?
    ensures Consonant(Advance(sh, id, r, i).0, id, Advance(sh, id, r, i).1)
  {
    hide Of, SendsOf;
  }

  lemma QuietConsonant(sh: Shared, id: nat, r: Request, i: Input)
    requires Consonant(sh, id, r) && Fresh(sh, sh.counter + 1)
    requires r.phase.Arrived? || r.phase.Admitted? || r.phase.Degrading? || r.phase.Done? || r.phase.Dropped?
    ensures Consonant(Advance(sh, id, r, i).0, id, Advance(sh, id, r, i).1)
  {
    hide Of, SendsOf, Refuses, Announces, Reports;
  }

  lemma {:induction false} OfSuffix(a: seq<AuditEvent>, b: seq<AuditEvent>, q: nat)
    requires a == b || (|b| == |a| + 1 && a == b[..|a|] && b[|a|].sequence != q)
    ensures Of(a, q) == Of(b, q)
  {
    if a != b {
      assert b == a + [b[|a|]];
      OfAppend(a, b[|a|], q);
    }
  }

  /** A step of one request leaves the records of the others alone. */
  lemma OthersConsonant(sh: Shared, id: nat, q: nat, sh': Shared, other: nat, r: Request)
    requires Grows(sh, id, q, sh') && Consonant(sh, other, r) && other != id
    requires r.ticket.sequence != q || (sh'.log == sh.log && sh'.shown == sh.shown)
    ensures Consonant(sh', other, r)
  {
    hide Of, SendsOf;
    OfSuffix(sh.log, sh'.log, r.ticket.sequence);
    OfSuffix(sh.shown, sh'.shown, r.ticket.sequence);
    if sh'.sends != sh.sends {
      var x := sh'.sends[|sh.sends|];
      assert sh'.sends == sh.sends + [x];
      SendsAppend(sh.sends, x, other);
    }
    PrefixesKept(sh.log, sh'.log);
  }
}
