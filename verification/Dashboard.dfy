/**
 * Audit events and the dashboard's activity list (src/audit.rs, src/gateway.rs `write_audit` and
 * `record_dashboard_activity`).
 */
module Dashboard {
  import opened Summary

  datatype AuditDecision = Allowed | Rewritten | Blocked | Rejected

  datatype UpstreamOutcome = NotStarted | Pending | Started | Failed

  datatype AuditEvent = AuditEvent(
    eventId: string,
    sequence: nat,
    decision: AuditDecision,
    findings: seq<FindingSummary>,
    outcome: UpstreamOutcome,
    timestampMs: nat,
    latencyMs: nat)

  datatype Activity = Activity(
    sequence: nat,
    timestampMs: nat,
    decision: AuditDecision,
    findings: seq<FindingSummary>,
    outcome: UpstreamOutcome,
    latencyMs: nat)

  const DASHBOARD_ACTIVITY_LIMIT: nat := 64

  function EntryFor(e: AuditEvent): Activity {
    Activity(e.sequence, e.timestampMs, e.decision, e.findings, e.outcome, e.latencyMs)
  }

  /** The position of the entry for a sequence number, the length of the list if there is none. */
  function Position(activity: seq<Activity>, sequence: nat): (i: nat)
    ensures i <= |activity|
  {
    if activity == [] || activity[0].sequence == sequence then 0 else 1 + Position(activity[1..], sequence)
  }

  /** The list after an event: its entry updated in place, or a new entry in front and the oldest dropped. */
  function Shown(activity: seq<Activity>, e: AuditEvent): seq<Activity> {
    var i := Position(activity, e.sequence);
    if i < |activity| then activity[i := activity[i].(outcome := e.outcome, latencyMs := e.latencyMs)]
    else
      var all := [EntryFor(e)] + activity;
      if |all| > DASHBOARD_ACTIVITY_LIMIT then all[..DASHBOARD_ACTIVITY_LIMIT] else all
  }

  /** Whether auditing works, the events persisted, and the list shown. */
  datatype Audit = Audit(healthy: bool, log: seq<AuditEvent>, activity: seq<Activity>)

  /** What writing an event does: a stored event is logged and shown, otherwise auditing has failed. */
  function Written(a: Audit, e: AuditEvent, stored: bool): Audit {
    if stored then Audit(a.healthy, a.log + [e], Shown(a.activity, e)) else a.(healthy := false)
  }

  class AuditState {
    var healthy: bool
    var log: seq<AuditEvent>
    var activity: seq<Activity>

    ghost function Now(): Audit
      reads this
    {
      Audit(healthy, log, activity)
    }

    constructor ()
      ensures Now() == Audit(true, [], [])
    {
      healthy := true;
      log := [];
      activity := [];
    }

    method RecordDashboardActivity(e: AuditEvent)
      modifies this`activity
      ensures activity == Shown(old(activity), e)
    {
      var i := 0;
      while i < |activity|
        invariant i <= |activity| && activity == old(activity)
        invariant Position(activity, e.sequence) == i + Position(activity[i..], e.sequence)
      {
        if activity[i].sequence == e.sequence {
          activity := activity[i := activity[i].(outcome := e.outcome, latencyMs := e.latencyMs)];
          return;
        }
        assert activity[i..][1..] == activity[i + 1..];
        i := i + 1;
      }
      activity := [EntryFor(e)] + activity;
      if |activity| > DASHBOARD_ACTIVITY_LIMIT {
        activity := activity[..DASHBOARD_ACTIVITY_LIMIT];
      }
    }

    /** Appends the event or gives up on auditing for good; `stored` says whether the sink took it. */
    method WriteAudit(e: AuditEvent, stored: bool) returns (written: bool)
      modifies this
      ensures written == stored && Now() == Written(old(Now()), e, stored)
    {
      if !stored {
        healthy := false;
        return false;
      }
      log := log + [e];
      RecordDashboardActivity(e);
      written := true;
    }
  }

  // ----- the events of one request

  /** The events with a given sequence number, in order. */
  function Of(events: seq<AuditEvent>, sequence: nat): seq<AuditEvent> {
    if events == [] then []
    else
      var last := events[|events| - 1];
      Of(events[..|events| - 1], sequence) + (if last.sequence == sequence then [last] else [])
  }

  lemma OfAppend(events: seq<AuditEvent>, e: AuditEvent, sequence: nat)
    ensures Of(events + [e], sequence)
         == if e.sequence == sequence then Of(events, sequence) + [e] else Of(events, sequence)
  {
    assert (events + [e])[..|events + [e]| - 1] == events;
    assert Of(events, sequence) + [] == Of(events, sequence);
  }

  lemma {:induction false} OfMembers(events: seq<AuditEvent>, e: AuditEvent, sequence: nat)
    ensures e in Of(events, sequence) <==> e in events && e.sequence == sequence
  {
    if events != [] {
      OfMembers(events[..|events| - 1], e, sequence);
      assert events == events[..|events| - 1] + [events[|events| - 1]];
    }
  }

  // ----- what the list always shows

  predicate SameVerdict(d: AuditEvent, e: AuditEvent) { d.decision == e.decision && d.findings == e.findings }

  /** Events of the same request carry the same decision and the same findings. */
  ghost predicate Consistent(events: seq<AuditEvent>) {
    forall d, e :: d in events && e in events && d.sequence == e.sequence ==> SameVerdict(d, e)
  }

  /** The entry agrees with the latest event of its sequence number. */
  predicate UpToDate(a: Activity, events: seq<AuditEvent>) {
    var own := Of(events, a.sequence);
    own != [] && var last := own[|own| - 1];
      a.decision == last.decision && a.findings == last.findings && a.outcome == last.outcome
        && a.latencyMs == last.latencyMs
  }

  /** At most 64 entries with distinct sequence numbers, each agreeing with the latest event of its request. */
  ghost predicate Faithful(activity: seq<Activity>, events: seq<AuditEvent>) {
    && |activity| <= DASHBOARD_ACTIVITY_LIMIT
    && (forall i, j :: 0 <= i < j < |activity| ==> activity[i].sequence != activity[j].sequence)
    && (forall i {:trigger activity[i]} :: 0 <= i < |activity| ==> UpToDate(activity[i], events))
  }

  lemma {:induction false} PositionExact(activity: seq<Activity>, sequence: nat)
    ensures var i := Position(activity, sequence);
            && (i < |activity| ==> activity[i].sequence == sequence)
            && forall k :: 0 <= k < i ==> activity[k].sequence != sequence
  {
    if activity != [] && activity[0].sequence != sequence {
      PositionExact(activity[1..], sequence);
      assert forall k :: 1 <= k < |activity| ==> activity[k] == activity[1..][k - 1];
    }
  }

  lemma UpToDateKept(a: Activity, events: seq<AuditEvent>, e: AuditEvent)
    requires UpToDate(a, events) && a.sequence != e.sequence
    ensures UpToDate(a, events + [e])
  {
    OfAppend(events, e, a.sequence);
  }

  lemma UpToDateNow(a: Activity, events: seq<AuditEvent>, e: AuditEvent)
    requires a.sequence == e.sequence && a.decision == e.decision && a.findings == e.findings
    requires a.outcome == e.outcome && a.latencyMs == e.latencyMs
    ensures UpToDate(a, events + [e])
  {
    OfAppend(events, e, a.sequence);
  }

  /** The decision an entry was pushed with is that of any later event of the request. */
  lemma EntryVerdict(a: Activity, events: seq<AuditEvent>, e: AuditEvent)
    requires UpToDate(a, events) && a.sequence == e.sequence && Consistent(events + [e])
    ensures a.decision == e.decision && a.findings == e.findings
  {
    var own := Of(events, a.sequence);
    var last := own[|own| - 1];
    OfMembers(events, last, a.sequence);
    assert last in events + [e] && e in events + [e];
    assert SameVerdict(last, e);
  }

  /**
   * Recording an event keeps the list faithful and shows the event, also when its entry had been dropped
   * from the list and is pushed again.
   */
  lemma ShownFaithful(activity: seq<Activity>, events: seq<AuditEvent>, e: AuditEvent)
    requires Faithful(activity, events) && Consistent(events + [e])
    ensures Faithful(Shown(activity, e), events + [e])
    ensures exists a :: a in Shown(activity, e) && a.sequence == e.sequence
  {
    hide UpToDate, Consistent;
    var after := Shown(activity, e);
    PositionExact(activity, e.sequence);
    var p := Position(activity, e.sequence);
    if p < |activity| {
      EntryVerdict(activity[p], events, e);
      UpToDateNow(after[p], events, e);
      assert after[p] in after;
    } else {
      UpToDateNow(after[0], events, e);
      assert after[0] in after;
    }
    forall i | 0 <= i < |after|
      ensures UpToDate(after[i], events + [e])
    {
      if after[i].sequence != e.sequence {
        var was := if p < |activity| then activity[i] else activity[i - 1];
        assert after[i] == was;
        UpToDateKept(was, events, e);
      } else {
        assert i == if p < |activity| then p else 0;
      }
    }
  }

  /** The first entry of the request is at `i`. */
  predicate FirstAt(activity: seq<Activity>, i: nat, sequence: nat) {
    i < |activity| && activity[i].sequence == sequence && forall k :: 0 <= k < i ==> activity[k].sequence != sequence
  }

  /**
   * What recording an event does to the list: an entry of the same request has its outcome and latency updated where
   * it is; otherwise the event's entry is put in front, and only the last of 64 entries is dropped.
   */
  lemma ShownIs(activity: seq<Activity>, e: AuditEvent)
    ensures forall i: nat :: FirstAt(activity, i, e.sequence) ==>
              && |Shown(activity, e)| == |activity|
              && (forall k :: 0 <= k < |activity| && k != i ==> Shown(activity, e)[k] == activity[k])
              && Shown(activity, e)[i] == activity[i].(outcome := e.outcome, latencyMs := e.latencyMs)
    ensures (forall a :: a in activity ==> a.sequence != e.sequence) ==>
              && |Shown(activity, e)| == (if |activity| < 64 then |activity| + 1 else 64)
              && Shown(activity, e)[0]
                 == Activity(e.sequence, e.timestampMs, e.decision, e.findings, e.outcome, e.latencyMs)
              && forall k :: 1 <= k < |Shown(activity, e)| ==> Shown(activity, e)[k] == activity[k - 1]
  {
    PositionExact(activity, e.sequence);
    forall i: nat | FirstAt(activity, i, e.sequence)
      ensures i == Position(activity, e.sequence)
    {
    }
  }
}
