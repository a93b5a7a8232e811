/** Judging a delivered proposal by the usage before and after its delivery. */
module Evaluator {
  import opened Prelude
  import opened Sequences
  import opened Percentile
  import opened Iso
  import opened Usage
  import opened Windows

  datatype Proposal = Proposal(id: string, evidence: seq<string>)

  datatype Delivery = Delivery(proposalId: string, at: Instant)

  /** The evaluator's own settings, and how many days the store keeps events. */
  datatype Policy = Policy(windowDays: nat, minEvents: nat, minPoints: nat, percentile: real, improvement: real,
                           regression: real, retentionDays: nat)

  predicate ValidPolicy(c: Policy) {
    && c.windowDays > 0 && c.minEvents > 0 && c.minPoints > 0 && c.retentionDays > 0
    && ValidPercentile(c.percentile) && 0.0 <= c.improvement <= 1.0 && 0.0 <= c.regression <= 1.0
  }

  datatype EvaluationError = ProposalMismatch | FutureDelivery | SeveralPartitions

  datatype Metrics = Metrics(startedAt: int, endedAt: int, eventCount: int, succeededCount: int, failedCount: int,
                             pointCount: int, duration: Option<nat>, failureRate: Option<real>)

  /** What a metrics record must satisfy to be built. */
  predicate ValidMetrics(m: Metrics) {
    && m.startedAt <= m.endedAt
    && m.succeededCount >= 0 && m.failedCount >= 0 && m.pointCount >= 0
    && m.succeededCount + m.failedCount == m.eventCount
    && m.pointCount <= m.succeededCount
    && m.failureRate == (if m.eventCount == 0 then None else Some(m.failedCount as real / m.eventCount as real))
  }

  datatype Verdict = Regressed | Inconclusive | Improved

  datatype Side = Before | After

  datatype Ratio = Undefined | Infinite | Ratio(value: real)

  datatype Reason =
    | EvidenceUnavailable
    | TooFewEvents(side: Side, have: int, need: nat)
    | TooFewDurations(side: Side, have: int, need: nat)
    | DurationsWere(before: nat, after: nat, ratio: Ratio)
    | FailureRatesWere(rateBefore: real, rateAfter: real)
    | NoSignificantChange

  datatype Evaluation = Evaluation(proposalId: string, evaluatedAt: int, outcome: Verdict, reasons: seq<Reason>,
                                   before: Metrics, after: Metrics, recommendation: Option<string>)

  /** What an evaluation must satisfy to be built. */
  predicate ValidEvaluation(e: Evaluation) {
    && e.reasons != [] && ValidMetrics(e.before) && ValidMetrics(e.after)
    && (e.recommendation.Some? <==> e.outcome == Regressed)
  }

  /** Both sides have the minimum of events and of durations. */
  predicate HasData(c: Policy, e: Evaluation) {
    && e.before.eventCount >= c.minEvents && e.before.pointCount >= c.minPoints
    && e.after.eventCount >= c.minEvents && e.after.pointCount >= c.minPoints
  }

  // ---- metrics ----

  predicate HasSucceeded(e: Event) { e.status == Succeeded }

  predicate HasFailed(e: Event) { e.status == Failed }

  lemma CountsAddUp(events: seq<Event>)
    ensures |Filter(events, HasSucceeded)| + |Filter(events, HasFailed)| == |events|
  {
  }

  function MetricsOf(c: Policy, events: seq<Event>, start: int, end: int): (m: Metrics)
    requires ValidPolicy(c) && start <= end
    ensures ValidMetrics(m) && m.eventCount == |events| && (m.duration.Some? <==> m.pointCount > 0)
  {
    CountsAddUp(events);
    var succeeded := Filter(events, HasSucceeded);
    var failed := |Filter(events, HasFailed)|;
    var durations := Durations(succeeded);
    Metrics(start, end, |events|, |succeeded|, failed, |durations|,
            if durations != [] then Some(NearestRank(durations, c.percentile)) else None,
            if |events| == 0 then None else Some(failed as real / |events| as real))
  }

  function Insufficient(c: Policy, side: Side, m: Metrics): seq<Reason> {
    (if m.eventCount < c.minEvents then [TooFewEvents(side, m.eventCount, c.minEvents)] else [])
    + (if m.pointCount < c.minPoints then [TooFewDurations(side, m.pointCount, c.minPoints)] else [])
  }

  function InsufficientReasons(c: Policy, before: Metrics, after: Metrics): (r: seq<Reason>)
    ensures r == [] <==> && before.eventCount >= c.minEvents && before.pointCount >= c.minPoints
                         && after.eventCount >= c.minEvents && after.pointCount >= c.minPoints
  {
    Insufficient(c, Before, before) + Insufficient(c, After, after)
  }

  // ---- the two windows ----

  datatype Partition = Partition(environment: string, consumerClass: string, fingerprint: string)

  function PartitionOf(e: Event): Partition { Partition(e.environment, e.consumerClass, e.fingerprint) }

  function InPartition(p: Partition): Event -> bool { e => PartitionOf(e) == p }

  /** From start up to but without the delivery. */
  function EarlierThan(start: int, at: int): Event -> bool { e => start <= At(e) < at }

  /** From the delivery on, up to now. */
  function From(at: int, now: int): Event -> bool { e => at <= At(e) <= now }

  function IsEvidence(p: Proposal): Event -> bool { (e: Event) => e.eventId in p.evidence }

  function BeforeStart(c: Policy, d: Delivery): int { Micros(d.at) - c.windowDays * DAY }

  function EventsBefore(c: Policy, d: Delivery, p: Partition, events: seq<Event>): seq<Event> {
    Filter(Filter(events, InPartition(p)), EarlierThan(BeforeStart(c, d), Micros(d.at)))
  }

  function EventsAfter(d: Delivery, now: int, p: Partition, events: seq<Event>): seq<Event> {
    Filter(Filter(events, InPartition(p)), From(Micros(d.at), now))
  }

  /** Where the single bounded read starts. */
  function ReadStart(c: Policy, d: Delivery, now: int): int {
    var keep := c.retentionDays * DAY;
    Least(BeforeStart(c, d), Least(now - keep, Micros(d.at) - keep))
  }

  function Least(a: int, b: int): int { if a < b then a else b }

  // ---- the judgement ----

  /** The verdict on sufficient data, and the observations it rests on. */
  function Judge(c: Policy, before: Metrics, after: Metrics): (r: (Verdict, seq<Reason>))
    requires before.duration.Some? && after.duration.Some? && before.failureRate.Some? && after.failureRate.Some?
    ensures r.1 != []
  {
    var x, y := before.duration.value, after.duration.value;
    var improved := x != 0 && y as real <= x as real * (1.0 - c.improvement);
    var slower := if x == 0 then y > 0 else y as real >= x as real * (1.0 + c.regression);
    var ratio := if x == 0 then (if y == 0 then Undefined else Infinite) else Ratio(y as real / x as real);
    var failing := after.failureRate.value >= before.failureRate.value + c.regression;
    var observed := [DurationsWere(x, y, ratio), FailureRatesWere(before.failureRate.value, after.failureRate.value)];
    if slower || failing then (Regressed, observed)
    else if improved then (Improved, observed)
    else (Inconclusive, observed + [NoSignificantChange])
  }

  function Recommendation(id: string): string {
    "Human review recommended for proposal '" + id + "' because observed usage regressed."
  }

  /** Too little data is inconclusive; otherwise the verdict decides. */
  function Conclude(c: Policy, id: string, now: int, before: Metrics, after: Metrics): (r: Evaluation)
    requires ValidPolicy(c) && ValidMetrics(before) && ValidMetrics(after)
    requires (before.duration.Some? <==> before.pointCount > 0) && (after.duration.Some? <==> after.pointCount > 0)
    ensures ValidEvaluation(r) && r.before == before && r.after == after
    ensures r.outcome != Inconclusive ==> HasData(c, r)
  {
    var insufficient := InsufficientReasons(c, before, after);
    if insufficient != [] then Evaluation(id, now, Inconclusive, insufficient, before, after, None)
    else
      var (verdict, reasons) := Judge(c, before, after);
      Evaluation(id, now, verdict, reasons, before, after,
                 if verdict == Regressed then Some(Recommendation(id)) else None)
  }

  /** The evaluation of the usage of one partition. */
  function Compare(c: Policy, id: string, d: Delivery, now: int, p: Partition, events: seq<Event>): (r: Evaluation)
    requires ValidPolicy(c) && Micros(d.at) <= now
    ensures ValidEvaluation(r) && (r.outcome != Inconclusive ==> HasData(c, r))
  {
    var before := MetricsOf(c, EventsBefore(c, d, p, events), BeforeStart(c, d), Micros(d.at));
    var after := MetricsOf(c, EventsAfter(d, now, p, events), Micros(d.at), now);
    Conclude(c, id, now, before, after)
  }

  predicate OnePartition(events: seq<Event>) { forall i | 0 <= i < |events| :: PartitionOf(events[i]) == PartitionOf(events[0]) }

  /** The evaluation, from the events of the read. */
  function Evaluate(c: Policy, p: Proposal, d: Delivery, now: Instant, events: seq<Event>): (r: Result<Evaluation,
                    EvaluationError>)
    requires ValidPolicy(c)
    ensures r.Ok? ==> ValidEvaluation(r.value) && (r.value.outcome != Inconclusive ==> HasData(c, r.value))
  {
    if d.proposalId != p.id then Err(ProposalMismatch)
    else if Micros(d.at) > Micros(now) then Err(FutureDelivery)
    else
      var evidence := Filter(events, IsEvidence(p));
      if evidence == [] then
        Ok(Evaluation(p.id, Micros(now), Inconclusive, [EvidenceUnavailable],
                      MetricsOf(c, [], BeforeStart(c, d), Micros(d.at)), MetricsOf(c, [], Micros(d.at), Micros(now)), None))
      else if !OnePartition(evidence) then Err(SeveralPartitions)
      else Ok(Compare(c, p.id, d, Micros(now), PartitionOf(evidence[0]), events))
  }

  // ---- the bounded read loses nothing ----

  /** No event is on both sides, and one at the instant of delivery counts as after it. */
  lemma WindowsSplitAtDelivery(c: Policy, d: Delivery, now: int, p: Partition, events: seq<Event>, e: Event)
    requires ValidPolicy(c) && Micros(d.at) <= now && e in events && PartitionOf(e) == p
    ensures !(e in EventsBefore(c, d, p, events) && e in EventsAfter(d, now, p, events))
    ensures At(e) == Micros(d.at) ==> e in EventsAfter(d, now, p, events)
    ensures BeforeStart(c, d) <= At(e) <= now ==> e in EventsBefore(c, d, p, events) || e in EventsAfter(d, now, p, events)
  {
  }

  lemma ReadThenPartition(events: seq<Event>, read: Event -> bool, part: Event -> bool, window: Event -> bool)
    requires forall e | e in events && window(e) :: read(e)
    ensures Filter(Filter(Filter(events, read), part), window) == Filter(Filter(events, part), window)
  {
    FilterSwap(Filter(events, read), part, window);
    FilterTwice(events, read, window);
    FilterSwap(events, window, part);
  }

  /**
   * For one partition, the metrics and so the whole evaluation of the bounded read are
   * those of the complete history.
   */
  lemma BoundedReadIsEnough(c: Policy, id: string, d: Delivery, now: int, p: Partition, history: seq<Event>)
    requires ValidPolicy(c) && Micros(d.at) <= now
    ensures Compare(c, id, d, now, p, Filter(history, Within(ReadStart(c, d, now), now))) == Compare(c, id, d, now, p, history)
  {
    ReadThenPartition(history, Within(ReadStart(c, d, now), now), InPartition(p), EarlierThan(BeforeStart(c, d), Micros(d.at)));
    ReadThenPartition(history, Within(ReadStart(c, d, now), now), InPartition(p), From(Micros(d.at), now));
  }
}
