/** What an evaluation says: the usage it measured, the verdict on it, and the reasons. */
module EvaluatorMeaning {
  import opened Prelude
  import opened Sequences
  import opened Percentile
  import opened Iso
  import opened Usage
  import opened Evaluator
  import opened EvaluatorTheorem

  // ---- what is measured ----

  /** The events of a partition from start up to but without end. */
  function UsageBefore(p: Partition, start: int, end: int): Event -> bool {
    (e: Event) => PartitionOf(e) == p && start <= At(e) && At(e) < end
  }

  /** The events of a partition from start up to and with end. */
  function UsageUntil(p: Partition, start: int, end: int): Event -> bool {
    (e: Event) => PartitionOf(e) == p && start <= At(e) && At(e) <= end
  }

  predicate HasTiming(e: Event) { e.status == Succeeded && e.durationMs.Some? }

  /** The metrics count these events, and their duration is the percentile of the timed successes. */
  ghost predicate Measures(m: Metrics, c: Policy, events: seq<Event>)
    requires ValidPolicy(c)
  {
    var timed := Filter(events, HasTiming);
    && m.eventCount == |events|
    && m.succeededCount == |Filter(events, HasSucceeded)| && m.failedCount == |Filter(events, HasFailed)|
    && m.pointCount == |timed|
    && m.duration == (if timed == [] then None else Some(NearestRank(Map(timed, Millis), c.percentile)))
  }

  lemma MetricsMeasure(c: Policy, events: seq<Event>, start: int, end: int)
    requires ValidPolicy(c) && start <= end
    ensures Measures(MetricsOf(c, events, start, end), c, events)
  {
    FilterBoth(events, HasSucceeded, HasDuration);
    FilterSame(events, Both(HasSucceeded, HasDuration), HasTiming);
    assert Filter(Filter(events, HasSucceeded), HasDuration) == Filter(events, HasTiming);
  }

  lemma BeforeIsUsage(c: Policy, d: Delivery, p: Partition, events: seq<Event>)
    ensures EventsBefore(c, d, p, events)
            == Filter(events, UsageBefore(p, Micros(d.at) - c.windowDays * 86400000000, Micros(d.at)))
  {
    EarlierInPartition(BeforeStart(c, d), Micros(d.at), p, events);
  }

  lemma EarlierInPartition(start: int, at: int, p: Partition, events: seq<Event>)
    ensures Filter(Filter(events, InPartition(p)), EarlierThan(start, at)) == Filter(events, UsageBefore(p, start, at))
  {
    FilterBoth(events, InPartition(p), EarlierThan(start, at));
    FilterSame(events, Both(InPartition(p), EarlierThan(start, at)), UsageBefore(p, start, at));
  }

  lemma AfterIsUsage(d: Delivery, now: int, p: Partition, events: seq<Event>)
    ensures EventsAfter(d, now, p, events) == Filter(events, UsageUntil(p, Micros(d.at), now))
  {
    var at := Micros(d.at);
    FilterBoth(events, InPartition(p), From(at, now));
    FilterSame(events, Both(InPartition(p), From(at, now)), UsageUntil(p, at, now));
  }

  /** The metrics of a partition for the given number of days before the delivery, without its instant. */
  ghost predicate MeasuresBefore(m: Metrics, c: Policy, at: int, part: Partition, events: seq<Event>)
    requires ValidPolicy(c)
  {
    var start := at - c.windowDays * 86400000000;
    m.startedAt == start && m.endedAt == at && Measures(m, c, Filter(events, UsageBefore(part, start, at)))
  }

  /** The metrics of a partition from the instant of the delivery up to now. */
  ghost predicate MeasuresAfter(m: Metrics, c: Policy, at: int, now: int, part: Partition, events: seq<Event>)
    requires ValidPolicy(c)
  {
    m.startedAt == at && m.endedAt == now && Measures(m, c, Filter(events, UsageUntil(part, at, now)))
  }

  lemma BeforeMeasured(c: Policy, d: Delivery, part: Partition, events: seq<Event>)
    requires ValidPolicy(c)
    ensures MeasuresBefore(MetricsOf(c, EventsBefore(c, d, part, events), BeforeStart(c, d), Micros(d.at)), c,
                           Micros(d.at), part, events)
  {
    BeforeIsUsage(c, d, part, events);
    MetricsMeasure(c, EventsBefore(c, d, part, events), BeforeStart(c, d), Micros(d.at));
  }

  lemma AfterMeasured(c: Policy, d: Delivery, now: int, part: Partition, events: seq<Event>)
    requires ValidPolicy(c) && Micros(d.at) <= now
    ensures MeasuresAfter(MetricsOf(c, EventsAfter(d, now, part, events), Micros(d.at), now), c, Micros(d.at), now,
                          part, events)
  {
    AfterIsUsage(d, now, part, events);
    MetricsMeasure(c, EventsAfter(d, now, part, events), Micros(d.at), now);
  }

  /** What is compared are the two sides' metrics. */
  lemma CompareSides(c: Policy, id: string, d: Delivery, now: int, part: Partition, events: seq<Event>)
    requires ValidPolicy(c) && Micros(d.at) <= now
    ensures var e := Compare(c, id, d, now, part, events);
            && e.proposalId == id && e.evaluatedAt == now
            && e.before == MetricsOf(c, EventsBefore(c, d, part, events), BeforeStart(c, d), Micros(d.at))
            && e.after == MetricsOf(c, EventsAfter(d, now, part, events), Micros(d.at), now)
  {
  }

  lemma EvidenceIsCompared(c: Policy, p: Proposal, d: Delivery, now: Instant, events: seq<Event>, evidence: Event)
    requires ValidPolicy(c) && Evaluate(c, p, d, now, events).Ok? && IsEvidenceOf(p, events, evidence)
    ensures Micros(d.at) <= Micros(now)
    ensures Evaluate(c, p, d, now, events).value == Compare(c, p.id, d, Micros(now), PartitionOf(evidence), events)
  {
    var found := Filter(events, IsEvidence(p));
    EvidenceMembers(p, events);
    InOnePartition(found, evidence);
  }

  /** With evidence, an evaluation measures the evidence's partition on both sides of the delivery. */
  lemma EvaluationMeasures(c: Policy, p: Proposal, d: Delivery, now: Instant, events: seq<Event>, evidence: Event)
    requires ValidPolicy(c) && Evaluate(c, p, d, now, events).Ok? && IsEvidenceOf(p, events, evidence)
    ensures var e := Evaluate(c, p, d, now, events).value;
            && e.proposalId == p.id && e.evaluatedAt == Micros(now)
            && MeasuresBefore(e.before, c, Micros(d.at), PartitionOf(evidence), events)
            && MeasuresAfter(e.after, c, Micros(d.at), Micros(now), PartitionOf(evidence), events)
  {
    EvidenceIsCompared(c, p, d, now, events, evidence);
    CompareSides(c, p.id, d, Micros(now), PartitionOf(evidence), events);
    BeforeMeasured(c, d, PartitionOf(evidence), events);
    AfterMeasured(c, d, Micros(now), PartitionOf(evidence), events);
  }

  /** Without evidence nothing is measured or judged. */
  lemma NoEvidence(c: Policy, p: Proposal, d: Delivery, now: Instant, events: seq<Event>)
    requires ValidPolicy(c) && Evaluate(c, p, d, now, events).Ok?
    ensures var e := Evaluate(c, p, d, now, events).value;
            || (exists x :: IsEvidenceOf(p, events, x))
            || (e.outcome == Inconclusive && e.reasons == [EvidenceUnavailable]
                && e.before.eventCount == 0 && e.after.eventCount == 0)
  {
    EvidenceMembers(p, events);
    var found := Filter(events, IsEvidence(p));
    if found != [] { assert IsEvidenceOf(p, events, found[0]); }
  }

  /**
   * The single read reaches back to the start of the window before the delivery, and as far
   * as the store keeps events, counted from now and from the delivery; whichever is earliest.
   */
  lemma ReadReachesBack(c: Policy, d: Delivery, now: int, e: Event)
    ensures Within(ReadStart(c, d, now), now)(e) <==>
              && At(e) <= now
              && (|| Micros(d.at) - At(e) <= c.windowDays * 86400000000
                  || Micros(d.at) - At(e) <= c.retentionDays * 86400000000
                  || now - At(e) <= c.retentionDays * 86400000000)
  {
  }

  // ---- the verdict ----

  function FailureRate(m: Metrics): real
    requires m.eventCount > 0
  {
    m.failedCount as real / m.eventCount as real
  }

  /** More failures by the ratio, or slower by the ratio; any duration is slower than none at all. */
  predicate Worse(c: Policy, before: Metrics, after: Metrics)
    requires before.eventCount > 0 && after.eventCount > 0 && before.duration.Some? && after.duration.Some?
  {
    var x, y := before.duration.value as real, after.duration.value as real;
    || FailureRate(after) >= FailureRate(before) + c.regression
    || (if x == 0.0 then y > 0.0 else y >= (1.0 + c.regression) * x)
  }

  /** Faster by the ratio than a positive duration. */
  predicate Faster(c: Policy, before: Metrics, after: Metrics)
    requires before.duration.Some? && after.duration.Some?
  {
    var x, y := before.duration.value as real, after.duration.value as real;
    x > 0.0 && y <= (1.0 - c.improvement) * x
  }

  lemma DataIsMeasured(c: Policy, m: Metrics)
    requires ValidPolicy(c) && ValidMetrics(m) && (m.duration.Some? <==> m.pointCount > 0)
    requires m.eventCount >= c.minEvents && m.pointCount >= c.minPoints
    ensures m.eventCount > 0 && m.duration.Some? && m.failureRate == Some(FailureRate(m))
  {
  }

  lemma JudgeMeaning(c: Policy, before: Metrics, after: Metrics)
    requires before.eventCount > 0 && after.eventCount > 0 && before.duration.Some? && after.duration.Some?
    requires before.failureRate == Some(FailureRate(before)) && after.failureRate == Some(FailureRate(after))
    ensures Judge(c, before, after).0 == Regressed <==> Worse(c, before, after)
    ensures Judge(c, before, after).0 == Improved <==> !Worse(c, before, after) && Faster(c, before, after)
  {
  }

  /** Enough events and durations on both sides. */
  predicate Sufficient(c: Policy, e: Evaluation) {
    && e.before.eventCount >= c.minEvents && e.before.pointCount >= c.minPoints
    && e.after.eventCount >= c.minEvents && e.after.pointCount >= c.minPoints
  }

  lemma ConcludeMeaning(c: Policy, id: string, now: int, before: Metrics, after: Metrics)
    requires ValidPolicy(c) && ValidMetrics(before) && ValidMetrics(after)
    requires (before.duration.Some? <==> before.pointCount > 0) && (after.duration.Some? <==> after.pointCount > 0)
    ensures VerdictOn(c, Conclude(c, id, now, before, after)) && AsksForReview(Conclude(c, id, now, before, after))
  {
    if InsufficientReasons(c, before, after) == [] {
      DataIsMeasured(c, before);
      DataIsMeasured(c, after);
      JudgeMeaning(c, before, after);
    }
  }

  /** A human is asked to look at a regression, and at nothing else. */
  predicate AsksForReview(e: Evaluation) {
    e.recommendation == if e.outcome != Regressed then None
                        else Some("Human review recommended for proposal '" + e.proposalId
                                  + "' because observed usage regressed.")
  }

  /** The outcome is what the metrics say. */
  predicate VerdictOn(c: Policy, e: Evaluation) {
    if !Sufficient(c, e) then e.outcome == Inconclusive
    else
      && e.before.eventCount > 0 && e.after.eventCount > 0 && e.before.duration.Some? && e.after.duration.Some?
      && (e.outcome == Regressed <==> Worse(c, e.before, e.after))
      && (e.outcome == Improved <==> !Worse(c, e.before, e.after) && Faster(c, e.before, e.after))
  }

  /** Every evaluation's outcome is what its metrics say. */
  lemma VerdictExactly(c: Policy, p: Proposal, d: Delivery, now: Instant, events: seq<Event>)
    requires ValidPolicy(c) && Evaluate(c, p, d, now, events).Ok?
    ensures VerdictOn(c, Evaluate(c, p, d, now, events).value) && AsksForReview(Evaluate(c, p, d, now, events).value)
  {
    var evidence := Filter(events, IsEvidence(p));
    if evidence != [] {
      var part := PartitionOf(evidence[0]);
      ConcludeMeaning(c, p.id, Micros(now), MetricsOf(c, EventsBefore(c, d, part, events), BeforeStart(c, d), Micros(d.at)),
                      MetricsOf(c, EventsAfter(d, Micros(now), part, events), Micros(d.at), Micros(now)));
    }
  }

  // ---- the reasons ----

  /** What is missing is named, side by side; and nothing else is. */
  lemma MissingDataNamed(c: Policy, before: Metrics, after: Metrics, r: Reason)
    ensures r in InsufficientReasons(c, before, after) <==>
              || (r == TooFewEvents(Before, before.eventCount, c.minEvents) && before.eventCount < c.minEvents)
              || (r == TooFewDurations(Before, before.pointCount, c.minPoints) && before.pointCount < c.minPoints)
              || (r == TooFewEvents(After, after.eventCount, c.minEvents) && after.eventCount < c.minEvents)
              || (r == TooFewDurations(After, after.pointCount, c.minPoints) && after.pointCount < c.minPoints)
  {
  }

  /** The reasons say which data is missing, or else what was observed and that it does not matter. */
  lemma ReasonsExactly(c: Policy, id: string, now: int, before: Metrics, after: Metrics, r: Reason)
    requires ValidPolicy(c) && ValidMetrics(before) && ValidMetrics(after)
    requires (before.duration.Some? <==> before.pointCount > 0) && (after.duration.Some? <==> after.pointCount > 0)
    ensures var e := Conclude(c, id, now, before, after);
            if !Sufficient(c, e) then e.reasons == InsufficientReasons(c, before, after)
            else
              && before.eventCount > 0 && after.eventCount > 0
              && (r in e.reasons <==>
                    || (r.DurationsWere? && Some(r.before) == before.duration && Some(r.after) == after.duration
                        && r.ratio == if r.before > 0 then Ratio(r.after as real / r.before as real)
                                      else if r.after > 0 then Infinite else Undefined)
                    || r == FailureRatesWere(FailureRate(before), FailureRate(after))
                    || (r == NoSignificantChange && e.outcome == Inconclusive))
  {
    if InsufficientReasons(c, before, after) == [] {
      DataIsMeasured(c, before);
      DataIsMeasured(c, after);
    }
  }

  // ---- successes that become failures ----

  /** y is x, or a success after the delivery without a duration that became a failure. */
  function Fails(at: int): (Event, Event) -> bool {
    (x: Event, y: Event) =>
      x == y || (x.status == Succeeded && x.durationMs.None? && At(x) >= at && y == x.(status := Failed))
  }

  lemma {:induction false} FailuresGrow(a: seq<Event>, b: seq<Event>, at: int)
    requires Related(a, b, Fails(at))
    ensures |Filter(a, HasFailed)| <= |Filter(b, HasFailed)|
    ensures Filter(a, HasTiming) == Filter(b, HasTiming)
  {
    if a != [] {
      forall i | 0 <= i < |a| - 1 ensures Fails(at)(a[1..][i], b[1..][i]) { assert Fails(at)(a[i + 1], b[i + 1]); }
      FailuresGrow(a[1..], b[1..], at);
      assert Fails(at)(a[0], b[0]);
    }
  }

  /** The same usage with at least as many failures. */
  predicate FailsMore(m: Metrics, n: Metrics) {
    && m.eventCount == n.eventCount && m.pointCount == n.pointCount && m.duration == n.duration
    && m.failedCount <= n.failedCount
  }

  lemma MetricsFailMore(c: Policy, a: seq<Event>, b: seq<Event>, start: int, end: int, at: int)
    requires ValidPolicy(c) && start <= end && Related(a, b, Fails(at))
    ensures FailsMore(MetricsOf(c, a, start, end), MetricsOf(c, b, start, end))
  {
    FailuresGrow(a, b, at);
    MetricsMeasure(c, a, start, end);
    MetricsMeasure(c, b, start, end);
  }

  lemma RateGrows(m: Metrics, n: Metrics)
    requires FailsMore(m, n) && m.eventCount > 0
    ensures FailureRate(m) <= FailureRate(n)
  {
    var x, y, z := m.failedCount as real, n.failedCount as real, m.eventCount as real;
    assert x <= y && z > 0.0;
    assert x / z <= y / z;
  }

  lemma VerdictFallsWithFailures(c: Policy, x: Evaluation, y: Evaluation)
    requires VerdictOn(c, x) && VerdictOn(c, y) && x.before == y.before && FailsMore(x.after, y.after)
    ensures Standing(y.outcome) <= Standing(x.outcome)
  {
    if Sufficient(c, x) { RateGrows(x.after, y.after); }
  }

  lemma EarlierKept(a: seq<Event>, b: seq<Event>, at: int)
    requires Related(a, b, Fails(at)) && forall e | e in a :: At(e) < at
    ensures a == b
  {
    forall i | 0 <= i < |a| ensures a[i] == b[i] { assert Fails(at)(a[i], b[i]) && a[i] in a; }
  }

  lemma SidesFail(c: Policy, d: Delivery, now: int, p: Partition, a: seq<Event>, b: seq<Event>)
    requires Related(a, b, Fails(Micros(d.at)))
    ensures EventsBefore(c, d, p, a) == EventsBefore(c, d, p, b)
    ensures Related(EventsAfter(d, now, p, a), EventsAfter(d, now, p, b), Fails(Micros(d.at)))
  {
    var at := Micros(d.at);
    FilterRelated(a, b, Fails(at), InPartition(p));
    var x, y := Filter(a, InPartition(p)), Filter(b, InPartition(p));
    FilterRelated(x, y, Fails(at), EarlierThan(BeforeStart(c, d), at));
    EarlierKept(EventsBefore(c, d, p, a), EventsBefore(c, d, p, b), at);
    FilterRelated(x, y, Fails(at), From(at, now));
  }

  lemma CompareFalls(c: Policy, id: string, d: Delivery, now: int, p: Partition, a: seq<Event>, b: seq<Event>)
    requires ValidPolicy(c) && Micros(d.at) <= now && Related(a, b, Fails(Micros(d.at)))
    ensures Standing(Compare(c, id, d, now, p, b).outcome) <= Standing(Compare(c, id, d, now, p, a).outcome)
  {
    var at := Micros(d.at);
    SidesFail(c, d, now, p, a, b);
    MetricsFailMore(c, EventsAfter(d, now, p, a), EventsAfter(d, now, p, b), at, now, at);
    var before := MetricsOf(c, EventsBefore(c, d, p, a), BeforeStart(c, d), at);
    ConcludeMeaning(c, id, now, before, MetricsOf(c, EventsAfter(d, now, p, a), at, now));
    ConcludeMeaning(c, id, now, before, MetricsOf(c, EventsAfter(d, now, p, b), at, now));
    VerdictFallsWithFailures(c, Compare(c, id, d, now, p, a), Compare(c, id, d, now, p, b));
  }

  lemma EvidenceFails(p: Proposal, a: seq<Event>, b: seq<Event>, at: int)
    requires Related(a, b, Fails(at))
    ensures var x, y := Filter(a, IsEvidence(p)), Filter(b, IsEvidence(p));
            && |x| == |y| && (OnePartition(x) <==> OnePartition(y))
            && (x != [] ==> PartitionOf(x[0]) == PartitionOf(y[0]))
  {
    FilterRelated(a, b, Fails(at), IsEvidence(p));
    var x, y := Filter(a, IsEvidence(p)), Filter(b, IsEvidence(p));
    forall i | 0 <= i < |x| ensures PartitionOf(x[i]) == PartitionOf(y[i]) { assert Fails(at)(x[i], y[i]); }
  }

  /**
   * Turning untimed successes after the delivery into failures never moves the outcome up
   * in the order regressed, inconclusive, improved; nor does it change an error.
   */
  lemma FailuresNeverHelp(c: Policy, p: Proposal, d: Delivery, now: Instant, a: seq<Event>, b: seq<Event>)
    requires ValidPolicy(c) && Related(a, b, Fails(Micros(d.at)))
    ensures var x, y := Evaluate(c, p, d, now, a), Evaluate(c, p, d, now, b);
            if x.Ok? then y.Ok? && Standing(y.value.outcome) <= Standing(x.value.outcome) else y == x
  {
    var at := Micros(d.at);
    var x, y := Filter(a, IsEvidence(p)), Filter(b, IsEvidence(p));
    EvidenceFails(p, a, b, at);
    if x != [] && at <= Micros(now) {
      CompareFalls(c, p.id, d, Micros(now), PartitionOf(x[0]), a, b);
    }
  }
}
