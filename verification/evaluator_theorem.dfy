/** Evaluations depend only on the bounded read, and slower queries never look better. */
module EvaluatorTheorem {
  import opened Prelude
  import opened Sequences
  import opened Percentile
  import opened Iso
  import opened Usage
  import opened Store
  import opened Evaluator

  // ---- errors, and evidence that cannot be found ----

  predicate IsEvidenceOf(p: Proposal, events: seq<Event>, e: Event) { e in events && e.eventId in p.evidence }

  /** There is no evaluation exactly for another proposal's delivery, a future one, or evidence of several partitions. */
  lemma EvaluationErrors(c: Policy, p: Proposal, d: Delivery, now: Instant, events: seq<Event>)
    requires ValidPolicy(c)
    ensures Evaluate(c, p, d, now, events).Err? <==>
              d.proposalId != p.id || Micros(d.at) > Micros(now) || SeveralPartitionsIn(p, events)
    ensures Evaluate(c, p, d, now, events) == Err(ProposalMismatch) <==> d.proposalId != p.id
    ensures Evaluate(c, p, d, now, events) == Err(FutureDelivery) <==>
              d.proposalId == p.id && Micros(d.at) > Micros(now)
  {
    SeveralExactly(p, events);
  }

  /** The evidence spans more than one partition. */
  ghost predicate SeveralPartitionsIn(p: Proposal, events: seq<Event>) {
    exists e, f :: IsEvidenceOf(p, events, e) && IsEvidenceOf(p, events, f) && PartitionOf(e) != PartitionOf(f)
  }

  lemma EvidenceMembers(p: Proposal, events: seq<Event>)
    ensures forall e :: e in Filter(events, IsEvidence(p)) <==> IsEvidenceOf(p, events, e)
  {
  }

  lemma SeveralExactly(p: Proposal, events: seq<Event>)
    ensures OnePartition(Filter(events, IsEvidence(p))) <==> !SeveralPartitionsIn(p, events)
  {
    var evidence := Filter(events, IsEvidence(p));
    EvidenceMembers(p, events);
    if !OnePartition(evidence) {
      var i :| 0 <= i < |evidence| && PartitionOf(evidence[i]) != PartitionOf(evidence[0]);
      assert evidence[i] in evidence && evidence[0] in evidence;
    } else {
      forall e, f | IsEvidenceOf(p, events, e) && IsEvidenceOf(p, events, f) ensures PartitionOf(e) == PartitionOf(f) {
        InOnePartition(evidence, e);
        InOnePartition(evidence, f);
      }
    }
  }

  lemma InOnePartition(events: seq<Event>, e: Event)
    requires OnePartition(events) && e in events
    ensures PartitionOf(e) == PartitionOf(events[0])
  {
    var i :| 0 <= i < |events| && events[i] == e;
  }

  /** Any verdict but inconclusive rests on evidence that was read and on enough data on both sides. */
  lemma VerdictsHaveData(c: Policy, p: Proposal, d: Delivery, now: Instant, events: seq<Event>)
    requires ValidPolicy(c) && Evaluate(c, p, d, now, events).Ok?
    requires Evaluate(c, p, d, now, events).value.outcome != Inconclusive
    ensures HasData(c, Evaluate(c, p, d, now, events).value) && exists e :: IsEvidenceOf(p, events, e)
  {
    var evidence := Filter(events, IsEvidence(p));
    EvidenceMembers(p, events);
    assert evidence[0] in evidence;
  }

  // ---- the order of the events does not matter ----

  lemma MetricsForgetOrder(c: Policy, a: seq<Event>, b: seq<Event>, start: int, end: int)
    requires ValidPolicy(c) && start <= end && multiset(a) == multiset(b)
    ensures MetricsOf(c, a, start, end) == MetricsOf(c, b, start, end)
  {
    SameLength(a, b);
    FilterForgetsOrder(a, b, HasSucceeded);
    FilterForgetsOrder(a, b, HasFailed);
    var x, y := Filter(a, HasSucceeded), Filter(b, HasSucceeded);
    SameLength(x, y);
    SameLength(Filter(a, HasFailed), Filter(b, HasFailed));
    DurationsForgetOrder(x, y);
    if Durations(x) != [] { NearestRankForgetsOrder(Durations(x), Durations(y), c.percentile); }
  }

  lemma CompareForgetsOrder(c: Policy, id: string, d: Delivery, now: int, p: Partition, a: seq<Event>, b: seq<Event>)
    requires ValidPolicy(c) && Micros(d.at) <= now && multiset(a) == multiset(b)
    ensures Compare(c, id, d, now, p, a) == Compare(c, id, d, now, p, b)
  {
    FilterForgetsOrder(a, b, InPartition(p));
    var x, y := Filter(a, InPartition(p)), Filter(b, InPartition(p));
    FilterForgetsOrder(x, y, EarlierThan(BeforeStart(c, d), Micros(d.at)));
    FilterForgetsOrder(x, y, From(Micros(d.at), now));
    MetricsForgetOrder(c, EventsBefore(c, d, p, a), EventsBefore(c, d, p, b), BeforeStart(c, d), Micros(d.at));
    MetricsForgetOrder(c, EventsAfter(d, now, p, a), EventsAfter(d, now, p, b), Micros(d.at), now);
  }

  lemma MembersOf<T(!new)>(a: seq<T>, b: seq<T>)
    requires multiset(a) == multiset(b)
    ensures forall x :: x in a <==> x in b
  {
    forall x ensures x in a <==> x in b { assert x in multiset(a) <==> x in multiset(b); }
  }

  lemma PartitionForgetsOrder(x: seq<Event>, y: seq<Event>)
    requires multiset(x) == multiset(y) && x != []
    ensures y != [] && (OnePartition(x) <==> OnePartition(y))
    ensures OnePartition(x) ==> PartitionOf(x[0]) == PartitionOf(y[0])
  {
    MembersOf(x, y);
    assert x[0] in y;
    assert y[0] in x;
    forall i | 0 <= i < |x| ensures x[i] in y { assert x[i] in x; }
    forall i | 0 <= i < |y| ensures y[i] in x { assert y[i] in y; }
  }

  /** The evaluation is the same for every order in which the events are read. */
  lemma EvaluationForgetsOrder(c: Policy, p: Proposal, d: Delivery, now: Instant, a: seq<Event>, b: seq<Event>)
    requires ValidPolicy(c) && multiset(a) == multiset(b)
    ensures Evaluate(c, p, d, now, a) == Evaluate(c, p, d, now, b)
  {
    FilterForgetsOrder(a, b, IsEvidence(p));
    var x, y := Filter(a, IsEvidence(p)), Filter(b, IsEvidence(p));
    SameLength(x, y);
    if x != [] && Micros(d.at) <= Micros(now) {
      PartitionForgetsOrder(x, y);
      CompareForgetsOrder(c, p.id, d, Micros(now), PartitionOf(x[0]), a, b);
    }
  }

  // ---- the store's answer ----

  /**
   * The evaluation of what the store returns is that of the part of its history that lies
   * in the range read, and, when that part holds all the proposal's evidence, that of the
   * whole history.
   */
  lemma StoreReadIsEnough(c: Policy, p: Proposal, d: Delivery, now: Instant, since: Instant, read: seq<Event>,
                          history: seq<Event>)
    requires ValidPolicy(c) && DistinctIds(history) && Micros(since) == ReadStart(c, d, Micros(now))
    requires Answers(read, history, Range(None, None, Some(since), Some(now), None))
    ensures Evaluate(c, p, d, now, read) == Evaluate(c, p, d, now, InWindow(history, Micros(since), Micros(now)))
    ensures (forall e | e in history && e.eventId in p.evidence :: Inside(Micros(since), Micros(now), e)) ==>
              Evaluate(c, p, d, now, read) == Evaluate(c, p, d, now, history)
  {
    AnswerIsFiltered(read, history, now, since);
    EvaluationForgetsOrder(c, p, d, now, read, InWindow(history, Micros(since), Micros(now)));
    if forall e | e in history && e.eventId in p.evidence :: Inside(Micros(since), Micros(now), e) {
      FilterTwice(history, Within(Micros(since), Micros(now)), IsEvidence(p));
      var evidence := Filter(history, IsEvidence(p));
      if evidence != [] && Micros(d.at) <= Micros(now) {
        BoundedReadIsEnough(c, p.id, d, Micros(now), PartitionOf(evidence[0]), history);
      }
    }
  }

  // ---- raising durations ----

  /** y is x, or a succeeded event after the delivery whose measured duration is longer. */
  predicate Raises(x: Event, y: Event, at: int) {
    x == y || (x.status == Succeeded && At(x) >= at && x.durationMs.Some? && y.durationMs.Some?
               && x.durationMs.value <= y.durationMs.value && y == x.(durationMs := y.durationMs))
  }

  predicate Raised(a: seq<Event>, b: seq<Event>, at: int) {
    |a| == |b| && forall i | 0 <= i < |a| :: Raises(a[i], b[i], at)
  }

  /** The test does not look at durations. */
  ghost predicate IgnoresDuration(keep: Event -> bool, at: int) {
    forall x, y | Raises(x, y, at) :: keep(x) == keep(y)
  }

  lemma FilterRaised(a: seq<Event>, b: seq<Event>, at: int, keep: Event -> bool)
    requires Raised(a, b, at) && IgnoresDuration(keep, at)
    ensures Raised(Filter(a, keep), Filter(b, keep), at)
  {
    FilterRelated(a, b, (x: Event, y: Event) => Raises(x, y, at), keep);
  }

  lemma DurationsRaised(a: seq<Event>, b: seq<Event>, at: int)
    requires Raised(a, b, at)
    ensures Pointwise(Durations(a), Durations(b))
  {
    FilterRaised(a, b, at, HasDuration);
    var x, y := Filter(a, HasDuration), Filter(b, HasDuration);
    forall i | 0 <= i < |x| ensures Durations(a)[i] <= Durations(b)[i] { assert Raises(x[i], y[i], at); }
  }

  /** Metrics that differ at most in a larger duration. */
  predicate Slower(m: Metrics, n: Metrics) {
    && n == m.(duration := n.duration)
    && (m.duration.Some? <==> n.duration.Some?)
    && (m.duration.Some? ==> m.duration.value <= n.duration.value)
  }

  lemma MetricsRaised(c: Policy, a: seq<Event>, b: seq<Event>, start: int, end: int, at: int)
    requires ValidPolicy(c) && start <= end && Raised(a, b, at)
    ensures Slower(MetricsOf(c, a, start, end), MetricsOf(c, b, start, end))
  {
    FilterRaised(a, b, at, HasSucceeded);
    FilterRaised(a, b, at, HasFailed);
    var x, y := Filter(a, HasSucceeded), Filter(b, HasSucceeded);
    DurationsRaised(x, y, at);
    if Durations(x) != [] { NearestRankMonotone(Durations(x), Durations(y), c.percentile); }
  }

  lemma EarlierUnchanged(a: seq<Event>, b: seq<Event>, at: int)
    requires Raised(a, b, at) && forall e | e in a :: At(e) < at
    ensures a == b
  {
    forall i | 0 <= i < |a| ensures a[i] == b[i] { assert Raises(a[i], b[i], at) && a[i] in a; }
  }

  function Standing(v: Verdict): nat { if v == Regressed then 0 else if v == Inconclusive then 1 else 2 }

  lemma JudgeMonotone(c: Policy, before: Metrics, after: Metrics, slower: Metrics)
    requires Slower(after, slower)
    requires before.duration.Some? && after.duration.Some? && before.failureRate.Some? && after.failureRate.Some?
    ensures Standing(Judge(c, before, slower).0) <= Standing(Judge(c, before, after).0)
  {
  }

  lemma ConcludeMonotone(c: Policy, id: string, now: int, before: Metrics, after: Metrics, slower: Metrics)
    requires ValidPolicy(c) && ValidMetrics(before) && ValidMetrics(after) && Slower(after, slower)
    requires (before.duration.Some? <==> before.pointCount > 0) && (after.duration.Some? <==> after.pointCount > 0)
    ensures Standing(Conclude(c, id, now, before, slower).outcome) <= Standing(Conclude(c, id, now, before, after).outcome)
  {
    if InsufficientReasons(c, before, after) == [] { JudgeMonotone(c, before, after, slower); }
  }

  /** The events before the delivery are the same; those after it are raised. */
  lemma SidesRaised(c: Policy, d: Delivery, now: int, p: Partition, a: seq<Event>, b: seq<Event>)
    requires Raised(a, b, Micros(d.at))
    ensures EventsBefore(c, d, p, a) == EventsBefore(c, d, p, b)
    ensures Raised(EventsAfter(d, now, p, a), EventsAfter(d, now, p, b), Micros(d.at))
  {
    var at := Micros(d.at);
    var x, y := Filter(a, InPartition(p)), Filter(b, InPartition(p));
    FilterRaised(a, b, at, InPartition(p));
    FilterRaised(x, y, at, EarlierThan(BeforeStart(c, d), at));
    EarlierUnchanged(EventsBefore(c, d, p, a), EventsBefore(c, d, p, b), at);
    FilterRaised(x, y, at, From(at, now));
  }

  lemma CompareMonotone(c: Policy, id: string, d: Delivery, now: int, p: Partition, a: seq<Event>, b: seq<Event>)
    requires ValidPolicy(c) && Micros(d.at) <= now && Raised(a, b, Micros(d.at))
    ensures Standing(Compare(c, id, d, now, p, b).outcome) <= Standing(Compare(c, id, d, now, p, a).outcome)
    ensures Compare(c, id, d, now, p, b).before == Compare(c, id, d, now, p, a).before
  {
    var at := Micros(d.at);
    SidesRaised(c, d, now, p, a, b);
    MetricsRaised(c, EventsAfter(d, now, p, a), EventsAfter(d, now, p, b), at, now, at);
    var before := MetricsOf(c, EventsBefore(c, d, p, a), BeforeStart(c, d), at);
    var after := MetricsOf(c, EventsAfter(d, now, p, a), at, now);
    ConcludeMonotone(c, id, now, before, after, MetricsOf(c, EventsAfter(d, now, p, b), at, now));
  }

  lemma EvidenceRaised(p: Proposal, a: seq<Event>, b: seq<Event>, at: int)
    requires Raised(a, b, at)
    ensures var x, y := Filter(a, IsEvidence(p)), Filter(b, IsEvidence(p));
            && |x| == |y| && (OnePartition(x) <==> OnePartition(y))
            && (x != [] ==> PartitionOf(x[0]) == PartitionOf(y[0]))
  {
    FilterRaised(a, b, at, IsEvidence(p));
    var x, y := Filter(a, IsEvidence(p)), Filter(b, IsEvidence(p));
    forall i | 0 <= i < |x| ensures PartitionOf(x[i]) == PartitionOf(y[i]) { assert Raises(x[i], y[i], at); }
  }

  /**
   * Raising the durations of succeeded events after the delivery never moves the outcome
   * up in the order regressed, inconclusive, improved; nor does it change an error.
   */
  lemma OutcomeMonotone(c: Policy, p: Proposal, d: Delivery, now: Instant, a: seq<Event>, b: seq<Event>)
    requires ValidPolicy(c) && Raised(a, b, Micros(d.at))
    ensures var x, y := Evaluate(c, p, d, now, a), Evaluate(c, p, d, now, b);
            if x.Ok? then y.Ok? && Standing(y.value.outcome) <= Standing(x.value.outcome) else y == x
  {
    var at := Micros(d.at);
    var x, y := Filter(a, IsEvidence(p)), Filter(b, IsEvidence(p));
    EvidenceRaised(p, a, b, at);
    if x != [] && at <= Micros(now) {
      CompareMonotone(c, p.id, d, Micros(now), PartitionOf(x[0]), a, b);
    }
  }

  // ---- unchanged usage ----

  /**
   * Usage that did not change is inconclusive, a zero baseline included, unless a
   * threshold of zero asks for a verdict on no change at all.
   */
  lemma UnchangedUsage(c: Policy, m: Metrics, n: Metrics)
    requires ValidPolicy(c) && m.duration.Some? && m.failureRate.Some?
    requires n.duration == m.duration && n.failureRate == m.failureRate
    ensures Judge(c, m, n).0 == Regressed <==> c.regression == 0.0
    ensures Judge(c, m, n).0 == Improved <==> c.regression > 0.0 && c.improvement == 0.0 && m.duration.value > 0
  {
    var x := m.duration.value as real;
    assert x * (1.0 + c.regression) == x + x * c.regression;
    assert x * (1.0 - c.improvement) == x - x * c.improvement;
    if x > 0.0 && c.regression > 0.0 { assert x * c.regression > 0.0; }
    if x > 0.0 && c.improvement > 0.0 { assert x * c.improvement > 0.0; }
  }
}
