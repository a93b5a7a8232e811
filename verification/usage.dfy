/** Semantic usage events. */
module Usage {
  import opened Prelude
  import opened Iso
  import opened Sequences

  datatype Outcome = Succeeded | Failed

  /** One executed semantic query, without its text or its values. */
  datatype Event = Event(
    eventId: string,
    occurredAt: Instant,
    environment: string,
    consumerClass: string,
    modelHashes: seq<string>,
    metricIds: seq<string>,
    dimensionIds: seq<string>,
    filterShape: seq<string>,
    fingerprint: string,
    durationMs: Option<nat>,
    rowsReturned: Option<nat>,
    bytesScanned: Option<nat>,
    status: Outcome)

  function At(e: Event): int { Micros(e.occurredAt) }

  function IdOf(e: Event): string { e.eventId }

  predicate HasDuration(e: Event) { e.durationMs.Some? }

  function Millis(e: Event): nat { if e.durationMs.Some? then e.durationMs.value else 0 }

  /** The durations of the events that have one. */
  function Durations(events: seq<Event>): seq<nat> { Map(Filter(events, HasDuration), Millis) }

  predicate HasId(events: seq<Event>, id: string) { exists i | 0 <= i < |events| :: events[i].eventId == id }

  /** The first event appended under each id, in order of appending. */
  function FirstOfEach(events: seq<Event>): seq<Event> {
    if events == [] then []
    else
      var n := |events| - 1;
      var kept := FirstOfEach(events[..n]);
      if HasId(kept, events[n].eventId) then kept else kept + [events[n]]
  }

  /** Event i is the first one with its id. */
  predicate IsFirst(events: seq<Event>, i: nat) {
    i < |events| && !HasId(events[..i], events[i].eventId)
  }

  lemma HasIdSnoc(events: seq<Event>, e: Event, id: string)
    ensures HasId(events + [e], id) <==> HasId(events, id) || e.eventId == id
  {
    var s := events + [e];
    if HasId(events, id) {
      var i :| 0 <= i < |events| && events[i].eventId == id;
      assert s[i].eventId == id;
    }
    if e.eventId == id { assert s[|events|].eventId == id; }
    if HasId(s, id) {
      var i :| 0 <= i < |s| && s[i].eventId == id;
      if i < |events| { assert events[i].eventId == id; }
    }
  }

  lemma {:induction false} FirstOfEachIds(events: seq<Event>, id: string)
    ensures HasId(FirstOfEach(events), id) <==> HasId(events, id)
    decreases |events|
  {
    if events != [] {
      var n := |events| - 1;
      FirstOfEachIds(events[..n], id);
      assert events == events[..n] + [events[n]];
      HasIdSnoc(events[..n], events[n], id);
      HasIdSnoc(FirstOfEach(events[..n]), events[n], id);
    }
  }

  predicate DistinctIds(events: seq<Event>) {
    forall i, j | 0 <= i < j < |events| :: events[i].eventId != events[j].eventId
  }

  lemma {:induction false} FirstOfEachDistinct(events: seq<Event>)
    ensures DistinctIds(FirstOfEach(events))
    decreases |events|
  {
    if events != [] { FirstOfEachDistinct(events[..|events| - 1]); }
  }

  /** FirstOfEach holds exactly the events that were the first of their id. */
  lemma {:induction false} FirstOfEachMembers(events: seq<Event>, e: Event)
    ensures e in FirstOfEach(events) <==> exists i: nat :: IsFirst(events, i) && events[i] == e
    decreases |events|
  {
    if events != [] {
      var n := |events| - 1;
      var before := events[..n];
      FirstOfEachMembers(before, e);
      FirstOfEachIds(before, events[n].eventId);
      if e in FirstOfEach(before) {
        var i: nat :| IsFirst(before, i) && before[i] == e;
        assert before[..i] == events[..i];
        assert IsFirst(events, i) && events[i] == e;
      } else if e in FirstOfEach(events) {
        assert IsFirst(events, n) && events[n] == e;
      }
      if i: nat :| IsFirst(events, i) && events[i] == e {
        if i < n {
          assert before[..i] == events[..i];
          assert IsFirst(before, i) && before[i] == e;
        }
      }
    }
  }

  // ---- ranges of time ----

  predicate Inside(start: int, end: int, e: Event) { start <= At(e) <= end }

  function Within(start: int, end: int): Event -> bool { e => Inside(start, end, e) }

  function InWindow(events: seq<Event>, start: int, end: int): seq<Event> { Filter(events, Within(start, end)) }

  lemma {:induction false} FilterDistinct(s: seq<Event>, keep: Event -> bool)
    requires DistinctIds(s)
    ensures DistinctIds(Filter(s, keep))
  {
    if s != [] {
      var t := s[1..];
      forall i, j | 0 <= i < j < |t| ensures t[i].eventId != t[j].eventId { assert s[i + 1].eventId != s[j + 1].eventId; }
      FilterDistinct(t, keep);
      forall x | x in Filter(t, keep) ensures x.eventId != s[0].eventId {
        assert x in t;
        var i :| 0 <= i < |t| && t[i] == x;
        assert s[i + 1] == x;
      }
    }
  }

  lemma DurationsForgetOrder(a: seq<Event>, b: seq<Event>)
    requires multiset(a) == multiset(b)
    ensures multiset(Durations(a)) == multiset(Durations(b)) && |Durations(a)| == |Durations(b)|
  {
    FilterForgetsOrder(a, b, HasDuration);
    MapForgetsOrder(Filter(a, HasDuration), Filter(b, HasDuration), Millis);
    SameLength(Durations(a), Durations(b));
  }
}
