/** The append-only usage store: rows of text, read back by range, newest first. */
module Store {
  import opened Prelude
  import opened Ordering
  import opened Iso
  import opened Usage
  import opened Sequences

  /** A stored row; times are stored as text. */
  datatype StoredRow = StoredRow(
    eventId: string,
    occurredAt: string,
    environment: string,
    consumerClass: string,
    modelHashes: seq<string>,
    metricIds: seq<string>,
    dimensionIds: seq<string>,
    filterShape: seq<string>,
    fingerprint: string,
    durationMs: Option<nat>,
    rowsReturned: Option<nat>,
    bytesScanned: Option<nat>,
    status: Outcome)

  datatype StoreError = BlankPartition | BadLimit | BadRow

  datatype Range = Range(environment: Option<string>, consumerClass: Option<string>,
                         since: Option<Instant>, until: Option<Instant>, limit: Option<int>)

  function StorageRow(e: Event): StoredRow {
    StoredRow(e.eventId, IsoFormat(e.occurredAt), e.environment, e.consumerClass, e.modelHashes, e.metricIds,
              e.dimensionIds, e.filterShape, e.fingerprint, e.durationMs, e.rowsReturned, e.bytesScanned, e.status)
  }

  function EventFromRow(r: StoredRow): Option<Event> {
    match ParseIso(r.occurredAt)
    case None => None
    case Some(at) =>
      Some(Event(r.eventId, at, r.environment, r.consumerClass, r.modelHashes, r.metricIds, r.dimensionIds,
                 r.filterShape, r.fingerprint, r.durationMs, r.rowsReturned, r.bytesScanned, r.status))
  }

  /** A stored event is read back unchanged, its time included. */
  lemma RowRoundTrip(e: Event)
    ensures EventFromRow(StorageRow(e)) == Some(e)
  {
    IsoRoundTrip(e.occurredAt);
  }

  // ---- the query the store builds ----

  datatype Clause = EnvironmentIs(value: string) | ConsumerIs(value: string) | SinceText(text: string) | UntilText(text: string)

  /** One WHERE clause of the query; times compare as text. */
  predicate Satisfies(r: StoredRow, c: Clause) {
    match c
    case EnvironmentIs(v) => r.environment == v
    case ConsumerIs(v) => r.consumerClass == v
    case SinceText(t) => StrLe(t, r.occurredAt)
    case UntilText(t) => StrLe(r.occurredAt, t)
  }

  function Select(rows: seq<StoredRow>, clauses: seq<Clause>): seq<StoredRow> {
    if rows == [] then []
    else (if forall c | c in clauses :: Satisfies(rows[0], c) then [rows[0]] else []) + Select(rows[1..], clauses)
  }

  /** ORDER BY occurred_at DESC, event_id DESC. */
  predicate RowBefore(a: StoredRow, b: StoredRow) {
    if a.occurredAt == b.occurredAt then StrLe(b.eventId, a.eventId) else StrLe(b.occurredAt, a.occurredAt)
  }

  function Take(rows: seq<StoredRow>, limit: Option<int>): seq<StoredRow>
    requires limit.Some? ==> limit.value > 0
  {
    if limit.Some? && limit.value < |rows| then rows[..limit.value] else rows
  }

  function Execute(rows: seq<StoredRow>, clauses: seq<Clause>, limit: Option<int>): seq<StoredRow>
    requires limit.Some? ==> limit.value > 0
  {
    Take(Sort(RowBefore, Select(rows, clauses)), limit)
  }

  function EventsFromRows(rows: seq<StoredRow>): Option<seq<Event>> {
    if rows == [] then Some([])
    else
      match (EventsFromRows(rows[..|rows| - 1]), EventFromRow(rows[|rows| - 1]))
      case (Some(es), Some(e)) => Some(es + [e])
      case _ => None
  }

  // ---- what a read promises ----

  predicate IsBlank(s: Option<string>) { s.Some? && Blank(s.value) }

  /** The event is in the partitions and inside the inclusive bounds, as instants. */
  predicate InRange(e: Event, q: Range) {
    && (q.environment.Some? ==> e.environment == q.environment.value)
    && (q.consumerClass.Some? ==> e.consumerClass == q.consumerClass.value)
    && (q.since.Some? ==> Micros(q.since.value) <= At(e))
    && (q.until.Some? ==> At(e) <= Micros(q.until.value))
  }

  /** Newer first; at the same instant, the greater id first. */
  predicate NewerFirst(a: Event, b: Event) {
    At(a) > At(b) || (At(a) == At(b) && a.eventId != b.eventId && StrLe(b.eventId, a.eventId))
  }

  /** The complete answer: every matching event once, newest first. */
  ghost predicate Answers(all: seq<Event>, events: seq<Event>, q: Range) {
    && (forall e :: e in all <==> e in events && InRange(e, q))
    && forall i, j | 0 <= i < j < |all| :: NewerFirst(all[i], all[j])
  }

  /** The answer with the limit applied: a prefix of the complete one. */
  ghost predicate Listed(r: seq<Event>, events: seq<Event>, q: Range) {
    exists all :: Answers(all, events, q) && r <= all
      && |r| == if q.limit.Some? && q.limit.value < |all| then q.limit.value else |all|
  }

  class SqliteUsageEventStore {
    var rows: seq<StoredRow>
    ghost var appended: seq<Event>

    /** The table holds one row per id: that of the first event appended under it. */
    ghost predicate Valid()
      reads this
    {
      rows == RowsOf(FirstOfEach(appended))
    }

    constructor ()
      ensures Valid() && appended == []
    {
      rows := [];
      appended := [];
    }

    /** INSERT OR IGNORE on the event id. */
    method Append(e: Event)
      requires Valid()
      modifies this
      ensures Valid() && appended == old(appended) + [e]
    {
      var row := StorageRow(e);
      KnownRows(FirstOfEach(appended), e.eventId);
      assert (appended + [e])[..|appended|] == appended;
      RowsAppend(FirstOfEach(appended), [e]);
      if !RowWithId(rows, row.eventId) { rows := rows + [row]; }
      appended := appended + [e];
    }

    /** Builds the clauses, runs the query and converts the rows. */
    method ListEvents(q: Range) returns (r: Result<seq<Event>, StoreError>)
      requires Valid()
      ensures r.Err? <==> IsBlank(q.environment) || IsBlank(q.consumerClass) || (q.limit.Some? && q.limit.value <= 0)
      ensures r == Err(BlankPartition) <==> IsBlank(q.environment) || IsBlank(q.consumerClass)
      ensures r.Ok? ==> Listed(r.value, FirstOfEach(appended), q)
    {
      if IsBlank(q.environment) || IsBlank(q.consumerClass) { return Err(BlankPartition); }
      if q.limit.Some? && q.limit.value <= 0 { return Err(BadLimit); }
      var clauses: seq<Clause> := [];
      if q.environment.Some? { clauses := clauses + [EnvironmentIs(q.environment.value)]; }
      if q.consumerClass.Some? { clauses := clauses + [ConsumerIs(q.consumerClass.value)]; }
      if q.since.Some? { clauses := clauses + [SinceText(IsoFormat(q.since.value))]; }
      if q.until.Some? { clauses := clauses + [UntilText(IsoFormat(q.until.value))]; }
      assert clauses == ClausesOf(q);
      var selected := Execute(rows, clauses, q.limit);
      ghost var events := FirstOfEach(appended);
      FirstOfEachDistinct(appended);
      QueryMeaning(events, q);
      r := Ok(EventsFromRows(selected).value);
    }
  }

  function RowsOf(events: seq<Event>): (r: seq<StoredRow>)
    ensures |r| == |events| && forall i | 0 <= i < |r| :: r[i] == StorageRow(events[i])
  {
    seq(|events|, i requires 0 <= i < |events| => StorageRow(events[i]))
  }

  /** The primary key lookup. */
  predicate RowWithId(rows: seq<StoredRow>, id: string) { exists i | 0 <= i < |rows| :: rows[i].eventId == id }

  lemma KnownRows(events: seq<Event>, id: string)
    ensures RowWithId(RowsOf(events), id) <==> HasId(events, id)
  {
    if HasId(events, id) {
      var i :| 0 <= i < |events| && events[i].eventId == id;
      assert RowsOf(events)[i].eventId == id;
    }
  }

  lemma RowsAppend(a: seq<Event>, b: seq<Event>)
    ensures RowsOf(a + b) == RowsOf(a) + RowsOf(b)
    ensures |b| == 1 ==> RowsOf(b) == [StorageRow(b[0])]
    ensures |a| == 1 ==> RowsOf(a) == [StorageRow(a[0])]
  {
  }

  function ClausesOf(q: Range): seq<Clause> {
    (if q.environment.Some? then [EnvironmentIs(q.environment.value)] else [])
    + (if q.consumerClass.Some? then [ConsumerIs(q.consumerClass.value)] else [])
    + (if q.since.Some? then [SinceText(IsoFormat(q.since.value))] else [])
    + (if q.until.Some? then [UntilText(IsoFormat(q.until.value))] else [])
  }

  // ---- text comparisons mean what they should ----

  /** Comparing texts selects by instants. */
  lemma ClausesMeanRange(e: Event, q: Range)
    ensures (forall c | c in ClausesOf(q) :: Satisfies(StorageRow(e), c)) <==> InRange(e, q)
  {
    var cs, row := ClausesOf(q), StorageRow(e);
    if q.since.Some? { TextOrderIsTimeOrder(q.since.value, e.occurredAt); }
    if q.until.Some? { TextOrderIsTimeOrder(e.occurredAt, q.until.value); }
    assert q.environment.Some? ==> EnvironmentIs(q.environment.value) in cs;
    assert q.consumerClass.Some? ==> ConsumerIs(q.consumerClass.value) in cs;
    assert q.since.Some? ==> SinceText(IsoFormat(q.since.value)) in cs;
    assert q.until.Some? ==> UntilText(IsoFormat(q.until.value)) in cs;
  }

  function Matching(events: seq<Event>, q: Range): (r: seq<Event>) {
    if events == [] then []
    else (if InRange(events[0], q) then [events[0]] else []) + Matching(events[1..], q)
  }

  lemma SelectCons(row: StoredRow, rows: seq<StoredRow>, clauses: seq<Clause>)
    ensures Select([row] + rows, clauses)
            == if forall c | c in clauses :: Satisfies(row, c) then [row] + Select(rows, clauses) else Select(rows, clauses)
  {
    assert ([row] + rows)[1..] == rows;
  }

  lemma {:induction false} SelectIsMatching(events: seq<Event>, q: Range)
    ensures Select(RowsOf(events), ClausesOf(q)) == RowsOf(Matching(events, q))
  {
    if events != [] {
      var head, tail := events[0], events[1..];
      assert events == [head] + tail;
      RowsAppend([head], tail);
      SelectCons(StorageRow(head), RowsOf(tail), ClausesOf(q));
      SelectIsMatching(tail, q);
      ClausesMeanRange(head, q);
      RowsAppend([head], Matching(tail, q));
    }
  }

  lemma {:induction false} MatchingMembers(events: seq<Event>, q: Range)
    ensures forall e :: e in Matching(events, q) <==> e in events && InRange(e, q)
    ensures DistinctIds(events) ==> DistinctIds(Matching(events, q))
  {
    if events != [] {
      MatchingMembers(events[1..], q);
      var r, rest := Matching(events, q), Matching(events[1..], q);
      assert events == [events[0]] + events[1..];
      if DistinctIds(events) {
        forall i, j | 0 <= i < j < |events[1..]| ensures events[1..][i].eventId != events[1..][j].eventId {
          assert events[i + 1].eventId != events[j + 1].eventId;
        }
        forall e | e in rest ensures e.eventId != events[0].eventId {
          var k :| 0 <= k < |events[1..]| && events[1..][k] == e;
          assert events[k + 1] == e;
        }
      }
    }
  }

  lemma RowOrderRanks()
    ensures Ranking(RowBefore)
  {
    StrTotal();
    forall a: StoredRow, b: StoredRow, c: StoredRow | RowBefore(a, b) && RowBefore(b, c) ensures RowBefore(a, c) {
      assert StrLe(c.occurredAt, a.occurredAt);
    }
  }

  // ---- the rows of an answer are the rows of events ----

  ghost predicate IsRowOf(row: StoredRow, events: seq<Event>) { exists e | e in events :: StorageRow(e) == row }

  ghost function EventOf(row: StoredRow, events: seq<Event>): (e: Event)
    requires IsRowOf(row, events)
    ensures e in events && StorageRow(e) == row
  {
    var e :| e in events && StorageRow(e) == row;
    e
  }

  /** Rows that all come from events are the rows of a sequence of events. */
  lemma RowsHaveEvents(rows: seq<StoredRow>, events: seq<Event>) returns (es: seq<Event>)
    requires forall i | 0 <= i < |rows| :: IsRowOf(rows[i], events)
    ensures rows == RowsOf(es) && forall e | e in es :: e in events
  {
    es := seq(|rows|, i requires 0 <= i < |rows| => EventOf(rows[i], events));
  }

  lemma ReadSnoc(rows: seq<StoredRow>, row: StoredRow)
    ensures EventsFromRows(rows).Some? && EventFromRow(row).Some? ==>
              EventsFromRows(rows + [row]) == Some(EventsFromRows(rows).value + [EventFromRow(row).value])
  {
    assert (rows + [row])[..|rows|] == rows;
  }

  lemma ReadOneMore(es: seq<Event>, e: Event)
    requires EventsFromRows(RowsOf(es)) == Some(es)
    ensures EventsFromRows(RowsOf(es + [e])) == Some(es + [e])
  {
    RowRoundTrip(e);
    RowsAppend(es, [e]);
    ReadSnoc(RowsOf(es), StorageRow(e));
  }

  lemma {:induction false} RowsReadBack(es: seq<Event>)
    ensures EventsFromRows(RowsOf(es)) == Some(es)
    decreases |es|
  {
    if es == [] {
      assert RowsOf(es) == [];
    } else {
      var n := |es| - 1;
      var init, last := es[..n], es[n];
      assert init + [last] == es;
      RowsReadBack(init);
      ReadOneMore(init, last);
    }
  }

  lemma RowInjective(a: Event, b: Event)
    requires StorageRow(a) == StorageRow(b)
    ensures a == b
  {
    RowRoundTrip(a);
    RowRoundTrip(b);
  }

  /** The sorted rows are the rows of the matching events, newest first. */
  lemma SortedAnswer(events: seq<Event>, q: Range) returns (all: seq<Event>)
    requires DistinctIds(events)
    ensures Sort(RowBefore, Select(RowsOf(events), ClausesOf(q))) == RowsOf(all) && Answers(all, events, q)
  {
    var matching := Matching(events, q);
    SelectIsMatching(events, q);
    MatchingMembers(events, q);
    RowOrderRanks();
    SortSorts(RowBefore, RowsOf(matching));
    var sorted := Sort(RowBefore, RowsOf(matching));
    SameRows(sorted, RowsOf(matching));
    forall k | 0 <= k < |sorted| ensures IsRowOf(sorted[k], matching) {
      assert sorted[k] in sorted;
      var i :| 0 <= i < |matching| && RowsOf(matching)[i] == sorted[k];
      assert matching[i] in matching;
    }
    all := RowsHaveEvents(sorted, matching);
    AnswerMembers(all, matching);
    AnswerOrder(all, matching);
  }

  lemma SameRows(a: seq<StoredRow>, b: seq<StoredRow>)
    requires multiset(a) == multiset(b)
    ensures forall r :: r in a <==> r in b
  {
    forall r ensures r in a <==> r in b {
      assert r in a <==> r in multiset(a);
      assert r in b <==> r in multiset(b);
    }
  }

  lemma AnswerMembers(all: seq<Event>, matching: seq<Event>)
    requires multiset(RowsOf(all)) == multiset(RowsOf(matching)) && forall e | e in all :: e in matching
    ensures forall e | e in matching :: e in all
  {
    SameRows(RowsOf(all), RowsOf(matching));
    forall e | e in matching ensures e in all {
      var i :| 0 <= i < |matching| && matching[i] == e;
      assert RowsOf(matching)[i] in RowsOf(all);
      var j :| 0 <= j < |all| && RowsOf(all)[j] == StorageRow(e);
      RowInjective(all[j], e);
    }
  }

  lemma AnswerOrder(all: seq<Event>, matching: seq<Event>)
    requires multiset(RowsOf(all)) == multiset(RowsOf(matching)) && DistinctIds(matching) && Sorted(RowBefore, RowsOf(all))
    ensures forall i, j | 0 <= i < j < |all| :: NewerFirst(all[i], all[j])
  {
    forall i, j | 0 <= i < j < |all| ensures NewerFirst(all[i], all[j]) {
      var a, b := all[i], all[j];
      assert RowBefore(RowsOf(all)[i], RowsOf(all)[j]);
      DistinctRows(all, matching, i, j);
      TextOrderIsTimeOrder(a.occurredAt, b.occurredAt);
      TextOrderIsTimeOrder(b.occurredAt, a.occurredAt);
      InstantsAreDistinct(a.occurredAt, b.occurredAt);
    }
  }

  /** Sorting does not repeat a row, so ids stay distinct. */
  lemma DistinctRows(all: seq<Event>, matching: seq<Event>, i: nat, j: nat)
    requires multiset(RowsOf(all)) == multiset(RowsOf(matching)) && DistinctIds(matching) && i < j < |all|
    ensures all[i].eventId != all[j].eventId
  {
    var a, b := RowsOf(all), RowsOf(matching);
    SameRows(a, b);
    forall k, m | 0 <= k < m < |b| ensures b[k] != b[m] { assert matching[k].eventId != matching[m].eventId; }
    Occurs(b, a[i]);
    if a[i] == a[j] { Twice(a, i, j); }
    assert a[i] in b && a[j] in b;
    var k :| 0 <= k < |b| && b[k] == a[i];
    var m :| 0 <= m < |b| && b[m] == a[j];
    assert matching[k].eventId != matching[m].eventId;
  }

  /** The executed query returns the rows of the right answer, limited. */
  lemma QueryMeaning(events: seq<Event>, q: Range)
    requires DistinctIds(events) && (q.limit.Some? ==> q.limit.value > 0)
    ensures var rows := Execute(RowsOf(events), ClausesOf(q), q.limit);
            EventsFromRows(rows).Some? && Listed(EventsFromRows(rows).value, events, q)
  {
    var all := SortedAnswer(events, q);
    var r := if q.limit.Some? && q.limit.value < |all| then all[..q.limit.value] else all;
    assert Execute(RowsOf(events), ClausesOf(q), q.limit) == RowsOf(r) by {
      if q.limit.Some? && q.limit.value < |all| { assert RowsOf(all)[..q.limit.value] == RowsOf(r); }
    }
    RowsReadBack(r);
    assert Answers(all, events, q) && r <= all;
  }

  /** A complete answer holds the events of the filtered history. */
  lemma AnswerIsFiltered(read: seq<Event>, all: seq<Event>, now: Instant, earliest: Instant)
    requires DistinctIds(all) && Answers(read, all, Range(None, None, Some(earliest), Some(now), None))
    ensures multiset(read) == multiset(InWindow(all, Micros(earliest), Micros(now)))
  {
    var range := Range(None, None, Some(earliest), Some(now), None);
    var mid := InWindow(all, Micros(earliest), Micros(now));
    forall x ensures x in read <==> x in mid { assert Inside(Micros(earliest), Micros(now), x) <==> InRange(x, range); }
    FilterDistinct(all, Within(Micros(earliest), Micros(now)));
    forall i, j | 0 <= i < j < |read| ensures read[i] != read[j] { assert NewerFirst(read[i], read[j]); }
    SameMembers(read, mid);
  }
}
