/** Windowed aggregation of usage events into patterns. */
module Aggregator {
  import opened Prelude
  import opened Ordering
  import opened Sequences
  import opened Grouping
  import opened Percentile
  import opened Iso
  import opened Usage
  import opened Store
  import opened Windows

  /** What one pattern has in common: the partition, the query shape and the status. */
  datatype Key = Key(environment: string, consumerClass: string, modelHashes: seq<string>, metricIds: seq<string>,
                     dimensionIds: seq<string>, filterShape: seq<string>, fingerprint: string, status: Outcome)

  datatype Pattern = Pattern(window: string, startedAt: int, endedAt: int, key: Key, eventCount: nat,
                             duration: Option<nat>, durationPoints: nat, eventIds: seq<string>)

  datatype Settings = Settings(windows: seq<Window>, minCount: nat, percentile: real, minPoints: nat)

  predicate ValidSettings(c: Settings) {
    && c.windows != [] && c.minCount > 0 && c.minPoints > 0 && ValidPercentile(c.percentile)
  }

  // ---- keys and their order ----

  function StatusText(s: Outcome): string { if s == Succeeded then "succeeded" else "failed" }

  function KeyOf(e: Event): Key {
    Key(e.environment, e.consumerClass, Sort(StrLe, e.modelHashes), Sort(StrLe, e.metricIds),
        Sort(StrLe, e.dimensionIds), Sort(StrLe, e.filterShape), e.fingerprint, e.status)
  }

  function Fields(k: Key): seq<seq<string>> {
    [[k.environment], [k.consumerClass], k.modelHashes, k.metricIds, k.dimensionIds, k.filterShape, [k.fingerprint],
     [StatusText(k.status)]]
  }

  /** Keys compare field by field. */
  predicate KeyLe(a: Key, b: Key) { TupleLe(Fields(a), Fields(b)) }

  lemma FieldsInjective(a: Key, b: Key)
    requires Fields(a) == Fields(b)
    ensures a == b
  {
    var s, t := Fields(a), Fields(b);
    assert s[0] == t[0] && s[1] == t[1] && s[2] == t[2] && s[3] == t[3] && s[4] == t[4] && s[5] == t[5];
    assert s[6] == t[6] && s[7] == t[7];
    assert s[0][0] == t[0][0] && s[1][0] == t[1][0] && s[6][0] == t[6][0];
    assert s[7][0][0] == t[7][0][0];
  }

  /** The fields from the query shape on. */
  function Shape(k: Key): seq<seq<string>> {
    [k.modelHashes] + ([k.metricIds] + ([k.dimensionIds] + ([k.filterShape] + ([[k.fingerprint]] + [[StatusText(k.status)]]))))
  }

  lemma OneField(x: string, y: string)
    requires x != y
    ensures ListLe([x], [y]) <==> StrLe(x, y)
  {
    assert [x][0] == x && [y][0] == y;
  }

  lemma FailedFirst(a: Outcome, b: Outcome)
    ensures TupleLe([[StatusText(a)]], [[StatusText(b)]]) <==> a == b || a == Failed
  {
    assert StatusText(Succeeded)[0] == 's' && StatusText(Failed)[0] == 'f';
    var x, y, none: seq<seq<string>> := [StatusText(a)], [StatusText(b)], [];
    assert x[0] == StatusText(a) && y[0] == StatusText(b) && [x] + none == [x] && [y] + none == [y];
    LexStep(ListLe, x, none, y, none);
    if a != b { OneField(StatusText(a), StatusText(b)); }
  }

  lemma EndOrder(a: Key, b: Key)
    ensures TupleLe([[a.fingerprint]] + [[StatusText(a.status)]], [[b.fingerprint]] + [[StatusText(b.status)]]) <==>
              if a.fingerprint != b.fingerprint then StrLe(a.fingerprint, b.fingerprint)
              else a.status == b.status || a.status == Failed
  {
    LexStep(ListLe, [a.fingerprint], [[StatusText(a.status)]], [b.fingerprint], [[StatusText(b.status)]]);
    assert [a.fingerprint] == [b.fingerprint] <==> a.fingerprint == b.fingerprint by {
      assert [a.fingerprint][0] == a.fingerprint && [b.fingerprint][0] == b.fingerprint;
    }
    FailedFirst(a.status, b.status);
    if a.fingerprint != b.fingerprint { OneField(a.fingerprint, b.fingerprint); }
  }

  /** Which of two query shapes comes first: list by list, then by fingerprint, then failures first. */
  predicate ShapeBefore(a: Key, b: Key) {
    if a.modelHashes != b.modelHashes then ListLe(a.modelHashes, b.modelHashes)
    else if a.metricIds != b.metricIds then ListLe(a.metricIds, b.metricIds)
    else if a.dimensionIds != b.dimensionIds then ListLe(a.dimensionIds, b.dimensionIds)
    else if a.filterShape != b.filterShape then ListLe(a.filterShape, b.filterShape)
    else if a.fingerprint != b.fingerprint then StrLe(a.fingerprint, b.fingerprint)
    else a.status == b.status || a.status == Failed
  }

  lemma ShapeOrder(a: Key, b: Key)
    ensures TupleLe(Shape(a), Shape(b)) <==> ShapeBefore(a, b)
  {
    var s4, t4 := [[a.fingerprint]] + [[StatusText(a.status)]], [[b.fingerprint]] + [[StatusText(b.status)]];
    var s3, t3 := [a.filterShape] + s4, [b.filterShape] + t4;
    var s2, t2 := [a.dimensionIds] + s3, [b.dimensionIds] + t3;
    var s1, t1 := [a.metricIds] + s2, [b.metricIds] + t2;
    EndOrder(a, b);
    LexStep(ListLe, a.filterShape, s4, b.filterShape, t4);
    LexStep(ListLe, a.dimensionIds, s3, b.dimensionIds, t3);
    LexStep(ListLe, a.metricIds, s2, b.metricIds, t2);
    LexStep(ListLe, a.modelHashes, s1, b.modelHashes, t1);
  }

  /** Keys compare by environment, then consumer class, then by their shape. */
  lemma KeyOrder(a: Key, b: Key)
    ensures KeyLe(a, b) <==>
              if a.environment != b.environment then StrLe(a.environment, b.environment)
              else if a.consumerClass != b.consumerClass then StrLe(a.consumerClass, b.consumerClass)
              else ShapeBefore(a, b)
  {
    var s, t := [[a.consumerClass]] + Shape(a), [[b.consumerClass]] + Shape(b);
    assert Fields(a) == [[a.environment]] + s && Fields(b) == [[b.environment]] + t;
    assert [a.environment][0] == a.environment && [b.environment][0] == b.environment;
    assert [a.consumerClass][0] == a.consumerClass && [b.consumerClass][0] == b.consumerClass;
    LexStep(ListLe, [a.environment], s, [b.environment], t);
    LexStep(ListLe, [a.consumerClass], Shape(a), [b.consumerClass], Shape(b));
    ShapeOrder(a, b);
    if a.environment != b.environment { OneField(a.environment, b.environment); }
    if a.consumerClass != b.consumerClass { OneField(a.consumerClass, b.consumerClass); }
  }

  lemma KeyTotal()
    ensures TotalOrder(KeyLe)
  {
    TupleTotal();
    forall a, b ensures (KeyLe(a, b) || KeyLe(b, a)) && (KeyLe(a, b) && KeyLe(b, a) ==> a == b) {
      if KeyLe(a, b) && KeyLe(b, a) { FieldsInjective(a, b); }
    }
  }

  /** Two events share a pattern exactly when their shapes hold the same ids, in whatever order. */
  lemma KeyMeaning(a: Event, b: Event)
    ensures KeyOf(a) == KeyOf(b) <==>
              && a.environment == b.environment && a.consumerClass == b.consumerClass
              && a.fingerprint == b.fingerprint && a.status == b.status
              && multiset(a.modelHashes) == multiset(b.modelHashes) && multiset(a.metricIds) == multiset(b.metricIds)
              && multiset(a.dimensionIds) == multiset(b.dimensionIds)
              && multiset(a.filterShape) == multiset(b.filterShape)
  {
    SortedAlike(a.modelHashes, b.modelHashes);
    SortedAlike(a.metricIds, b.metricIds);
    SortedAlike(a.dimensionIds, b.dimensionIds);
    SortedAlike(a.filterShape, b.filterShape);
  }

  lemma SortedAlike(s: seq<string>, t: seq<string>)
    ensures Sort(StrLe, s) == Sort(StrLe, t) <==> multiset(s) == multiset(t)
  {
    StrTotal();
    SortSorts(StrLe, s);
    SortSorts(StrLe, t);
    if multiset(s) == multiset(t) { SortForgetsOrder(StrLe, s, t); }
  }

  // ---- one window ----

  function Ids(events: seq<Event>): seq<string> { Map(events, IdOf) }

  /** The pattern of one group of events. */
  function PatternOf(c: Settings, w: Window, now: int, k: Key, group: seq<Event>): Pattern
    requires ValidSettings(c)
  {
    var durations := if k.status == Succeeded then Durations(group) else [];
    Pattern(w.name, Start(w, now), now, k, |group|,
            if |durations| >= c.minPoints then Some(NearestRank(durations, c.percentile)) else None,
            |durations|, Sort(StrLe, Ids(group)))
  }

  /** The patterns of the groups under the given keys that are large enough, in that order. */
  function PatternsOf(c: Settings, w: Window, now: int, inside: seq<Event>, keys: seq<Key>): seq<Pattern>
    requires ValidSettings(c)
  {
    if keys == [] then []
    else
      var n := |keys| - 1;
      var group := Group(inside, KeyOf, keys[n]);
      PatternsOf(c, w, now, inside, keys[..n])
      + if |group| < c.minCount then [] else [PatternOf(c, w, now, keys[n], group)]
  }

  function SortedKeys(keys: set<Key>): (r: seq<Key>)
    ensures forall k :: k in r <==> k in keys
  {
    KeyTotal();
    SortedSet(KeyLe, keys)
  }

  function PatternsIn(c: Settings, w: Window, now: int, inside: seq<Event>): seq<Pattern>
    requires ValidSettings(c)
  {
    PatternsOf(c, w, now, inside, SortedKeys(Keys(inside, KeyOf)))
  }

  function Start(w: Window, now: int): int { now - w.days * DAY }

  /** An event is in a window if it is at most the window's days, in microseconds, before now, and not after it. */
  lemma WindowIsDays(w: Window, now: int, events: seq<Event>, e: Event)
    ensures e in InWindow(events, Start(w, now), now) <==> e in events && 0 <= now - At(e) <= w.days * 86400000000
  {
  }

  function WindowPatterns(c: Settings, w: Window, now: int, events: seq<Event>): seq<Pattern>
    requires ValidSettings(c)
  {
    PatternsIn(c, w, now, InWindow(events, Start(w, now), now))
  }

  /** The patterns of the windows, window by window. */
  function AllPatterns(c: Settings, ws: seq<Window>, now: int, events: seq<Event>): seq<Pattern>
    requires ValidSettings(c)
  {
    if ws == [] then []
    else AllPatterns(c, ws[..|ws| - 1], now, events) + WindowPatterns(c, ws[|ws| - 1], now, events)
  }

  function Longest(ws: seq<Window>): (r: nat)
    requires ws != []
    ensures forall w | w in ws :: w.days <= r
    ensures exists w | w in ws :: w.days == r
  {
    if |ws| == 1 then ws[0].days
    else
      var rest := Longest(ws[1..]);
      assert ws == [ws[0]] + ws[1..];
      if rest > ws[0].days then rest else ws[0].days
  }

  // ---- the loops ----

  /** Appends each in-window event to the group of its key. */
  method GroupEvents(events: seq<Event>, start: int, now: int) returns (groups: map<Key, seq<Event>>)
    ensures Grouped(groups, InWindow(events, start, now), KeyOf)
  {
    groups := map[];
    var i := 0;
    while i < |events|
      invariant 0 <= i <= |events|
      invariant Grouped(groups, InWindow(events[..i], start, now), KeyOf)
    {
      var e := events[i];
      assert events[..i + 1] == events[..i] + [e];
      FilterSnoc(events[..i], e, Within(start, now));
      if start <= At(e) && At(e) <= now {
        GroupedGrows(groups, InWindow(events[..i], start, now), KeyOf, e);
        groups := AddToGroup(groups, KeyOf(e), e);
      }
      i := i + 1;
    }
    assert events[..i] == events;
  }

  /** The patterns of the groups, in the order of their keys. */
  method PatternsOfGroups(c: Settings, w: Window, now: int, groups: map<Key, seq<Event>>, keys: seq<Key>,
                          ghost inside: seq<Event>)
    returns (patterns: seq<Pattern>)
    requires ValidSettings(c) && Grouped(groups, inside, KeyOf) && forall k | k in keys :: k in groups
    ensures patterns == PatternsOf(c, w, now, inside, keys)
  {
    patterns := [];
    var i := 0;
    while i < |keys|
      invariant 0 <= i <= |keys|
      invariant patterns == PatternsOf(c, w, now, inside, keys[..i])
    {
      assert keys[..i + 1][..i] == keys[..i];
      var grouped := groups[keys[i]];
      if |grouped| >= c.minCount { patterns := patterns + [PatternOf(c, w, now, keys[i], grouped)]; }
      i := i + 1;
    }
    assert keys[..i] == keys;
  }

  /** The patterns of one window. */
  method AggregateWindow(c: Settings, w: Window, now: int, events: seq<Event>) returns (patterns: seq<Pattern>)
    requires ValidSettings(c)
    ensures patterns == WindowPatterns(c, w, now, events)
  {
    var groups := GroupEvents(events, Start(w, now), now);
    patterns := PatternsOfGroups(c, w, now, groups, SortedKeys(groups.Keys), InWindow(events, Start(w, now), now));
  }

  /**
   * Reads the store once, back to the start of the longest window, and aggregates every
   * window. The result is that of the whole history, of which the store keeps the first
   * event of each id.
   */
  method Aggregate(c: Settings, store: SqliteUsageEventStore, now: Instant, earliest: Instant)
    returns (patterns: seq<Pattern>)
    requires ValidSettings(c) && store.Valid()
    requires Micros(earliest) == Micros(now) - Longest(c.windows) * DAY
    ensures patterns == AllPatterns(c, c.windows, Micros(now), FirstOfEach(store.appended))
  {
    var range := Range(None, None, Some(earliest), Some(now), None);
    var read := store.ListEvents(range);
    var events := read.value;
    patterns := [];
    var i := 0;
    while i < |c.windows|
      invariant 0 <= i <= |c.windows|
      invariant patterns == AllPatterns(c, c.windows[..i], Micros(now), FirstOfEach(store.appended))
    {
      var w := c.windows[i];
      var more := AggregateWindow(c, w, Micros(now), events);
      FirstOfEachDistinct(store.appended);
      ReadIsEnough(c, w, events, FirstOfEach(store.appended), now, earliest);
      NextWindow(c, c.windows, i, Micros(now), FirstOfEach(store.appended));
      patterns := patterns + more;
      i := i + 1;
    }
    assert c.windows[..i] == c.windows;
  }

  // ---- the order of the events does not matter ----

  lemma PatternForgetsOrder(c: Settings, w: Window, now: int, k: Key, a: seq<Event>, b: seq<Event>)
    requires ValidSettings(c) && multiset(a) == multiset(b)
    ensures PatternOf(c, w, now, k, a) == PatternOf(c, w, now, k, b)
  {
    SameLength(a, b);
    StrTotal();
    MapForgetsOrder(a, b, IdOf);
    SortForgetsOrder(StrLe, Ids(a), Ids(b));
    DurationsForgetOrder(a, b);
    if Durations(a) != [] { NearestRankForgetsOrder(Durations(a), Durations(b), c.percentile); }
  }

  lemma {:induction false} PatternsForgetOrder(c: Settings, w: Window, now: int, a: seq<Event>, b: seq<Event>,
                                               keys: seq<Key>)
    requires ValidSettings(c) && multiset(a) == multiset(b)
    ensures PatternsOf(c, w, now, a, keys) == PatternsOf(c, w, now, b, keys)
    decreases |keys|
  {
    if keys != [] {
      var n := |keys| - 1;
      PatternsForgetOrder(c, w, now, a, b, keys[..n]);
      FilterForgetsOrder(a, b, HasKey(KeyOf, keys[n]));
      SameLength(Group(a, KeyOf, keys[n]), Group(b, KeyOf, keys[n]));
      PatternForgetsOrder(c, w, now, keys[n], Group(a, KeyOf, keys[n]), Group(b, KeyOf, keys[n]));
    }
  }

  lemma InsideForgetsOrder(c: Settings, w: Window, now: int, a: seq<Event>, b: seq<Event>)
    requires ValidSettings(c) && multiset(a) == multiset(b)
    ensures PatternsIn(c, w, now, a) == PatternsIn(c, w, now, b)
  {
    KeysForgetOrder(a, b, KeyOf);
    PatternsForgetOrder(c, w, now, a, b, SortedKeys(Keys(a, KeyOf)));
  }

  lemma WindowForgetsOrder(c: Settings, w: Window, now: int, a: seq<Event>, b: seq<Event>)
    requires ValidSettings(c) && multiset(a) == multiset(b)
    ensures WindowPatterns(c, w, now, a) == WindowPatterns(c, w, now, b)
  {
    FilterForgetsOrder(a, b, Within(Start(w, now), now));
    InsideForgetsOrder(c, w, now, InWindow(a, Start(w, now), now), InWindow(b, Start(w, now), now));
  }

  /** The whole result is the same for every order in which the events are read. */
  lemma {:induction false} AggregationForgetsOrder(c: Settings, ws: seq<Window>, now: int, a: seq<Event>, b: seq<Event>)
    requires ValidSettings(c) && multiset(a) == multiset(b)
    ensures AllPatterns(c, ws, now, a) == AllPatterns(c, ws, now, b)
    decreases |ws|
  {
    if ws != [] {
      AggregationForgetsOrder(c, ws[..|ws| - 1], now, a, b);
      WindowForgetsOrder(c, ws[|ws| - 1], now, a, b);
    }
  }

  lemma OneMoreWindow(c: Settings, ws: seq<Window>, w: Window, now: int, events: seq<Event>)
    requires ValidSettings(c)
    ensures AllPatterns(c, ws + [w], now, events) == AllPatterns(c, ws, now, events) + WindowPatterns(c, w, now, events)
  {
    assert (ws + [w])[..|ws|] == ws;
  }

  lemma NextWindow(c: Settings, ws: seq<Window>, i: nat, now: int, events: seq<Event>)
    requires ValidSettings(c) && i < |ws|
    ensures AllPatterns(c, ws[..i + 1], now, events)
            == AllPatterns(c, ws[..i], now, events) + WindowPatterns(c, ws[i], now, events)
  {
    var front := ws[..i + 1];
    assert front[..i] == ws[..i] && front[|front| - 1] == ws[i];
  }

  /** The patterns come window by window, in the order of the windows. */
  lemma {:induction false} WindowByWindow(c: Settings, ws: seq<Window>, more: seq<Window>, now: int, events: seq<Event>)
    requires ValidSettings(c)
    ensures AllPatterns(c, ws + more, now, events) == AllPatterns(c, ws, now, events) + AllPatterns(c, more, now, events)
    decreases |more|
  {
    if more == [] {
      assert ws + more == ws;
    } else {
      var n := |more| - 1;
      var front, last := more[..n], more[n];
      assert more == front + [last] && ws + more == (ws + front) + [last];
      WindowByWindow(c, ws, front, now, events);
      OneMoreWindow(c, ws + front, last, now, events);
      OneMoreWindow(c, front, last, now, events);
      Regroup(AllPatterns(c, ws, now, events), AllPatterns(c, front, now, events), WindowPatterns(c, last, now, events));
    }
  }

  lemma Regroup(a: seq<Pattern>, b: seq<Pattern>, d: seq<Pattern>)
    ensures (a + b) + d == a + (b + d)
  {
  }

  // ---- the bounded read is enough ----

  /** A window's patterns come out the same from the bounded read as from the whole history. */
  lemma ReadIsEnough(c: Settings, w: Window, read: seq<Event>, all: seq<Event>, now: Instant, earliest: Instant)
    requires ValidSettings(c) && w in c.windows && DistinctIds(all)
    requires Micros(earliest) == Micros(now) - Longest(c.windows) * DAY
    requires Listed(read, all, Range(None, None, Some(earliest), Some(now), None))
    ensures WindowPatterns(c, w, Micros(now), read) == WindowPatterns(c, w, Micros(now), all)
  {
    var whole :| Answers(whole, all, Range(None, None, Some(earliest), Some(now), None)) && read <= whole
      && |read| == |whole|;
    assert read == whole;
    AnswerIsFiltered(read, all, now, earliest);
    WindowForgetsOrder(c, w, Micros(now), read, InWindow(all, Micros(earliest), Micros(now)));
    EarlierIsWeaker(all, Micros(earliest), Start(w, Micros(now)), Micros(now));
  }

  lemma EarlierIsWeaker(events: seq<Event>, first: int, start: int, end: int)
    requires first <= start
    ensures InWindow(InWindow(events, first, end), start, end) == InWindow(events, start, end)
  {
    FilterTwice(events, Within(first, end), Within(start, end));
  }

  // ---- events are conserved ----

  /** The ids the patterns list, one after the other. */
  function ListedIds(patterns: seq<Pattern>): multiset<string> {
    if patterns == [] then multiset{}
    else ListedIds(patterns[..|patterns| - 1]) + multiset(patterns[|patterns| - 1].eventIds)
  }

  function TotalCount(patterns: seq<Pattern>): nat {
    if patterns == [] then 0 else TotalCount(patterns[..|patterns| - 1]) + patterns[|patterns| - 1].eventCount
  }

  /** The groups that reach the minimum count. */
  function Large(c: Settings, inside: seq<Event>): Key -> bool { k => |Group(inside, KeyOf, k)| >= c.minCount }

  lemma DropLastIds(patterns: seq<Pattern>, p: Pattern)
    ensures ListedIds(patterns + [p]) == ListedIds(patterns) + multiset(p.eventIds)
    ensures TotalCount(patterns + [p]) == TotalCount(patterns) + p.eventCount
  {
    assert (patterns + [p])[..|patterns|] == patterns;
  }

  /** Splitting off the ids of one more group. */
  lemma SplitIds(inside: seq<Event>, keys: seq<Key>, k: Key, pass: Key -> bool)
    requires k !in keys
    ensures multiset(Ids(Filter(inside, Kept(KeyOf, keys + [k], pass))))
            == multiset(Ids(Filter(inside, Kept(KeyOf, keys, pass))))
               + if pass(k) then multiset(Ids(Group(inside, KeyOf, k))) else multiset{}
  {
    var kept, group := Filter(inside, Kept(KeyOf, keys, pass)), if pass(k) then Group(inside, KeyOf, k) else [];
    OneMoreKey(inside, KeyOf, keys, k, pass);
    MapForgetsOrder(Filter(inside, Kept(KeyOf, keys + [k], pass)), kept + group, IdOf);
    MapAppend(kept, group, IdOf);
  }

  predicate NoRepeats<T(==)>(s: seq<T>) { forall i, j | 0 <= i < j < |s| :: s[i] != s[j] }

  /** What the last key adds. */
  lemma LastKey(c: Settings, w: Window, now: int, inside: seq<Event>, keys: seq<Key>, k: Key)
    requires ValidSettings(c)
    ensures var before, after := PatternsOf(c, w, now, inside, keys), PatternsOf(c, w, now, inside, keys + [k]);
            var group := if Large(c, inside)(k) then Group(inside, KeyOf, k) else [];
            && ListedIds(after) == ListedIds(before) + multiset(Ids(group))
            && TotalCount(after) == TotalCount(before) + |group|
  {
    PatternsSnoc(c, w, now, inside, keys, k);
    var before, group := PatternsOf(c, w, now, inside, keys), Group(inside, KeyOf, k);
    if Large(c, inside)(k) {
      DropLastIds(before, PatternOf(c, w, now, k, group));
      SortedIds(group);
    } else {
      assert Ids([]) == [];
    }
  }

  lemma PatternsSnoc(c: Settings, w: Window, now: int, inside: seq<Event>, keys: seq<Key>, k: Key)
    requires ValidSettings(c)
    ensures var before, group := PatternsOf(c, w, now, inside, keys), Group(inside, KeyOf, k);
            PatternsOf(c, w, now, inside, keys + [k])
            == if Large(c, inside)(k) then before + [PatternOf(c, w, now, k, group)] else before
  {
    assert (keys + [k])[..|keys|] == keys;
  }

  lemma SortedIds(group: seq<Event>)
    ensures multiset(Sort(StrLe, Ids(group))) == multiset(Ids(group))
  {
    StrTotal();
    SortSorts(StrLe, Ids(group));
  }

  lemma {:induction false} PatternsConserve(c: Settings, w: Window, now: int, inside: seq<Event>, keys: seq<Key>)
    requires ValidSettings(c) && NoRepeats(keys)
    ensures ListedIds(PatternsOf(c, w, now, inside, keys)) == KeptIds(c, inside, keys)
    decreases |keys|
  {
    if keys == [] {
      NoKeys(inside, KeyOf, Large(c, inside));
    } else {
      var n := |keys| - 1;
      assert keys == keys[..n] + [keys[n]];
      PatternsConserve(c, w, now, inside, keys[..n]);
      LastKey(c, w, now, inside, keys[..n], keys[n]);
      LastKeyKept(c, inside, keys[..n], keys[n]);
    }
  }

  /** The ids of the events whose key is one of these and whose group is large enough. */
  function KeptIds(c: Settings, inside: seq<Event>, keys: seq<Key>): multiset<string> {
    multiset(Ids(Filter(inside, Kept(KeyOf, keys, Large(c, inside)))))
  }

  lemma LastKeyKept(c: Settings, inside: seq<Event>, keys: seq<Key>, k: Key)
    requires k !in keys
    ensures KeptIds(c, inside, keys + [k])
            == KeptIds(c, inside, keys) + multiset(Ids(if Large(c, inside)(k) then Group(inside, KeyOf, k) else []))
  {
    SplitIds(inside, keys, k, Large(c, inside));
    assert Ids([]) == [];
  }

  lemma {:induction false} CountsAreIds(c: Settings, w: Window, now: int, inside: seq<Event>, keys: seq<Key>)
    requires ValidSettings(c)
    ensures TotalCount(PatternsOf(c, w, now, inside, keys)) == |ListedIds(PatternsOf(c, w, now, inside, keys))|
    decreases |keys|
  {
    if keys != [] {
      var n := |keys| - 1;
      assert keys == keys[..n] + [keys[n]];
      CountsAreIds(c, w, now, inside, keys[..n]);
      LastKey(c, w, now, inside, keys[..n], keys[n]);
    }
  }

  /** The in-window events whose group reaches the minimum count. */
  function Counted(c: Settings, inside: seq<Event>): seq<Event> { Filter(inside, InLargeGroup(c, inside)) }

  function InLargeGroup(c: Settings, inside: seq<Event>): Event -> bool { e => Large(c, inside)(KeyOf(e)) }

  lemma KeyOccurs(inside: seq<Event>, e: Event)
    requires e in inside
    ensures KeyOf(e) in Keys(inside, KeyOf) && |Group(inside, KeyOf, KeyOf(e))| >= 1
  {
    assert e in Group(inside, KeyOf, KeyOf(e));
  }

  lemma AllKeysKept(c: Settings, inside: seq<Event>)
    ensures Filter(inside, Kept(KeyOf, SortedKeys(Keys(inside, KeyOf)), Large(c, inside))) == Counted(c, inside)
    ensures c.minCount == 1 ==> Counted(c, inside) == inside
  {
    var keys := SortedKeys(Keys(inside, KeyOf));
    forall e | e in inside ensures KeyOf(e) in keys && |Group(inside, KeyOf, KeyOf(e))| >= 1 { KeyOccurs(inside, e); }
    FilterSame(inside, Kept(KeyOf, keys, Large(c, inside)), InLargeGroup(c, inside));
    if c.minCount == 1 { FilterAll(inside, InLargeGroup(c, inside)); }
  }

  lemma SortedKeysSorted(keys: set<Key>)
    ensures NoRepeats(SortedKeys(keys)) && Sorted(KeyLe, SortedKeys(keys))
  {
    KeyTotal();
    SortedSetSorted(KeyLe, keys);
  }

  /**
   * Aggregation conserves events: the patterns of a window list exactly the ids of the
   * in-window events whose group reaches the minimum count, as often as they occur, and
   * the counts add up to their number; with a minimum of 1 these are all of them.
   */
  lemma WindowConserves(c: Settings, w: Window, now: int, events: seq<Event>)
    requires ValidSettings(c)
    ensures var patterns, inside := WindowPatterns(c, w, now, events), InWindow(events, Start(w, now), now);
            && ListedIds(patterns) == multiset(Ids(Counted(c, inside)))
            && TotalCount(patterns) == |Counted(c, inside)|
            && (c.minCount == 1 ==> Counted(c, inside) == inside)
  {
    var inside := InWindow(events, Start(w, now), now);
    var keys := SortedKeys(Keys(inside, KeyOf));
    SortedKeysSorted(Keys(inside, KeyOf));
    PatternsConserve(c, w, now, inside, keys);
    CountsAreIds(c, w, now, inside, keys);
    AllKeysKept(c, inside);
  }

  lemma {:induction false} SomePatternLists(patterns: seq<Pattern>, id: string)
    requires ListedIds(patterns)[id] > 0
    ensures exists i :: 0 <= i < |patterns| && id in patterns[i].eventIds
    decreases |patterns|
  {
    var n := |patterns| - 1;
    if id in patterns[n].eventIds {
      assert 0 <= n < |patterns|;
    } else {
      SomePatternLists(patterns[..n], id);
      var i :| 0 <= i < |patterns[..n]| && id in patterns[..n][i].eventIds;
      assert id in patterns[i].eventIds;
    }
  }

  lemma {:induction false} ListedOnce(patterns: seq<Pattern>, id: string, i: nat)
    requires i < |patterns| && id in patterns[i].eventIds
    ensures ListedIds(patterns)[id] >= 1
    decreases |patterns|
  {
    var n := |patterns| - 1;
    if i < n {
      assert patterns[..n][i] == patterns[i];
      ListedOnce(patterns[..n], id, i);
    }
  }

  lemma {:induction false} ListedTwice(patterns: seq<Pattern>, id: string, i: nat, j: nat)
    requires i < j < |patterns| && id in patterns[i].eventIds && id in patterns[j].eventIds
    ensures ListedIds(patterns)[id] >= 2
    decreases |patterns|
  {
    var n := |patterns| - 1;
    assert patterns[..n][i] == patterns[i];
    if j < n {
      assert patterns[..n][j] == patterns[j];
      ListedTwice(patterns[..n], id, i, j);
    } else {
      ListedOnce(patterns[..n], id, i);
    }
  }

  lemma OccursInOne(patterns: seq<Pattern>, id: string)
    ensures ListedIds(patterns)[id] > 0 ==> exists i :: 0 <= i < |patterns| && id in patterns[i].eventIds
    ensures forall i | 0 <= i < |patterns| && id in patterns[i].eventIds :: ListedIds(patterns)[id] >= 1
    ensures forall i, j | 0 <= i < j < |patterns| && id in patterns[i].eventIds && id in patterns[j].eventIds ::
              ListedIds(patterns)[id] >= 2
  {
    if ListedIds(patterns)[id] > 0 { SomePatternLists(patterns, id); }
    forall i | 0 <= i < |patterns| && id in patterns[i].eventIds ensures ListedIds(patterns)[id] >= 1 {
      ListedOnce(patterns, id, i);
    }
    forall i, j | 0 <= i < j < |patterns| && id in patterns[i].eventIds && id in patterns[j].eventIds
      ensures ListedIds(patterns)[id] >= 2
    {
      ListedTwice(patterns, id, i, j);
    }
  }

  /** With distinct ids and a minimum of 1, each in-window id is in exactly one pattern. */
  lemma EachEventInOnePattern(c: Settings, w: Window, now: int, events: seq<Event>, id: string)
    requires ValidSettings(c) && c.minCount == 1 && DistinctIds(events)
    requires HasId(InWindow(events, Start(w, now), now), id)
    ensures var patterns := WindowPatterns(c, w, now, events);
            exists i :: && 0 <= i < |patterns| && id in patterns[i].eventIds
                        && forall j | 0 <= j < |patterns| && j != i :: id !in patterns[j].eventIds
  {
    var patterns, inside := WindowPatterns(c, w, now, events), InWindow(events, Start(w, now), now);
    WindowConserves(c, w, now, events);
    FilterDistinct(events, Within(Start(w, now), now));
    Occurs(Ids(inside), id);
    var k :| 0 <= k < |inside| && inside[k].eventId == id;
    assert Ids(inside)[k] == id;
    OccursInOne(patterns, id);
    var i :| 0 <= i < |patterns| && id in patterns[i].eventIds;
    forall j | 0 <= j < |patterns| && j != i ensures id !in patterns[j].eventIds {
      assert id in patterns[j].eventIds ==> ListedIds(patterns)[id] >= 2;
    }
  }

  // ---- what a pattern says ----

  /** p reports the group of its own key, which is large enough. */
  predicate Reports(p: Pattern, c: Settings, w: Window, now: int, inside: seq<Event>)
    requires ValidSettings(c)
  {
    var group := Group(inside, KeyOf, p.key);
    && p.window == w.name && p.startedAt == now - w.days * 86400000000 && p.endedAt == now
    && p.eventCount == |group| >= c.minCount
    && (p.key.status == Failed ==> p.durationPoints == 0 && p.duration == None)
    && (p.key.status == Succeeded ==> p.durationPoints == |Durations(group)|)
    && (p.duration.Some? <==> p.durationPoints >= c.minPoints)
    && (p.duration.Some? ==> Durations(group) != [] && p.duration.value == NearestRank(Durations(group), c.percentile))
    && Sorted(StrLe, p.eventIds) && multiset(p.eventIds) == multiset(Ids(group))
  }

  /**
   * The patterns of a window come in the strict order of their keys, and each reports
   * its group: no percentile for failures, nor below the minimum number of points.
   */
  lemma PatternsReportGroups(c: Settings, w: Window, now: int, events: seq<Event>)
    requires ValidSettings(c)
    ensures var patterns := WindowPatterns(c, w, now, events);
            && (forall p | p in patterns :: Reports(p, c, w, now, InWindow(events, Start(w, now), now)))
            && InKeyOrder(patterns)
  {
    var inside := InWindow(events, Start(w, now), now);
    SortedKeysSorted(Keys(inside, KeyOf));
    AllReport(c, w, now, inside, SortedKeys(Keys(inside, KeyOf)));
    PatternsInOrder(c, w, now, inside, SortedKeys(Keys(inside, KeyOf)));
  }

  /** The patterns stand in the strict order of their keys. */
  predicate InKeyOrder(patterns: seq<Pattern>) {
    forall i, j | 0 <= i < j < |patterns| ::
      KeyLe(patterns[i].key, patterns[j].key) && patterns[i].key != patterns[j].key
  }

  lemma {:induction false} AllReport(c: Settings, w: Window, now: int, inside: seq<Event>, keys: seq<Key>)
    requires ValidSettings(c)
    ensures forall p | p in PatternsOf(c, w, now, inside, keys) :: Reports(p, c, w, now, inside)
    decreases |keys|
  {
    if keys != [] {
      var n := |keys| - 1;
      AllReport(c, w, now, inside, keys[..n]);
      assert keys == keys[..n] + [keys[n]];
      PatternsSnoc(c, w, now, inside, keys[..n], keys[n]);
      if Large(c, inside)(keys[n]) { PatternReports(c, w, now, inside, keys[n]); }
    }
  }

  lemma {:induction false} PatternsInOrder(c: Settings, w: Window, now: int, inside: seq<Event>, keys: seq<Key>)
    requires ValidSettings(c) && NoRepeats(keys) && Sorted(KeyLe, keys)
    ensures InKeyOrder(PatternsOf(c, w, now, inside, keys))
    ensures forall p | p in PatternsOf(c, w, now, inside, keys) :: p.key in keys
    decreases |keys|
  {
    if keys != [] {
      var n := |keys| - 1;
      PatternsInOrder(c, w, now, inside, keys[..n]);
      assert keys == keys[..n] + [keys[n]];
      PatternsSnoc(c, w, now, inside, keys[..n], keys[n]);
      InOrderSnoc(PatternsOf(c, w, now, inside, keys[..n]), PatternOf(c, w, now, keys[n], Group(inside, KeyOf, keys[n])), keys);
    }
  }

  lemma InOrderSnoc(patterns: seq<Pattern>, p: Pattern, keys: seq<Key>)
    requires NoRepeats(keys) && Sorted(KeyLe, keys) && keys != [] && p.key == keys[|keys| - 1]
    requires InKeyOrder(patterns) && forall r | r in patterns :: r.key in keys[..|keys| - 1]
    ensures InKeyOrder(patterns + [p])
  {
    forall i | 0 <= i < |patterns| ensures KeyLe(patterns[i].key, p.key) && patterns[i].key != p.key {
      var j :| 0 <= j < |keys| - 1 && keys[j] == patterns[i].key;
    }
  }

  lemma PatternReports(c: Settings, w: Window, now: int, inside: seq<Event>, k: Key)
    requires ValidSettings(c) && |Group(inside, KeyOf, k)| >= c.minCount
    ensures Reports(PatternOf(c, w, now, k, Group(inside, KeyOf, k)), c, w, now, inside)
  {
    StrTotal();
    SortSorts(StrLe, Ids(Group(inside, KeyOf, k)));
  }
}
