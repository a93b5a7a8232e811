/** Exactly which join lists make push-down safe for every WHERE clause and database. */
module PushDownExact {
  import opened Prelude
  import opened SqlValues
  import opened SqlQuery
  import opened Joins
  import opened Chains
  import opened Pushing
  import opened ChainWitness
  import opened ChainCases
  import opened Draft
  import opened Loading
  import opened MapperWhere
  import opened WhereMeaning
  import opened MapperFrom
  import opened PushDown
  import opened PushDownTheorem
  import opened PushDownRuns
  import opened PushDownWitness

  /** The WHERE clause is one the draft can answer: its columns are found, and left over they mean their tables. */
  ghost predicate Answerable(e: Engine, db: Database, q: Query)
    requires MapFrom(q.base, q.joins).Ok?
  {
    FoundWhere(db, q) && LeftOversMean(e, db, q)
  }

  /** For this WHERE and database: if query and draft both run, the draft returns the query's rows. */
  ghost predicate Preserved(e: Engine, o: Oracle, db: Database, q: Query) {
    && MapStatement(q).Ok? && Accepted(db, q) && Answerable(e, db, q) && DraftRuns(e, db, MapStatement(q).value)
    ==> DraftRows(e, o, db, MapStatement(q).value) == QueryRows(o, db, q)
  }

  ghost predicate AlwaysPreserved(e: Engine, o: Oracle, base: FromItem, joins: seq<JoinNode>) {
    forall where: Option<Pred>, db: Database :: Preserved(e, o, db, Query(base, joins, where))
  }

  /** A condition on joins and table names alone. */
  predicate Safe(e: Engine, tables: seq<TableRef>, la: seq<Link>, lb: seq<Link>)
    requires |tables| == |la| + 1 == |lb| + 1
  {
    ChainSafe(la, lb) && NamesSafe(e, tables, lb)
  }

  lemma SafeIsPreserved(e: Engine, o: Oracle, db: Database, q: Query, la: seq<Link>, lb: seq<Link>)
    requires LinksOf(e, q, la, lb) && |la| == |q.joins|
    requires Joinable(e, QueryTables(q), la, lb) ==> Safe(e, QueryTables(q), la, lb)
    ensures Preserved(e, o, db, q)
  {
    if MapStatement(q).Ok? && Accepted(db, q) && Answerable(e, db, q) && DraftRuns(e, db, MapStatement(q).value) {
      var d := MapStatement(q).value;
      MappedParts(q, d);
      UnjoinableNeverRuns(e, db, q, d);
      SafeNamesLoadOwn(e, db, q, d);
      DraftRunsExactly(e, db, q, d);
      SafeChainIsSound(e, db, q, d);
      PushDownPreserves(e, o, db, q, d);
    }
  }

  // ---- without a WHERE clause ----

  /** A join list of distinct tables that can be joined and loads every table from the store. */
  ghost predicate Listed(e: Engine, base: FromItem, joins: seq<JoinNode>, la: seq<Link>, lb: seq<Link>) {
    var q := Query(base, joins, None);
    && LinksOf(e, q, la, lb) && |la| == |lb| == |q.joins| && Joinable(e, QueryTables(q), la, lb)
    && DistinctNames(QueryTables(q)) && Uncaptured(e, QueryTables(q))
  }

  function Fresh(js: seq<Link>): (c: string)
    ensures c !in AllKeys(js)
  {
    FirstFree("c", 0, AllKeys(js))
  }

  lemma {:induction false} NothingLeftOver(o: Oracle, e: Engine, js: seq<Link>, cols: seq<set<string>>, f: Filters,
                                           rows: seq<JoinedRow>)
    requires f.where == [] && f.groups == []
    ensures KeepAccepted(o, e, js, cols, f, rows) == rows
  {
    if rows != [] { NothingLeftOver(o, e, js, cols, f, rows[1..]); }
  }

  /** What a draft with no left-over filters returns. */
  lemma DraftReturns(e: Engine, o: Oracle, db: Database, q: Query, d: DraftSchema, la: seq<Link>, lb: seq<Link>)
    requires LinksOf(e, q, la, lb) && MapStatement(q) == Ok(d) && d.filters.where == [] && d.filters.groups == []
    requires Uncaptured(e, QueryTables(q))
    ensures var fs, rows := TableFilters(d.filters, QueryTables(q)), Rows(db, QueryTables(q));
            |rows| == |lb| + 1 && DraftRows(e, o, db, d) == Eval(KeySteps(lb), FilterTables(o, fs, rows))
  {
    UncapturedLoadsOwn(e, QueryTables(q), TableFilters(d.filters, QueryTables(q)));
    DraftLoadsOwn(e, o, db, q, d);
    var fs, rows := TableFilters(d.filters, QueryTables(q)), Rows(db, QueryTables(q));
    FromFaithful(e, o, db, q, FilterTables(o, fs, rows));
    var joined := Eval(KeySteps(lb), FilterTables(o, fs, rows));
    NothingLeftOver(o, e, lb, DraftCols(e, db, d), d.filters, joined);
  }

  lemma UncapturedLoadsOwn(e: Engine, tables: seq<TableRef>, fs: seq<TableFilter>)
    requires Uncaptured(e, tables) && |fs| == |tables|
    ensures LoadsOwn(e, tables, fs)
  {
    forall i: nat, j: nat | j < i < |tables| ensures !Captures(e, tables, i, j) { assert Captor(e, tables, i).None?; }
  }

  lemma NoFilters(o: Oracle, tables: seq<TableRef>, rows: seq<seq<Row>>)
    requires |rows| == |tables|
    ensures FilterTables(o, TableFilters(NO_FILTERS, tables), rows) == rows
  {
    forall i | 0 <= i < |rows| ensures FilterTables(o, TableFilters(NO_FILTERS, tables), rows)[i] == rows[i] {
      NoFilterKeepsAll(o, rows[i]);
    }
  }

  /** A query without WHERE: its draft runs wherever its joins do. */
  lemma UnfilteredRuns(e: Engine, db: Database, q: Query, la: seq<Link>, lb: seq<Link>)
    requires LinksOf(e, q, la, lb) && q.where.None? && Accepted(db, q) && |lb| == |q.joins|
    requires Uncaptured(e, QueryTables(q))
    requires CrossRuns(e, lb) && BareKeysAreOne(e, lb, Cols(db, QueryTables(q)))
    ensures MapStatement(q).Ok? && MapStatement(q).value.filters == NO_FILTERS
    ensures Answerable(e, db, q) && DraftRuns(e, db, MapStatement(q).value)
  {
    var d := MapStatement(q).value;
    UncapturedLoadsOwn(e, QueryTables(q), TableFilters(d.filters, QueryTables(q)));
    DraftRunsExactly(e, db, q, d);
  }

  lemma UnfilteredReturns(e: Engine, o: Oracle, db: Database, q: Query, la: seq<Link>, lb: seq<Link>,
                          cols: seq<set<string>>, t: seq<seq<Row>>)
    requires LinksOf(e, q, la, lb) && q.where.None? && MapStatement(q).Ok? && Holds(db, QueryTables(q), cols, t)
    requires MapStatement(q).value.filters == NO_FILTERS && Uncaptured(e, QueryTables(q))
    ensures |t| == |la| + 1 == |lb| + 1 && QueryRows(o, db, q) == Eval(KeySteps(la), t)
    ensures DraftRows(e, o, db, MapStatement(q).value) == Eval(KeySteps(lb), t)
  {
    QueryJoins(e, o, db, q, la, lb, cols, t);
    HeldIs(db, QueryTables(q), cols, t);
    DraftReturns(e, o, db, q, MapStatement(q).value, la, lb);
    NoFilters(o, QueryTables(q), t);
  }

  /** Tables on which the two chains differ make the query without WHERE a counterexample. */
  lemma ChainsDiffer(e: Engine, o: Oracle, base: FromItem, joins: seq<JoinNode>, la: seq<Link>, lb: seq<Link>,
                     t: seq<seq<Row>>)
    requires Listed(e, base, joins, la, lb)
    requires AllUnit(WitnessCols(lb, |lb| + 1, Fresh(lb)), t) && |la| == |lb|
             && Eval(KeySteps(la), t) != Eval(KeySteps(lb), t)
    ensures !AlwaysPreserved(e, o, base, joins)
  {
    var q := Query(base, joins, None);
    var db := WitnessRuns(e, q, la, lb, |lb| + 1, Fresh(lb), t);
    JoinedLinks(e, q, la, lb);
    UnfilteredRuns(e, db, q, la, lb);
    UnfilteredReturns(e, o, db, q, la, lb, WitnessCols(lb, |lb| + 1, Fresh(lb)), t);
    NotAlways(e, o, db, q);
  }

  // ---- a filter below a join that pads ----

  /** Join i pads its right side, table a. */
  predicate PaddedAt(q: Query, a: string, i: int) {
    0 <= i < |q.joins| && a == QueryTables(q)[i + 1].alias && (FoundKinds(q)[i].LeftOuter? || FoundKinds(q)[i].FullOuter?)
  }

  lemma {:induction false} NullableOnly(q: Query, a: string)
    requires MapFrom(q.base, q.joins).Ok? && NamedChain(q) && a in MapFrom(q.base, q.joins).value.nullable
    ensures a == QueryTables(q)[0].alias || exists i :: PaddedAt(q, a, i)
    decreases |q.joins|
  {
    if q.joins != [] {
      var n := |q.joins| - 1;
      NullableStep(q);
      if a in MapFrom(q.base, q.joins[..n]).value.nullable {
        NullableOnly(Prefix(q, n), a);
        if a != QueryTables(q)[0].alias {
          var i :| PaddedAt(Prefix(q, n), a, i);
          assert PaddedAt(q, a, i);
        }
      } else if a != QueryTables(q)[0].alias {
        assert PaddedAt(q, a, n);
      }
    }
  }

  /** `a.c IS NULL`. */
  function NullTest(a: string, c: string): Pred { Is(Column(Ref(Some(a), c)), NullLiteral) }

  lemma NullTestAtom(a: string, c: string, tables: seq<TableRef>)
    ensures MapAtom(NullTest(a, c), tables) == Some(Placed(Some(a), Filter(c, IsNull)))
  {
    SoleQualifier(Ref(Some(a), c));
    assert Refs(NullTest(a, c)) == [Ref(Some(a), c)];
  }

  lemma FirstFilter(a: string, x: Filter, tables: seq<TableRef>, nullable: set<string>)
    requires Pushable(a, tables, nullable)
    ensures PlaceFilter(NO_FILTERS, Placed(Some(a), x), tables, nullable) == Filters([], [], map[a := [x]], map[])
  {
    assert FiltersOn(NO_FILTERS, a) + [x] == [x];
  }

  lemma NullTestMapped(a: string, c: string, tables: seq<TableRef>, nullable: set<string>)
    requires Pushable(a, tables, nullable)
    ensures MapWhere(Some(NullTest(a, c)), tables, nullable) == Ok(Filters([], [], map[a := [Filter(c, IsNull)]], map[]))
  {
    NullTestAtom(a, c, tables);
    FirstFilter(a, Filter(c, IsNull), tables, nullable);
    OneConjunct(NullTest(a, c), tables, nullable);
    assert TopConjuncts(NullTest(a, c)) == [NullTest(a, c)];
  }

  lemma OneConjunct(c: Pred, tables: seq<TableRef>, nullable: set<string>)
    ensures MapConjuncts([c], tables, nullable) == MapConjunct(c, Progress(NO_FILTERS, false), tables, nullable)
  {
    assert [c][..0] == [];
  }

  predicate ShowsRight(k: Kind) { k.Inner? || k.Cross? || k.RightOuter? }

  /** The query with the test on the right table of join p, which may carry filters. */
  ghost predicate IsNullQuery(q: Query, p: nat, c: string) {
    && MapFrom(q.base, q.joins).Ok? && NamedChain(q) && p < |q.joins| && ShowsRight(FoundKinds(q)[p])
    && q.where == Some(NullTest(QueryTables(q)[p + 1].alias, c))
  }

  function NullFilters(a: string, c: string): Filters { Filters([], [], map[a := [Filter(c, IsNull)]], map[]) }

  lemma NotPadded(q: Query, p: nat)
    requires MapFrom(q.base, q.joins).Ok? && NamedChain(q) && p < |q.joins| && ShowsRight(FoundKinds(q)[p])
    ensures QueryTables(q)[p + 1].alias !in MapFrom(q.base, q.joins).value.nullable
  {
    var a := QueryTables(q)[p + 1].alias;
    forall i ensures !PaddedAt(q, a, i) {
      var k := i + 1;
      if 0 < k <= |q.joins| { assert QueryTables(q)[k].alias == a ==> k == p + 1; }
    }
    if a in MapFrom(q.base, q.joins).value.nullable { NullableOnly(q, a); }
  }

  lemma NullTestMovesTo(a: string, c: string, tables: seq<TableRef>, nullable: set<string>)
    requires Pushable(a, tables, nullable)
    ensures MovesTo(NullTest(a, c), tables, nullable) == Some(a) && TopConjuncts(NullTest(a, c)) == [NullTest(a, c)]
  {
    NullTestAtom(a, c, tables);
    assert MapAtom(NullTest(a, c), tables).value.alias == PredicateAlias(NullTest(a, c), tables);
  }

  /** The test moves to its table. */
  lemma NullTestMoves(q: Query, p: nat, c: string)
    requires IsNullQuery(q, p, c)
    ensures var m := MapFrom(q.base, q.joins).value;
            forall x | x in TopConjuncts(q.where.value) :: MovesTo(x, m.tables, m.nullable).Some?
  {
    MapFromShape(q);
    NotPadded(q, p);
    assert Aliases(QueryTables(q))[p + 1] == QueryTables(q)[p + 1].alias;
    NullTestMovesTo(QueryTables(q)[p + 1].alias, c, QueryTables(q), MapFrom(q.base, q.joins).value.nullable);
  }

  lemma NullQueryMapped(q: Query, p: nat, c: string)
    requires IsNullQuery(q, p, c)
    ensures var m := MapFrom(q.base, q.joins).value;
            && MapStatement(q) == Ok(DraftSchema(m.tables, m.joins, NullFilters(QueryTables(q)[p + 1].alias, c)))
            && m.tables == QueryTables(q) && |m.joins| == |q.joins|
  {
    MapFromShape(q);
    var m := MapFrom(q.base, q.joins).value;
    var a := QueryTables(q)[p + 1].alias;
    NotPadded(q, p);
    assert Aliases(m.tables)[p + 1] == a;
    NullTestMapped(a, c, m.tables, m.nullable);
  }

  lemma NullTestResolved(db: Database, q: Query, p: nat, c: string, cols: seq<set<string>>, t: seq<seq<Row>>)
    requires IsNullQuery(q, p, c) && Holds(db, QueryTables(q), cols, t)
    requires c in cols[p + 1] && forall i | 0 <= i < |cols| && i != p + 1 :: c !in cols[i]
    ensures FoundWhere(db, q) && GroupsFit(db, q)
  {
    var tables, kinds := QueryTables(q), QueryKinds(q);
    var s, ref := FinalScope(db, tables, kinds), Ref(Some(tables[p + 1].alias), c);
    assert Refs(q.where.value) == [ref];
    FoundKind(q, p);
    assert !Hidden(kinds, p + 1);
    HeldIs(db, tables, cols, t);
    assert OwnedBy(s, c, p + 1) by {
      forall i | 0 <= i < |s.cols| && i != p + 1
        ensures c !in s.cols[i] { assert RelationOf(db, tables[i]).cols == cols[i]; }
    }
    assert AliasAt(s, tables[p + 1].alias, p + 1) by {
      forall j | 0 <= j < |s.aliases| && j != p + 1 ensures s.aliases[j] != tables[p + 1].alias {
        assert s.aliases[j] == tables[j].alias;
      }
    }
    assert Found(s, ref, |tables|);
    assert TopConjuncts(q.where.value) == [q.where.value];
  }

  lemma IsNullRejects(o: Oracle, s: Scope, l: JoinedRow, a: string, c: string, i: nat)
    requires AliasAt(s, a, i) && i < |l| && Get(RowOf(l[i]), c).Val?
    ensures EvalPred(o, s, l, NullTest(a, c)) != True
  {
    LookupAt(s, l, Ref(Some(a), c), i);
  }

  /** On every row the column of table i has a value. */
  predicate HasValue(rows: seq<JoinedRow>, i: nat, c: string) {
    forall l | l in rows :: i < |l| && Get(RowOf(l[i]), c).Val?
  }

  /** Where the column has a value on every row, nothing is kept. */
  lemma {:induction false} NullTestKeepsNone(o: Oracle, s: Scope, a: string, c: string, i: nat, rows: seq<JoinedRow>)
    requires AliasAt(s, a, i) && HasValue(rows, i, c)
    ensures KeepTrue(o, s, NullTest(a, c), rows) == []
  {
    if rows != [] {
      assert rows[0] in rows;
      IsNullRejects(o, s, rows[0], a, c, i);
      NullTestKeepsNone(o, s, a, c, i, rows[1..]);
    }
  }

  lemma FullRowsHave(la: seq<Link>, cols: seq<set<string>>, t: seq<seq<Row>>, p: nat, c: string)
    requires p < |la| && Full(la, cols, t) && ShowsRight(la[p].kind) && c in cols[p + 1]
    ensures HasValue(Eval(KeySteps(la), t), p + 1, c)
  {
    AllShow(la, cols, t, p);
  }

  /** What the query joins. */
  lemma QueryJoins(e: Engine, o: Oracle, db: Database, q: Query, la: seq<Link>, lb: seq<Link>, cols: seq<set<string>>,
                   t: seq<seq<Row>>)
    requires LinksOf(e, q, la, lb) && Holds(db, QueryTables(q), cols, t)
    ensures |t| == |la| + 1 && Eval(QuerySteps(o, db, q), Rows(db, QueryTables(q))) == Eval(KeySteps(la), t)
  {
    HeldIs(db, QueryTables(q), cols, t);
    FromFaithful(e, o, db, q, t);
  }

  lemma JoinedRejected(o: Oracle, db: Database, q: Query, a: string, c: string, i: nat, rows: seq<JoinedRow>)
    requires q.where == Some(NullTest(a, c)) && AliasAt(FinalScope(db, QueryTables(q), QueryKinds(q)), a, i)
    requires rows == Eval(QuerySteps(o, db, q), Rows(db, QueryTables(q))) && HasValue(rows, i, c)
    ensures QueryRows(o, db, q) == []
  {
    NullTestKeepsNone(o, FinalScope(db, QueryTables(q), QueryKinds(q)), a, c, i, rows);
  }

  lemma TableAliasAt(db: Database, q: Query, i: nat)
    requires NamedChain(q) && i <= |q.joins|
    ensures AliasAt(FinalScope(db, QueryTables(q), QueryKinds(q)), QueryTables(q)[i].alias, i)
  {
  }

  /** The query keeps nothing: every joined row has a value in the filtered column. */
  lemma NullQueryIsEmpty(e: Engine, o: Oracle, db: Database, q: Query, la: seq<Link>, lb: seq<Link>, p: nat, c: string,
                         cols: seq<set<string>>, t: seq<seq<Row>>)
    requires LinksOf(e, q, la, lb) && IsNullQuery(q, p, c) && Holds(db, QueryTables(q), cols, t) && |t| == |la| + 1
    requires HasValue(Eval(KeySteps(la), t), p + 1, c)
    ensures QueryRows(o, db, q) == []
  {
    QueryJoins(e, o, db, q, la, lb, cols, t);
    TableAliasAt(db, q, p + 1);
    JoinedRejected(o, db, q, QueryTables(q)[p + 1].alias, c, p + 1, Eval(KeySteps(la), t));
  }

  /** The filter leaves the other tables as they are, and nothing of its own. */
  lemma NullFiltered(o: Oracle, tables: seq<TableRef>, p: nat, c: string, cols: seq<set<string>>, t: seq<seq<Row>>)
    requires |cols| == |t| == |tables| && p + 1 < |tables| && AllUnit(cols, t) && c in cols[p + 1]
    requires forall i, j | 0 <= i < j < |tables| :: tables[i].alias != tables[j].alias
    ensures var r := FilterTables(o, TableFilters(NullFilters(tables[p + 1].alias, c), tables), t);
            r[p + 1] == [] && forall i | 0 <= i < |t| && i != p + 1 :: r[i] == t[i]
  {
    var fs := TableFilters(NullFilters(tables[p + 1].alias, c), tables);
    forall i | 0 <= i < |t| && i != p + 1 ensures FilterTables(o, fs, t)[i] == t[i] {
      assert fs[i] == NO_FILTER;
      NoFilterKeepsAll(o, t[i]);
    }
    if t[p + 1] != [] {
      var u := UnitRow(cols[p + 1]);
      assert Filter(c, IsNull) in fs[p + 1].filters && Get(u, c) == Val("1");
      assert !Accepts(o, fs[p + 1], u);
      assert FilterRows(o, fs[p + 1], [u][1..]) == [];
    }
  }

  /** With the test pushed down, the row is left that the lasting join makes when its left side is empty. */
  lemma PushedRowLeft(o: Oracle, lb: seq<Link>, tables: seq<TableRef>, p: nat, n: nat, c: string, cols: seq<set<string>>,
                      t: seq<seq<Row>>)
    requires |cols| == |t| == |tables| == |lb| + 1
    requires forall i, j | 0 <= i < j < |tables| :: tables[i].alias != tables[j].alias
    requires ValidLinks(lb) && Keyed(lb, cols) && AllUnit(cols, t) && AntisEmpty(lb, t, 0)
    requires p < n < |lb| && c in cols[p + 1] && Pads(lb[n].kind) && !Doomed(lb, n + 1) && ShowsRight(lb[p].kind)
    ensures Eval(KeySteps(lb), FilterTables(o, TableFilters(NullFilters(tables[p + 1].alias, c), tables), t)) != []
  {
    NullFiltered(o, tables, p, c, cols, t);
    PushedKeepsRow(lb, cols, FilterTables(o, TableFilters(NullFilters(tables[p + 1].alias, c), tables), t), p, n);
  }

  lemma NullDraftIsNotEmpty(e: Engine, o: Oracle, db: Database, q: Query, d: DraftSchema, la: seq<Link>, lb: seq<Link>,
                            p: nat, c: string, cols: seq<set<string>>, t: seq<seq<Row>>)
    requires LinksOf(e, q, la, lb) && IsNullQuery(q, p, c) && Holds(db, QueryTables(q), cols, t)
    requires MapStatement(q) == Ok(d) && |lb| == |q.joins| && Uncaptured(e, QueryTables(q))
    requires var fs := TableFilters(NullFilters(QueryTables(q)[p + 1].alias, c), QueryTables(q));
             Eval(KeySteps(lb), FilterTables(o, fs, t)) != []
    ensures DraftRows(e, o, db, d) != []
  {
    NullQueryMapped(q, p, c);
    HeldIs(db, QueryTables(q), cols, t);
    DraftReturns(e, o, db, q, d, la, lb);
  }

  /** A filter may be pushed below a right or full join whose rows last. */
  lemma PushedBelowLasting(e: Engine, o: Oracle, base: FromItem, joins: seq<JoinNode>, la: seq<Link>, lb: seq<Link>,
                           p: nat, n: nat)
    requires Listed(e, base, joins, la, lb) && Related(la, lb)
    requires n < |lb| && Outlasts(lb, n, p)
    ensures !AlwaysPreserved(e, o, base, joins)
  {
    var q0, c := Query(base, joins, None), Fresh(lb);
    JoinedLinks(e, q0, la, lb);
    var q := Query(base, joins, Some(NullTest(QueryTables(q0)[p + 1].alias, c)));
    assert QueryTables(q) == QueryTables(q0) && FoundKinds(q) == FoundKinds(q0);
    assert SameLink(la[p], lb[p]);
    NullCounterexample(e, o, q, la, lb, p, n, c);
  }

  /** The rows of the counterexample: one in every table, but for those of anti joins. */
  function NullTables(lb: seq<Link>, p: nat, c: string): (t: seq<seq<Row>>)
    ensures |t| == |lb| + 1
  {
    UnitTables(WitnessCols(lb, p + 1, c), 0, Antis(lb) + {})
  }

  lemma NullAllUnit(lb: seq<Link>, p: nat, c: string)
    ensures AllUnit(WitnessCols(lb, p + 1, c), NullTables(lb, p, c))
  {
  }

  lemma NullTablesFacts(lb: seq<Link>, p: nat, c: string)
    requires ValidLinks(lb)
    ensures var cols, t := WitnessCols(lb, p + 1, c), NullTables(lb, p, c);
            Keyed(lb, cols) && AllUnit(cols, t) && t[0] != [] && AntisEmpty(lb, t, 0)
  {
    KeyedCols(lb, p + 1, c);
    WitnessTables(lb, WitnessCols(lb, p + 1, c), 0, {});
  }

  /** Every row of the query has a value in the filtered column. */
  lemma QueryHasValue(la: seq<Link>, lb: seq<Link>, p: nat, c: string)
    requires Joined(la, lb) && p < |la| && ShowsRight(la[p].kind)
    ensures HasValue(Eval(KeySteps(la), NullTables(lb, p, c)), p + 1, c)
  {
    NullTablesFacts(lb, p, c);
    FullForQuery(la, lb, WitnessCols(lb, p + 1, c), NullTables(lb, p, c));
    FullRowsHave(la, WitnessCols(lb, p + 1, c), NullTables(lb, p, c), p, c);
  }

  /** The draft is left with a row. */
  lemma DraftHasRow(o: Oracle, tables: seq<TableRef>, lb: seq<Link>, p: nat, n: nat, c: string)
    requires ValidLinks(lb) && |tables| == |lb| + 1 && DistinctAliases(tables)
    requires p < n < |lb| && Pads(lb[n].kind) && !Doomed(lb, n + 1) && ShowsRight(lb[p].kind)
    ensures var fs := TableFilters(NullFilters(tables[p + 1].alias, c), tables);
            Eval(KeySteps(lb), FilterTables(o, fs, NullTables(lb, p, c))) != []
  {
    NullTablesFacts(lb, p, c);
    PushedRowLeft(o, lb, tables, p, n, c, WitnessCols(lb, p + 1, c), NullTables(lb, p, c));
  }

  /** The draft of the test runs on the witness columns. */
  lemma NullDraftRuns(e: Engine, db: Database, q: Query, la: seq<Link>, lb: seq<Link>, p: nat, c: string,
                      t: seq<seq<Row>>)
    requires LinksOf(e, q, la, lb) && IsNullQuery(q, p, c) && |lb| == |q.joins| && c !in AllKeys(lb)
    requires Holds(db, QueryTables(q), WitnessCols(lb, p + 1, c), t) && Accepted(db, q)
    requires CrossRuns(e, lb) && BareKeysAreOne(e, lb, Cols(db, QueryTables(q))) && Uncaptured(e, QueryTables(q))
    ensures MapStatement(q).Ok? && Answerable(e, db, q) && DraftRuns(e, db, MapStatement(q).value)
  {
    var cols := WitnessCols(lb, p + 1, c);
    NullQueryMapped(q, p, c);
    NullTestMoves(q, p, c);
    UncapturedLoadsOwn(e, QueryTables(q), TableFilters(MapStatement(q).value.filters, QueryTables(q)));
    forall i | 0 <= i < |cols| && i != p + 1 ensures c !in cols[i] {
      assert c in KeyCols(lb, i) ==> c in AllKeys(lb);
    }
    NullTestResolved(db, q, p, c, cols, t);
    DraftRunsExactly(e, db, q, MapStatement(q).value);
  }

  lemma NullQueryFails(e: Engine, o: Oracle, q: Query, la: seq<Link>, lb: seq<Link>, p: nat, c: string, db: Database)
    requires LinksOf(e, q, la, lb) && Joined(la, lb) && IsNullQuery(q, p, c) && |la| == |q.joins|
             && ShowsRight(la[p].kind)
    requires Holds(db, QueryTables(q), WitnessCols(lb, p + 1, c), NullTables(lb, p, c))
    ensures QueryRows(o, db, q) == []
  {
    QueryHasValue(la, lb, p, c);
    NullQueryIsEmpty(e, o, db, q, la, lb, p, c, WitnessCols(lb, p + 1, c), NullTables(lb, p, c));
  }

  lemma QueryAliases(q: Query)
    requires NamedChain(q)
    ensures DistinctAliases(QueryTables(q))
  {
  }

  lemma NullDraftFails(e: Engine, o: Oracle, q: Query, la: seq<Link>, lb: seq<Link>, p: nat, n: nat, c: string,
                       db: Database)
    requires LinksOf(e, q, la, lb) && ValidLinks(lb) && IsNullQuery(q, p, c) && |lb| == |q.joins|
    requires Holds(db, QueryTables(q), WitnessCols(lb, p + 1, c), NullTables(lb, p, c)) && Uncaptured(e, QueryTables(q))
    requires MapStatement(q).Ok? && p < n < |lb| && Pads(lb[n].kind) && !Doomed(lb, n + 1) && ShowsRight(lb[p].kind)
    ensures DraftRows(e, o, db, MapStatement(q).value) != []
  {
    QueryAliases(q);
    DraftHasRow(o, QueryTables(q), lb, p, n, c);
    NullDraftIsNotEmpty(e, o, db, q, MapStatement(q).value, la, lb, p, c, WitnessCols(lb, p + 1, c), NullTables(lb, p, c));
  }

  lemma NullDatabase(e: Engine, q: Query, la: seq<Link>, lb: seq<Link>, p: nat, c: string) returns (db: Database)
    requires LinksOf(e, q, la, lb) && |la| == |lb| == |q.joins| && Joinable(e, QueryTables(q), la, lb)
    requires DistinctNames(QueryTables(q)) && Uncaptured(e, QueryTables(q)) && c !in AllKeys(lb)
    ensures Holds(db, QueryTables(q), WitnessCols(lb, p + 1, c), NullTables(lb, p, c)) && Accepted(db, q)
    ensures CrossRuns(e, lb) && BareKeysAreOne(e, lb, Cols(db, QueryTables(q)))
  {
    NullAllUnit(lb, p, c);
    db := WitnessRuns(e, q, la, lb, p + 1, c, NullTables(lb, p, c));
  }

  lemma NullRuns(e: Engine, q: Query, la: seq<Link>, lb: seq<Link>, p: nat, c: string) returns (db: Database)
    requires LinksOf(e, q, la, lb) && |la| == |lb| == |q.joins| && Joinable(e, QueryTables(q), la, lb) && ValidLinks(lb)
    requires DistinctNames(QueryTables(q)) && Uncaptured(e, QueryTables(q)) && IsNullQuery(q, p, c) && c !in AllKeys(lb)
    ensures Holds(db, QueryTables(q), WitnessCols(lb, p + 1, c), NullTables(lb, p, c)) && Accepted(db, q)
    ensures MapStatement(q).Ok? && Answerable(e, db, q) && DraftRuns(e, db, MapStatement(q).value)
  {
    db := NullDatabase(e, q, la, lb, p, c);
    NullDraftRuns(e, db, q, la, lb, p, c, NullTables(lb, p, c));
  }

  lemma NullCounterexample(e: Engine, o: Oracle, q: Query, la: seq<Link>, lb: seq<Link>, p: nat, n: nat, c: string)
    requires LinksOf(e, q, la, lb) && |la| == |lb| == |q.joins| && Joinable(e, QueryTables(q), la, lb)
    requires DistinctNames(QueryTables(q)) && Uncaptured(e, QueryTables(q)) && IsNullQuery(q, p, c) && c !in AllKeys(lb)
    requires p < n < |lb| && Pads(lb[n].kind) && !Doomed(lb, n + 1) && ShowsRight(lb[p].kind) && ShowsRight(la[p].kind)
    requires Joined(la, lb)
    ensures !AlwaysPreserved(e, o, q.base, q.joins)
  {
    var db := NullRuns(e, q, la, lb, p, c);
    NullQueryFails(e, o, q, la, lb, p, c, db);
    NullDraftFails(e, o, q, la, lb, p, n, c, db);
    NotAlways(e, o, db, q);
  }

  lemma NotAlways(e: Engine, o: Oracle, db: Database, q: Query)
    requires !Preserved(e, o, db, q)
    ensures !AlwaysPreserved(e, o, q.base, q.joins)
  {
    assert q == Query(q.base, q.joins, q.where);
  }

  lemma FullForQuery(la: seq<Link>, lb: seq<Link>, cols: seq<set<string>>, t: seq<seq<Row>>)
    requires Joined(la, lb) && Keyed(lb, cols) && AllUnit(cols, t) && t[0] != [] && AntisEmpty(lb, t, 0)
    ensures Full(la, cols, t)
  {
    KeyedForQuery(la, lb, cols);
  }

  lemma KeyedForQuery(la: seq<Link>, lb: seq<Link>, cols: seq<set<string>>)
    requires Joined(la, lb) && Keyed(lb, cols)
    ensures Keyed(la, cols)
  {
    forall m | 0 <= m < |la| && !la[m].kind.Cross?
      ensures (forall k | k in la[m].left :: k in cols[0]) && forall k | k in la[m].right :: k in cols[m + 1]
    {
      assert la[m].left == lb[m].left;
    }
  }

  // ---- the theorem ----

  /** The columns of the counterexamples without WHERE. */
  lemma PlainCols(la: seq<Link>, lb: seq<Link>) returns (cols: seq<set<string>>)
    requires Joined(la, lb)
    ensures cols == WitnessCols(lb, |lb| + 1, Fresh(lb)) && Keyed(la, cols)
  {
    cols := WitnessCols(lb, |lb| + 1, Fresh(lb));
    KeyedCols(lb, |lb| + 1, Fresh(lb));
    KeyedForQuery(la, lb, cols);
  }

  /** A left join that became inner loses the left rows without a partner. */
  lemma LeftIsLost(e: Engine, o: Oracle, base: FromItem, joins: seq<JoinNode>, la: seq<Link>, lb: seq<Link>, m: nat)
    requires Listed(e, base, joins, la, lb) && Joined(la, lb)
    requires m < |la| && la[m].kind.LeftOuter? && lb[m].kind.Inner?
    ensures !AlwaysPreserved(e, o, base, joins)
  {
    var cols := PlainCols(la, lb);
    var t := LeftTables(la, lb, cols, m);
    ChainsDiffer(e, o, base, joins, la, lb, t);
  }

  lemma LeftTables(la: seq<Link>, lb: seq<Link>, cols: seq<set<string>>, m: nat) returns (t: seq<seq<Row>>)
    requires Joined(la, lb) && Keyed(la, cols) && m < |la| && la[m].kind.LeftOuter? && lb[m].kind.Inner?
    ensures AllUnit(cols, t) && Eval(KeySteps(la), t) != Eval(KeySteps(lb), t)
  {
    t := UnitTables(cols, 0, Antis(la) + {m + 1});
    LostLeftShows(la, lb, cols, m);
    WitnessTables(la, cols, 0, {m + 1});
  }

  /** A right join that became inner loses the right rows without a partner, unless a later join drops them. */
  lemma RightIsLost(e: Engine, o: Oracle, base: FromItem, joins: seq<JoinNode>, la: seq<Link>, lb: seq<Link>, m: nat)
    requires Listed(e, base, joins, la, lb) && Joined(la, lb)
    requires m < |la| && Pads(la[m].kind) && !Pads(lb[m].kind) && !Doomed(la, m + 1)
    ensures !AlwaysPreserved(e, o, base, joins)
  {
    var cols := PlainCols(la, lb);
    var t := RightTables(la, lb, cols, m);
    ChainsDiffer(e, o, base, joins, la, lb, t);
  }

  lemma RightTables(la: seq<Link>, lb: seq<Link>, cols: seq<set<string>>, m: nat) returns (t: seq<seq<Row>>)
    requires Joined(la, lb) && Keyed(la, cols)
    requires m < |la| && Pads(la[m].kind) && !Pads(lb[m].kind) && !Doomed(la, m + 1)
    ensures AllUnit(cols, t) && Eval(KeySteps(la), t) != Eval(KeySteps(lb), t)
  {
    t := PaddingTables(la, cols, m);
    LostRightShows(la, lb, cols, m);
    PaddingFacts(la, cols, m);
  }

  /** The draft's merged keys match rows that the query's do not. */
  lemma LeakIsLost(e: Engine, o: Oracle, base: FromItem, joins: seq<JoinNode>, la: seq<Link>, lb: seq<Link>, n: nat)
    requires Listed(e, base, joins, la, lb) && Joined(la, lb) && Related(la, lb)
    requires n < |la| && Leaks(la, lb, n)
    ensures !AlwaysPreserved(e, o, base, joins)
  {
    var cols := PlainCols(la, lb);
    var t := LeakTables(la, lb, cols, n);
    ChainsDiffer(e, o, base, joins, la, lb, t);
  }

  lemma LeakTables(la: seq<Link>, lb: seq<Link>, cols: seq<set<string>>, n: nat) returns (t: seq<seq<Row>>)
    requires Joined(la, lb) && Related(la, lb) && Keyed(la, cols)
    requires n < |la| && Pads(lb[n].kind) && !Doomed(lb, n + 1) && !NoLeak(la, lb, n + 1)
    ensures AllUnit(cols, t) && Eval(KeySteps(la), t) != Eval(KeySteps(lb), t)
  {
    if OnlyAntiLeaks(la, lb, n + 1) {
      var m: nat :| n + 1 <= m < |la| && Carries(lb, n + 1, m) && !Carries(la, n + 1, m);
      t := AntiTables(lb, cols, n, m);
      AntiLeakShows(la, lb, cols, n, m);
      AntiTablesFacts(lb, cols, n, m);
    } else {
      var m: nat :| n + 1 <= m < |la| && Carries(lb, n + 1, m) && !Carries(la, n + 1, m) && !lb[m].kind.LeftAnti?;
      t := PaddingTables(lb, cols, n);
      LeakShows(la, lb, cols, n, m);
      PaddingFacts(lb, cols, n);
    }
  }

  /** The three ways a join does harm. */
  predicate LosesRight(la: seq<Link>, lb: seq<Link>, n: nat)
    requires n < |la| == |lb|
  {
    Pads(la[n].kind) && !Pads(lb[n].kind) && !Doomed(la, n + 1)
  }

  predicate Leaks(la: seq<Link>, lb: seq<Link>, n: nat)
    requires n < |la| == |lb|
  {
    Pads(lb[n].kind) && !Doomed(lb, n + 1) && !NoLeak(la, lb, n + 1)
  }

  predicate Outlasts(lb: seq<Link>, n: nat, p: nat)
    requires n < |lb|
  {
    p < n && Pads(lb[n].kind) && !Doomed(lb, n + 1) && ShowsRight(lb[p].kind)
  }

  lemma HarmOf(la: seq<Link>, lb: seq<Link>, x: nat) returns (p: nat)
    requires |la| == |lb| && 1 <= x <= |la| && !HarmlessAt(la, lb, x)
    ensures LosesRight(la, lb, x - 1) || Leaks(la, lb, x - 1) || Outlasts(lb, x - 1, p)
  {
    p := 0;
    if !NothingPushedBefore(lb, x) { p :| p < x - 1 && ShowsRight(lb[p].kind); }
  }

  lemma HarmIsDone(e: Engine, o: Oracle, base: FromItem, joins: seq<JoinNode>, la: seq<Link>, lb: seq<Link>, n: nat,
                   p: nat)
    requires Listed(e, base, joins, la, lb) && Joined(la, lb) && Related(la, lb) && n < |la|
    requires LosesRight(la, lb, n) || Leaks(la, lb, n) || Outlasts(lb, n, p)
    ensures !AlwaysPreserved(e, o, base, joins)
  {
    if LosesRight(la, lb, n) {
      RightIsLost(e, o, base, joins, la, lb, n);
    } else if Leaks(la, lb, n) {
      LeakIsLost(e, o, base, joins, la, lb, n);
    } else {
      PushedBelowLasting(e, o, base, joins, la, lb, p, n);
    }
  }

  predicate DoesHarm(la: seq<Link>, lb: seq<Link>, n: nat, p: nat)
    requires |la| == |lb|
  {
    n < |la| && (LosesRight(la, lb, n) || Leaks(la, lb, n) || Outlasts(lb, n, p))
  }

  lemma SomeHarm(la: seq<Link>, lb: seq<Link>) returns (n: nat, p: nat)
    requires Related(la, lb) && !ChainSafe(la, lb)
    ensures DoesHarm(la, lb, n, p)
  {
    var x: nat :| 1 <= x <= |la| && !HarmlessAt(la, lb, x);
    n := x - 1;
    p := HarmOf(la, lb, x);
  }

  lemma SomeLostLeft(la: seq<Link>, lb: seq<Link>) returns (m: nat)
    requires Joined(la, lb) && !Related(la, lb)
    ensures m < |la| && la[m].kind.LeftOuter? && lb[m].kind.Inner?
  {
    m :| m < |la| && !SameLink(la[m], lb[m]);
  }

  lemma HarmHappens(e: Engine, o: Oracle, base: FromItem, joins: seq<JoinNode>, la: seq<Link>, lb: seq<Link>)
    requires Listed(e, base, joins, la, lb) && Joined(la, lb) && !ChainSafe(la, lb)
    ensures !AlwaysPreserved(e, o, base, joins)
  {
    if Related(la, lb) {
      var n, p := SomeHarm(la, lb);
      HarmIsDone(e, o, base, joins, la, lb, n, p);
    } else {
      var m := SomeLostLeft(la, lb);
      LeftIsLost(e, o, base, joins, la, lb, m);
    }
  }

  // ---- a table read under an earlier alias ----

  lemma {:induction false} RootIsFree(e: Engine, tables: seq<TableRef>, i: nat)
    requires i < |tables|
    ensures Captor(e, tables, Root(e, tables, i)).None?
    decreases i
  {
    var j := Captor(e, tables, i);
    if j.Some? { RootIsFree(e, tables, j.value); }
  }

  lemma NeedsHaveKeys(e: Engine, tables: seq<TableRef>, js: seq<Link>, i: nat)
    requires |tables| == |js| + 1 && i < |tables|
    ensures KeyCols(js, i) <= QueryNeeds(e, tables, js)[i] && KeyCols(js, i) <= DraftNeeds(e, tables, js)[i]
  {
  }

  /** On columns that hold the keys, the key columns are there. */
  lemma HeldKeysAreThere(js: seq<Link>, cols: seq<set<string>>)
    requires |cols| == |js| + 1 && ValidLinks(js) && forall i | 0 <= i < |cols| :: KeyCols(js, i) <= cols[i]
    ensures Keyed(js, cols) && forall m: nat | m < |js| :: KeysThere(js[m], cols, m)
  {
    KeyedCols(js, |js| + 1, "");
    var own := WitnessCols(js, |js| + 1, "");
    assert forall i | 0 <= i < |cols| :: own[i] <= cols[i];
    forall m: nat | m < |js| ensures KeysThere(js[m], cols, m) { assert KeysThere(js[m], own, m); }
  }

  /** The draft without filters runs where its keys are there, whatever is read from where. */
  lemma UnfilteredDraftRuns(e: Engine, db: Database, q: Query, d: DraftSchema)
    requires MapStatement(q) == Ok(d) && NamedChain(q) && d.filters == NO_FILTERS && |d.joins| == |q.joins|
    requires JoinsRun(e, DraftLinks(e, d.joins), DraftCols(e, db, d))
    ensures DraftRuns(e, db, d)
  {
    DraftOrder(q, d);
    assert forall f :: !LeftOver(NO_FILTERS, f);
    forall i: nat | i < |d.tables| ensures TableFilterRuns(e, db, d.tables, d.filters, i) {
      assert TableFilterOn(d.filters, d.tables[i].alias) == NO_FILTER;
    }
  }

  /** On the needed columns the query is accepted and its draft runs. */
  lemma CapturedRuns(e: Engine, q: Query, la: seq<Link>, lb: seq<Link>, t: seq<seq<Row>>) returns (db: Database)
    requires LinksOf(e, q, la, lb) && |la| == |lb| == |q.joins| && Joinable(e, QueryTables(q), la, lb) && q.where.None?
    requires DistinctNames(QueryTables(q)) && AllUnit(QueryNeeds(e, QueryTables(q), lb), t)
    ensures Holds(db, QueryTables(q), QueryNeeds(e, QueryTables(q), lb), t) && Accepted(db, q)
    ensures MapStatement(q).Ok? && Answerable(e, db, q) && DraftRuns(e, db, MapStatement(q).value)
  {
    JoinedLinks(e, q, la, lb);
    var tables := QueryTables(q);
    var cols := QueryNeeds(e, tables, lb);
    db := SomeDatabase(tables, cols, t);
    forall i | 0 <= i < |cols| ensures KeyCols(lb, i) <= cols[i] { NeedsHaveKeys(e, tables, lb, i); }
    HeldKeysAreThere(lb, cols);
    HeldIsAccepted(e, q, la, lb, cols, t, db);
    CapturedDraftRuns(e, q, la, lb, t, db);
  }

  lemma CapturedDraftRuns(e: Engine, q: Query, la: seq<Link>, lb: seq<Link>, t: seq<seq<Row>>, db: Database)
    requires LinksOf(e, q, la, lb) && Joined(la, lb) && |lb| == |q.joins| && Joinable(e, QueryTables(q), la, lb)
    requires q.where.None? && Holds(db, QueryTables(q), QueryNeeds(e, QueryTables(q), lb), t)
    ensures MapStatement(q).Ok? && DraftRuns(e, db, MapStatement(q).value)
  {
    var d, tables := MapStatement(q).value, QueryTables(q);
    DraftColumns(e, db, q, d);
    forall i | 0 <= i < |tables| ensures DraftCols(e, db, d)[i] == DraftNeeds(e, tables, lb)[i] {
      assert RelationOf(db, tables[Root(e, tables, i)]).cols == QueryNeeds(e, tables, lb)[Root(e, tables, i)];
    }
    assert DraftCols(e, db, d) == DraftNeeds(e, tables, lb);
    forall i | 0 <= i < |tables| ensures KeyCols(lb, i) <= DraftNeeds(e, tables, lb)[i] {
      NeedsHaveKeys(e, tables, lb, i);
    }
    HeldKeysAreThere(lb, DraftNeeds(e, tables, lb));
    UnfilteredDraftRuns(e, db, q, d);
  }

  /** The draft is the same on databases with the same relations where it reads. */
  lemma DraftReadsRoots(e: Engine, o: Oracle, db: Database, db': Database, q: Query, d: DraftSchema)
    requires MapStatement(q) == Ok(d) && NamedChain(q) && SameRoots(e, db, db', QueryTables(q))
    ensures DraftRows(e, o, db, d) == DraftRows(e, o, db', d)
  {
    var tables := QueryTables(q);
    DraftLoads(e, o, db, q, d);
    DraftLoads(e, o, db', q, d);
    LoadedAlike(e, o, db, db', tables, TableFilters(d.filters, tables), |tables|);
    DraftColumns(e, db, q, d);
    DraftColumns(e, db', q, d);
    assert DraftCols(e, db, d) == DraftCols(e, db', d);
  }

  lemma CapturedIsNotRead(e: Engine, tables: seq<TableRef>, cols: seq<set<string>>, t: seq<seq<Row>>, t': seq<seq<Row>>,
                          db: Database, db': Database, i: nat)
    requires i < |tables| && Captor(e, tables, i).Some? && Holds(db, tables, cols, t) && Holds(db', tables, cols, t')
    requires forall k | 0 <= k < |tables| && k != i :: t[k] == t'[k]
    ensures SameRoots(e, db, db', tables)
  {
    forall k | 0 <= k < |tables|
      ensures RelationOf(db, tables[Root(e, tables, k)]) == RelationOf(db', tables[Root(e, tables, k)])
    {
      RootIsFree(e, tables, k);
    }
  }

  lemma UnfilteredQuery(e: Engine, o: Oracle, db: Database, q: Query, la: seq<Link>, lb: seq<Link>,
                        cols: seq<set<string>>,
                        t: seq<seq<Row>>)
    requires LinksOf(e, q, la, lb) && q.where.None? && Holds(db, QueryTables(q), cols, t)
    ensures |t| == |la| + 1 && QueryRows(o, db, q) == Eval(KeySteps(la), t)
  {
    QueryJoins(e, o, db, q, la, lb, cols, t);
  }

  lemma TwoUnits(la: seq<Link>, cols: seq<set<string>>, i: nat)
    requires |cols| == |la| + 1
    ensures AllUnit(cols, Without(la, cols, i)) && AllUnit(cols, Including(la, cols, i))
    ensures forall k | 0 <= k < |cols| && k != i :: Without(la, cols, i)[k] == Including(la, cols, i)[k]
  {
  }

  lemma NeedsAreKeyed(e: Engine, tables: seq<TableRef>, la: seq<Link>, lb: seq<Link>)
    requires Joined(la, lb) && |tables| == |lb| + 1
    ensures Keyed(la, QueryNeeds(e, tables, lb))
  {
    var cols := QueryNeeds(e, tables, lb);
    forall k | 0 <= k < |cols| ensures KeyCols(lb, k) <= cols[k] { NeedsHaveKeys(e, tables, lb, k); }
    HeldKeysAreThere(lb, cols);
    KeyedForQuery(la, lb, cols);
  }

  /** A table read under an earlier alias: the draft never looks at its rows, which the query does. */
  lemma CaptureIsLost(e: Engine, o: Oracle, base: FromItem, joins: seq<JoinNode>, la: seq<Link>, lb: seq<Link>, i: nat)
    requires LinksOf(e, Query(base, joins, None), la, lb) && |la| == |lb| == |joins|
    requires var tables := QueryTables(Query(base, joins, None));
             Joinable(e, tables, la, lb) && DistinctNames(tables) && i < |tables| && Captor(e, tables, i).Some?
    ensures !AlwaysPreserved(e, o, base, joins)
  {
    var q := Query(base, joins, None);
    JoinedLinks(e, q, la, lb);
    NeedsAreKeyed(e, QueryTables(q), la, lb);
    var cols := QueryNeeds(e, QueryTables(q), lb);
    TwoUnits(la, cols, i);
    TableMatters(la, cols, i);
    TwoDatabases(e, o, q, la, lb, Without(la, cols, i), Including(la, cols, i), i);
  }

  lemma TwoDatabases(e: Engine, o: Oracle, q: Query, la: seq<Link>, lb: seq<Link>, t: seq<seq<Row>>, t': seq<seq<Row>>,
                     i: nat)
    requires LinksOf(e, q, la, lb) && |la| == |lb| == |q.joins| && Joinable(e, QueryTables(q), la, lb) && q.where.None?
    requires DistinctNames(QueryTables(q)) && i < |QueryTables(q)| && Captor(e, QueryTables(q), i).Some?
    requires AllUnit(QueryNeeds(e, QueryTables(q), lb), t) && AllUnit(QueryNeeds(e, QueryTables(q), lb), t')
    requires |t| == |t'| == |la| + 1 && (forall k | 0 <= k < |t| && k != i :: t[k] == t'[k])
    requires Eval(KeySteps(la), t) != Eval(KeySteps(la), t')
    ensures !AlwaysPreserved(e, o, q.base, q.joins)
  {
    var tables, cols, d := QueryTables(q), QueryNeeds(e, QueryTables(q), lb), MapStatement(q).value;
    var db := CapturedRuns(e, q, la, lb, t);
    var db' := CapturedRuns(e, q, la, lb, t');
    CapturedIsNotRead(e, tables, cols, t, t', db, db', i);
    DraftReadsRoots(e, o, db, db', q, d);
    UnfilteredQuery(e, o, db, q, la, lb, cols, t);
    UnfilteredQuery(e, o, db', q, la, lb, cols, t');
    if DraftRows(e, o, db, d) != QueryRows(o, db, q) { NotAlways(e, o, db, q); } else { NotAlways(e, o, db', q); }
  }

  // ---- the exact condition ----

  /**
   * Whatever the tables are called: the draft agrees with the query for every WHERE clause
   * it can answer and every database on which both run if the join list is safe, or if
   * there is no such database.
   */
  lemma SafeIsAlwaysPreserved(e: Engine, o: Oracle, base: FromItem, joins: seq<JoinNode>, la: seq<Link>, lb: seq<Link>)
    requires LinksOf(e, Query(base, joins, None), la, lb) && |la| == |lb| == |joins|
    requires var tables := QueryTables(Query(base, joins, None)); Joinable(e, tables, la, lb) ==> Safe(e, tables, la, lb)
    ensures AlwaysPreserved(e, o, base, joins)
  {
    forall where: Option<Pred>, db: Database ensures Preserved(e, o, db, Query(base, joins, where)) {
      SameLinksFor(e, base, joins, where, la, lb);
      SafeIsPreserved(e, o, db, Query(base, joins, where), la, lb);
    }
  }

  /**
   * For tables of distinct names, exactly then. Where the list is not safe, one of four
   * things is answered wrongly: an outer join whose spelling is lost, a later join on a key
   * that the draft merges and the query does not, `x.c IS NULL` on a table joined before a
   * right or full join whose rows last, or a table whose name is an earlier alias.
   */
  lemma PushDownExactly(e: Engine, o: Oracle, base: FromItem, joins: seq<JoinNode>, la: seq<Link>, lb: seq<Link>)
    requires LinksOf(e, Query(base, joins, None), la, lb) && |la| == |lb| == |joins|
    requires DistinctNames(QueryTables(Query(base, joins, None)))
    ensures var tables := QueryTables(Query(base, joins, None));
            AlwaysPreserved(e, o, base, joins) <==> (Joinable(e, tables, la, lb) ==> Safe(e, tables, la, lb))
  {
    var tables := QueryTables(Query(base, joins, None));
    if Joinable(e, tables, la, lb) && !Safe(e, tables, la, lb) {
      SafeIsUncaptured(e, tables, lb);
      if Uncaptured(e, tables) {
        JoinedLinks(e, Query(base, joins, None), la, lb);
        HarmHappens(e, o, base, joins, la, lb);
      } else {
        var i: nat :| i < |tables| && Captor(e, tables, i).Some?;
        CaptureIsLost(e, o, base, joins, la, lb, i);
      }
    } else {
      SafeIsAlwaysPreserved(e, o, base, joins, la, lb);
    }
  }

  /** In particular, LEFT OUTER never comes out right, and RIGHT OUTER only if a later join drops what it pads. */
  lemma OuterWordIsLost(e: Engine, o: Oracle, base: FromItem, joins: seq<JoinNode>, la: seq<Link>, lb: seq<Link>, m: nat)
    requires Listed(e, base, joins, la, lb) && m < |joins| && joins[m].kind.OUTER?
    requires AlwaysPreserved(e, o, base, joins)
    ensures !joins[m].side.LEFT?
    ensures joins[m].side.RIGHT? ==> Doomed(la, m + 1)
  {
    PushDownExactly(e, o, base, joins, la, lb);
    JoinedLinks(e, Query(base, joins, None), la, lb);
    assert SameLink(la[m], lb[m]) && HarmlessAt(la, lb, m + 1);
  }

  lemma SameLinksFor(e: Engine, base: FromItem, joins: seq<JoinNode>, where: Option<Pred>, la: seq<Link>, lb: seq<Link>)
    requires LinksOf(e, Query(base, joins, None), la, lb)
    ensures LinksOf(e, Query(base, joins, where), la, lb)
  {
    var q, q0 := Query(base, joins, where), Query(base, joins, None);
    assert QueryTables(q) == QueryTables(q0);
    var js := MapFrom(base, joins).value.joins;
    assert forall i | 0 <= i < |js| :: QueryLinks(q, js)[i] == QueryLinks(q0, js)[i];
  }
}
