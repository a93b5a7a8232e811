/** Two queries worked out on rows: a filter that reaches a second reading of its table, and an anti-join on a merged key. */
module PushDownCases {
  import opened Prelude
  import opened SqlValues
  import opened SqlQuery
  import opened Joins
  import opened Chains
  import opened ChainWitness
  import opened Draft
  import opened Loading
  import opened BareNames
  import opened MapperWhere
  import opened WhereMeaning
  import opened MapperFrom
  import opened PushDown
  import opened PushDownWitness
  import opened PushDownExact
  import opened PushDownExamples

  // ---- chains of one join ----

  lemma OneStep(js: seq<Link>, rows: seq<Row>, right: seq<Row>)
    requires |js| == 1
    ensures var s := KeyStep(js, 0);
            Eval(KeySteps(js), [rows, right]) == LeftPart(s, Lifted(rows), right) + RightPart(s, Lifted(rows), right, 1)
  {
    var steps, t := KeySteps(js), [rows, right];
    assert steps[..0] == [] && t[..1] == [rows];
    assert Eval(steps[..0], t[..1]) == Lifted(rows);
  }

  /** The base's rows join on their keys. */
  lemma BaseOn(js: seq<Link>, r: Row, right: Row)
    requires |js| == 1 && !js[0].kind.Cross?
    ensures On(KeyStep(js, 0), [Here(r)], right) <==> KeysMatch(r, right, js[0].left, js[0].right)
  {
    assert 0 in Carriers(js, 0);
  }

  lemma OneKeyMatches(r: Row, right: Row, kl: string, kr: string)
    ensures KeysMatch(r, right, [kl], [kr]) <==> Get(r, kl).Val? && Get(r, kl) == Get(right, kr)
  {
    var a, b := [kl], [kr];
    assert a[0] == kl && b[0] == kr;
    if KeysMatch(r, right, a, b) { assert Get(r, a[0]).Val? && Get(r, a[0]) == Get(right, b[0]); }
  }

  // ---- `FROM t LEFT SEMI JOIN t AS m ON t.g = m.h WHERE t.d = '1'` ----

  /** The names of the example. */
  datatype SelfJoin = SelfJoin(t: string, m: string, g: string, h: string, d: string)

  predicate Proper(x: SelfJoin) {
    x.t != [] && x.m != [] && x.t != x.m && '.' !in x.t && x.g != x.h && x.g != x.d && x.h != x.d
  }

  function SelfNode(x: SelfJoin): JoinNode {
    JoinNode(Table(x.t, Some(x.m)), LEFT, SEMI, [], Some(Compare(EQ, Column(Ref(Some(x.t), x.g)), Column(Ref(Some(x.m), x.h)))))
  }

  function SelfQuery(x: SelfJoin): Query { Query(Named(x.t), [SelfNode(x)], Some(TextTest(Some(x.t), x.d))) }

  function SelfRow(x: SelfJoin, g: string, h: string, d: string): Row { map[x.g := Val(g), x.h := Val(h), x.d := Val(d)] }

  /** The first row's partner is the second, which the filter does not accept. */
  function First(x: SelfJoin): Row { SelfRow(x, "2", "1", "1") }

  function Second(x: SelfJoin): Row { SelfRow(x, "9", "2", "3") }

  function SelfStore(x: SelfJoin): Database { map[x.t := Relation({x.g, x.h, x.d}, [First(x), Second(x)])] }

  function SelfFilters(x: SelfJoin): Filters { Filters([], [], map[x.t := [Filter(x.d, Cmp(EQ, "1"))]], map[]) }

  function SelfDraft(x: SelfJoin): DraftSchema {
    DraftSchema([TableRef(x.t, x.t), TableRef(x.t, x.m)], [DraftJoin(x.t, [x.g], x.m, [x.h], LeftSemi)], SelfFilters(x))
  }

  lemma PairMapped(a: string, b: string, k: string, l: string)
    requires a != b
    ensures MapEquiJoin(Some(Compare(EQ, Column(Ref(Some(a), k)), Column(Ref(Some(b), l)))), a, b) == Some(([k], [l]))
  {
    var p := Compare(EQ, Column(Ref(Some(a), k)), Column(Ref(Some(b), l)));
    var cs := [p];
    assert FlattenAnd(p) == cs && cs[..|cs| - 1] == [];
    assert EquiKeys(cs[..|cs| - 1], a, b) == Some(([], []));
    assert [] + [k] == [k] && [] + [l] == [l];
  }

  lemma SelfFrom(x: SelfJoin)
    requires Proper(x)
    ensures MapFrom(Named(x.t), [SelfNode(x)]) == Ok(Mapped(SelfDraft(x).tables, SelfDraft(x).joins, {}))
  {
    OneJoin(Named(x.t), SelfNode(x));
    PairMapped(x.t, x.m, x.g, x.h);
    assert [TableRef(x.t, x.t)][1..] == [];
    assert Put([TableRef(x.t, x.t)], TableRef(x.t, x.m)) == SelfDraft(x).tables;
    var m := StartFrom(Named(x.t));
    assert m.joins + SelfDraft(x).joins == SelfDraft(x).joins && m.nullable + {} == {};
  }

  lemma TestAtom(a: string, c: string, tables: seq<TableRef>)
    ensures MapAtom(TextTest(Some(a), c), tables) == Some(Placed(Some(a), Filter(c, Cmp(EQ, "1"))))
  {
    SoleQualifier(Ref(Some(a), c));
    assert Refs(TextTest(Some(a), c)) == [Ref(Some(a), c)];
  }

  /** A comparison of a qualified column moves to its table, if that may be filtered. */
  lemma TestMapped(a: string, c: string, tables: seq<TableRef>, nullable: set<string>)
    requires Pushable(a, tables, nullable)
    ensures MapWhere(Some(TextTest(Some(a), c)), tables, nullable)
            == Ok(Filters([], [], map[a := [Filter(c, Cmp(EQ, "1"))]], map[]))
  {
    TestAtom(a, c, tables);
    FirstFilter(a, Filter(c, Cmp(EQ, "1")), tables, nullable);
    OneConjunct(TextTest(Some(a), c), tables, nullable);
  }

  lemma TestMoves(a: string, c: string, tables: seq<TableRef>, nullable: set<string>)
    requires Pushable(a, tables, nullable)
    ensures TopConjuncts(TextTest(Some(a), c)) == [TextTest(Some(a), c)]
    ensures MovesTo(TextTest(Some(a), c), tables, nullable) == Some(a)
  {
    TestAtom(a, c, tables);
    assert MapAtom(TextTest(Some(a), c), tables).value.alias == PredicateAlias(TextTest(Some(a), c), tables);
  }

  lemma SelfMapped(x: SelfJoin)
    requires Proper(x)
    ensures MapStatement(SelfQuery(x)) == Ok(SelfDraft(x)) && QueryTables(SelfQuery(x)) == SelfDraft(x).tables
    ensures NamedChain(SelfQuery(x))
  {
    SelfFrom(x);
    assert QueryTables(SelfQuery(x)) == SelfDraft(x).tables;
    assert Aliases(SelfDraft(x).tables)[0] == x.t;
    TestMapped(x.t, x.d, SelfDraft(x).tables, {});
  }

  lemma SelfFound(x: SelfJoin)
    requires Proper(x) && QueryTables(SelfQuery(x)) == SelfDraft(x).tables
    ensures FoundWhere(SelfStore(x), SelfQuery(x))
  {
    var s := FinalScope(SelfStore(x), SelfDraft(x).tables, QueryKinds(SelfQuery(x)));
    assert Refs(TextTest(Some(x.t), x.d)) == [Ref(Some(x.t), x.d)];
    assert RefersTo(s, Ref(Some(x.t), x.d), 0) && x.d in s.cols[0];
  }

  lemma SelfFits(x: SelfJoin)
    ensures RowsFit(SelfStore(x), SelfDraft(x).tables)
    ensures Cols(SelfStore(x), SelfDraft(x).tables) == [{x.g, x.h, x.d}, {x.g, x.h, x.d}]
  {
  }

  lemma SelfAccepted(x: SelfJoin)
    requires Proper(x) && QueryTables(SelfQuery(x)) == SelfDraft(x).tables
    ensures Accepted(SelfStore(x), SelfQuery(x))
  {
    SelfFits(x);
    var p := SelfNode(x).on.value;
    assert Refs(p) == [Ref(Some(x.t), x.g), Ref(Some(x.m), x.h)];
    forall r | r in Refs(p) ensures RefThere(r, SelfDraft(x).tables, Cols(SelfStore(x), SelfDraft(x).tables), 2) {}
  }

  lemma SelfAnswerable(e: Engine, x: SelfJoin)
    requires Proper(x)
    ensures MapFrom(Named(x.t), [SelfNode(x)]).Ok? && Answerable(e, SelfStore(x), SelfQuery(x))
            && Accepted(SelfStore(x), SelfQuery(x))
  {
    SelfMapped(x);
    SelfFrom(x);
    assert Aliases(SelfDraft(x).tables)[0] == x.t;
    TestMoves(x.t, x.d, SelfDraft(x).tables, {});
    SelfFound(x);
    SelfAccepted(x);
  }

  /** Two tables, the second captured by the first. */
  lemma SelfCaptured(e: Engine, x: SelfJoin)
    requires Proper(x)
    ensures var tables := SelfDraft(x).tables; Captor(e, tables, 0) == None && Captor(e, tables, 1) == Some(0)
    ensures Root(e, SelfDraft(x).tables, 0) == 0 && Root(e, SelfDraft(x).tables, 1) == 0
  {
    var tables := SelfDraft(x).tables;
    assert Captures(e, tables, 1, 0);
  }

  lemma SelfColumns(e: Engine, x: SelfJoin)
    requires Proper(x)
    ensures DraftCols(e, SelfStore(x), SelfDraft(x)) == [{x.g, x.h, x.d}, {x.g, x.h, x.d}]
  {
    SelfMapped(x);
    SelfCaptured(e, x);
    DraftColumns(e, SelfStore(x), SelfQuery(x), SelfDraft(x));
  }

  lemma SelfJoinsRun(e: Engine, x: SelfJoin)
    ensures JoinsRun(e, DraftLinks(e, SelfDraft(x).joins), [{x.g, x.h, x.d}, {x.g, x.h, x.d}])
  {
    assert DraftLinks(e, SelfDraft(x).joins)[0] == DraftLink(e, SelfDraft(x).joins[0]);
  }

  lemma SelfFiltersRun(e: Engine, x: SelfJoin)
    requires Proper(x)
    ensures FiltersRun(e, SelfStore(x), SelfDraft(x))
  {
    SelfCaptured(e, x);
    var d := SelfDraft(x);
    assert forall f :: !LeftOver(d.filters, f);
    assert TableFilterOn(d.filters, x.t) == TableFilter([Filter(x.d, Cmp(EQ, "1"))], []);
    assert TableFilterOn(d.filters, x.m) == NO_FILTER;
  }

  lemma SelfRuns(e: Engine, x: SelfJoin)
    requires Proper(x)
    ensures DraftRuns(e, SelfStore(x), SelfDraft(x))
  {
    SelfMapped(x);
    DraftOrder(SelfQuery(x), SelfDraft(x));
    SelfColumns(e, x);
    SelfJoinsRun(e, x);
    SelfFiltersRun(e, x);
  }

  /** The filter accepts the first row only. */
  lemma SelfFiltered(o: Oracle, x: SelfJoin)
    requires Proper(x)
    ensures FilterRows(o, TableFilter([Filter(x.d, Cmp(EQ, "1"))], []), [First(x), Second(x)]) == [First(x)]
  {
    var tf := TableFilter([Filter(x.d, Cmp(EQ, "1"))], []);
    assert Get(First(x), x.d) == Val("1") && Get(Second(x), x.d) == Val("3");
    assert Accepts(o, tf, First(x));
    assert tf.filters[0] in tf.filters && !Accepts(o, tf, Second(x));
    assert [First(x), Second(x)][1..] == [Second(x)] && [Second(x)][1..] == [];
    assert FilterRows(o, tf, []) == [] && FilterRows(o, tf, [Second(x)]) == [];
  }

  /** Both tables are loaded filtered. */
  lemma SelfLoaded(e: Engine, o: Oracle, x: SelfJoin)
    requires Proper(x)
    ensures Loaded(e, o, SelfStore(x), SelfDraft(x).tables, TableFilters(SelfFilters(x), SelfDraft(x).tables)) == [[First(x)], [First(x)]]
  {
    SelfCaptured(e, x);
    SelfFiltered(o, x);
    var tables := SelfDraft(x).tables;
    var fs := TableFilters(SelfFilters(x), tables);
    assert fs[0] == TableFilter([Filter(x.d, Cmp(EQ, "1"))], []) && fs[1] == NO_FILTER;
    NoFilterKeepsAll(o, [First(x)]);
    assert LoadedFirst(e, o, SelfStore(x), tables, fs, 0) == [];
    assert LoadedFirst(e, o, SelfStore(x), tables, fs, 1) == [[First(x)]];
  }

  /** Without its partner the first row is gone. */
  lemma SelfJoinsNothing(x: SelfJoin, js: seq<Link>)
    requires Proper(x) && |js| == 1 && js[0].kind.LeftSemi? && js[0].left == [x.g] && js[0].right == [x.h]
    ensures Eval(KeySteps(js), [[First(x)], [First(x)]]) == []
  {
    OneStep(js, [First(x)], [First(x)]);
    BaseOn(js, First(x), First(x));
    OneKeyMatches(First(x), First(x), x.g, x.h);
    assert Get(First(x), x.g) == Val("2") && Get(First(x), x.h) == Val("1");
    var l := [Here(First(x))];
    assert Lifted([First(x)]) == [l];
    OneOrNone(KeyStep(js, 0), l, [First(x)]);
    assert [l][1..] == [];
    assert LeftPart(KeyStep(js, 0), [l], [First(x)]) == [];
  }

  lemma SelfDraftIsEmpty(e: Engine, o: Oracle, x: SelfJoin)
    requires Proper(x)
    ensures DraftRows(e, o, SelfStore(x), SelfDraft(x)) == []
  {
    SelfMapped(x);
    var q, d := SelfQuery(x), SelfDraft(x);
    var js := DraftLinks(e, d.joins);
    DraftLoads(e, o, SelfStore(x), q, d);
    SelfLoaded(e, o, x);
    assert js[0] == DraftLink(e, d.joins[0]);
    SelfLinksAreValid(e, x);
    ExecutedChain(js, [[First(x)], [First(x)]]);
    SelfJoinsNothing(x, js);
  }

  lemma SelfLinksAreValid(e: Engine, x: SelfJoin)
    requires Proper(x)
    ensures ValidLinks(DraftLinks(e, SelfDraft(x).joins))
  {
    SelfMapped(x);
    MappedParts(SelfQuery(x), SelfDraft(x));
    LinksAreValid(e, SelfQuery(x), SelfDraft(x).joins);
  }

  /** The query joins the first row with the second, which it hides. */
  lemma SelfJoinsFirst(x: SelfJoin, js: seq<Link>)
    requires Proper(x) && js == [Link(LeftSemi, [x.g], [x.h], false, false)]
    ensures var rows := [First(x), Second(x)];
            Eval(KeySteps(js), [rows, rows]) != [] && Eval(KeySteps(js), [rows, rows])[0] == [Here(First(x)), Gone]
  {
    var rows := [First(x), Second(x)];
    OneStep(js, rows, rows);
    var s, l := KeyStep(js, 0), [Here(First(x))];
    BaseOn(js, First(x), Second(x));
    OneKeyMatches(First(x), Second(x), x.g, x.h);
    assert Get(First(x), x.g) == Val("2") && Get(Second(x), x.h) == Val("2");
    PartnersShape(s, l, rows);
    assert rows[1] in rows && Contribution(s, l, rows) == [l + [Gone]];
    assert Lifted(rows)[0] == l && l + [Gone] == [Here(First(x)), Gone];
  }

  lemma SelfLinks(x: SelfJoin)
    requires Proper(x)
    ensures QueryLinks(SelfQuery(x), SelfDraft(x).joins) == [Link(LeftSemi, [x.g], [x.h], false, false)]
  {
    assert QueryLinks(SelfQuery(x), SelfDraft(x).joins)[0] == QueryLink(SelfNode(x), SelfDraft(x).joins[0]);
  }

  lemma SelfQueryHasRow(e: Engine, o: Oracle, x: SelfJoin)
    requires Proper(x)
    ensures QueryRows(o, SelfStore(x), SelfQuery(x)) != []
  {
    SelfMapped(x);
    SelfFrom(x);
    SelfLinks(x);
    var q, rows := SelfQuery(x), [First(x), Second(x)];
    assert Rows(SelfStore(x), SelfDraft(x).tables) == [rows, rows];
    FromFaithful(e, o, SelfStore(x), q, [rows, rows]);
    SelfJoinsFirst(x, QueryLinks(q, SelfDraft(x).joins));
    var joined := Eval(QuerySteps(o, SelfStore(x), q), [rows, rows]);
    SelfRowKept(o, x, joined[0]);
    FirstIsKept(o, FinalScope(SelfStore(x), SelfDraft(x).tables, QueryKinds(q)), q.where.value, joined);
  }

  lemma FirstIsKept(o: Oracle, s: Scope, p: Pred, rows: seq<JoinedRow>)
    requires rows != [] && EvalPred(o, s, rows[0], p) == True
    ensures KeepTrue(o, s, p, rows) != []
  {
  }

  lemma SelfRowKept(o: Oracle, x: SelfJoin, l: JoinedRow)
    requires Proper(x) && |l| == 2 && l[0] == Here(First(x))
    ensures EvalPred(o, FinalScope(SelfStore(x), SelfDraft(x).tables, QueryKinds(SelfQuery(x))), l, TextTest(Some(x.t), x.d)) == True
  {
    var s := FinalScope(SelfStore(x), SelfDraft(x).tables, QueryKinds(SelfQuery(x)));
    assert AliasAt(s, x.t, 0);
    LookupAt(s, l, Ref(Some(x.t), x.d), 0);
    assert Get(First(x), x.d) == Val("1");
  }

  /**
   * `FROM t LEFT SEMI JOIN t AS m ON t.g = m.h WHERE t.d = '1'`: the filter moved to t also
   * filters m, whose name is t's alias, so partners outside the filter are not found.
   */
  lemma FilterReachesSecondReading(e: Engine, o: Oracle, x: SelfJoin)
    requires Proper(x)
    ensures !AlwaysPreserved(e, o, Named(x.t), [SelfNode(x)])
  {
    SelfMapped(x);
    SelfAnswerable(e, x);
    SelfRuns(e, x);
    SelfDraftIsEmpty(e, o, x);
    SelfQueryHasRow(e, o, x);
    NotAlways(e, o, SelfStore(x), SelfQuery(x));
  }

  // ---- `FROM a LEFT JOIN b ON a.k = b.k WHERE b.k IS NULL` ----

  function AntiQuery(a: string, b: string, k: string): Query {
    Query(Named(a), [OnKey(a, b, k, LEFT)], Some(NullTest(b, k)))
  }

  function AntiDraft(a: string, b: string, k: string): DraftSchema {
    DraftSchema([TableRef(a, a), TableRef(b, b)], [DraftJoin(a, [k], b, [k], LeftOuter)], Filters([Filter(k, IsNull)], [], map[], map[]))
  }

  /** a has one row, b none. */
  function AntiStore(a: string, b: string, k: string): Database {
    map[a := Relation({k}, [UnitRow({k})]), b := Relation({k}, [])]
  }

  lemma AntiFrom(a: string, b: string, k: string)
    requires a != [] && b != [] && a != b
    ensures MapFrom(Named(a), [OnKey(a, b, k, LEFT)]) == Ok(Mapped(AntiDraft(a, b, k).tables, AntiDraft(a, b, k).joins, {b}))
  {
    OneJoin(Named(a), OnKey(a, b, k, LEFT));
    SameKeyMapped(a, b, k);
    assert [TableRef(a, a)][1..] == [];
    assert Put([TableRef(a, a)], TableRef(b, b)) == AntiDraft(a, b, k).tables;
    var m := StartFrom(Named(a));
    assert m.joins + AntiDraft(a, b, k).joins == AntiDraft(a, b, k).joins && m.nullable + {b} == {b};
  }

  lemma AntiMapped(a: string, b: string, k: string)
    requires a != [] && b != [] && a != b
    ensures MapStatement(AntiQuery(a, b, k)) == Ok(AntiDraft(a, b, k))
    ensures QueryTables(AntiQuery(a, b, k)) == AntiDraft(a, b, k).tables && NamedChain(AntiQuery(a, b, k))
  {
    AntiFrom(a, b, k);
    var tables, p := AntiDraft(a, b, k).tables, NullTest(b, k);
    assert QueryTables(AntiQuery(a, b, k)) == tables;
    NullTestAtom(b, k, tables);
    OneConjunct(p, tables, {b});
    assert TopConjuncts(p) == [p];
    assert [] + [Filter(k, IsNull)] == [Filter(k, IsNull)];
  }

  lemma AntiFound(a: string, b: string, k: string)
    requires a != [] && b != [] && a != b
    ensures FoundWhere(AntiStore(a, b, k), AntiQuery(a, b, k)) && Accepted(AntiStore(a, b, k), AntiQuery(a, b, k))
  {
    AntiMapped(a, b, k);
    var q, db := AntiQuery(a, b, k), AntiStore(a, b, k);
    var s := FinalScope(db, QueryTables(q), QueryKinds(q));
    assert Refs(q.where.value) == [Ref(Some(b), k)];
    assert AliasAt(s, b, 1) && k in s.cols[1];
    assert Refs(q.joins[0].on.value) == [Ref(Some(a), k), Ref(Some(b), k)];
    assert RefersTo(s, Ref(Some(b), k), 1);
  }

  /** After the merging join the one column k is the base's. */
  lemma AntiOwner(e: Engine, a: string, b: string, k: string)
    ensures var js := [KeyLink(LeftOuter, k, true)]; BareOwner(e, js, [{k}, {k}], k, 0)
  {
    var js := [KeyLink(LeftOuter, k, true)];
    assert k in js[0].left && Merged(js[0]) == [k];
    assert OwnColumn(e, js, [{k}, {k}], k, 0) && !OwnColumn(e, js, [{k}, {k}], k, 1);
  }

  lemma AntiLinks(e: Engine, a: string, b: string, k: string)
    ensures DraftLinks(e, AntiDraft(a, b, k).joins) == [KeyLink(LeftOuter, k, true)]
    ensures QueryLinks(AntiQuery(a, b, k), AntiDraft(a, b, k).joins) == [KeyLink(LeftOuter, k, false)]
  {
    assert DraftLinks(e, AntiDraft(a, b, k).joins)[0] == DraftLink(e, AntiDraft(a, b, k).joins[0]);
    assert QueryLinks(AntiQuery(a, b, k), AntiDraft(a, b, k).joins)[0] == QueryLink(OnKey(a, b, k, LEFT), AntiDraft(a, b, k).joins[0]);
  }

  lemma AntiUncaptured(e: Engine, a: string, b: string, k: string)
    requires a != b
    ensures Uncaptured(e, AntiDraft(a, b, k).tables)
  {
  }

  lemma AntiStored(o: Oracle, a: string, b: string, k: string)
    requires a != b
    ensures var tables, fs := AntiDraft(a, b, k).tables, TableFilters(AntiDraft(a, b, k).filters, AntiDraft(a, b, k).tables);
            && Cols(AntiStore(a, b, k), tables) == [{k}, {k}] && Rows(AntiStore(a, b, k), tables) == [[UnitRow({k})], []]
            && FilterTables(o, fs, [[UnitRow({k})], []]) == [[UnitRow({k})], []]
  {
    NoFilterKeepsAll(o, [UnitRow({k})]);
  }

  lemma AntiLoads(e: Engine, o: Oracle, a: string, b: string, k: string)
    requires a != [] && b != [] && a != b
    ensures var db, d := AntiStore(a, b, k), AntiDraft(a, b, k);
            DraftTables(e, o, db, d) == [[UnitRow({k})], []] && DraftCols(e, db, d) == [{k}, {k}]
  {
    AntiMapped(a, b, k);
    AntiUncaptured(e, a, b, k);
    AntiStored(o, a, b, k);
    var q, db, d := AntiQuery(a, b, k), AntiStore(a, b, k), AntiDraft(a, b, k);
    UncapturedLoadsOwn(e, d.tables, TableFilters(d.filters, d.tables));
    DraftLoadsOwn(e, o, db, q, d);
    DraftColsOwn(e, db, q, d);
  }

  lemma AntiJoinsRun(e: Engine, k: string)
    ensures JoinsRun(e, [KeyLink(LeftOuter, k, true)], [{k}, {k}])
  {
  }

  lemma AntiLeftOver(a: string, b: string, k: string, f: Filter)
    requires LeftOver(AntiDraft(a, b, k).filters, f)
    ensures f == Filter(k, IsNull)
  {
  }

  lemma AntiFiltersRun(e: Engine, a: string, b: string, k: string)
    requires DraftCols(e, AntiStore(a, b, k), AntiDraft(a, b, k)) == [{k}, {k}]
    ensures FiltersRun(e, AntiStore(a, b, k), AntiDraft(a, b, k))
  {
    var db, d := AntiStore(a, b, k), AntiDraft(a, b, k);
    AntiLinks(e, a, b, k);
    AntiOwner(e, a, b, k);
    forall f | LeftOver(d.filters, f) ensures Owned(e, DraftLinks(e, d.joins), DraftCols(e, db, d), f.column) {
      AntiLeftOver(a, b, k, f);
    }
    forall i: nat | i < |d.tables| ensures TableFilterRuns(e, db, d.tables, d.filters, i) {
      assert TableFilterOn(d.filters, d.tables[i].alias) == NO_FILTER;
    }
  }

  lemma AntiRuns(e: Engine, o: Oracle, a: string, b: string, k: string)
    requires a != [] && b != [] && a != b
    ensures DraftRuns(e, AntiStore(a, b, k), AntiDraft(a, b, k))
  {
    AntiMapped(a, b, k);
    DraftOrder(AntiQuery(a, b, k), AntiDraft(a, b, k));
    AntiLoads(e, o, a, b, k);
    AntiLinks(e, a, b, k);
    AntiJoinsRun(e, k);
    AntiFiltersRun(e, a, b, k);
  }

  /** Either chain joins a's row with nothing. */
  lemma AntiJoined(js: seq<Link>, k: string)
    requires |js| == 1 && js[0].kind.LeftOuter?
    ensures Eval(KeySteps(js), [[UnitRow({k})], []]) == [[Here(UnitRow({k})), Gone]]
  {
    var l: JoinedRow := [Here(UnitRow({k}))];
    OneStep(js, [UnitRow({k})], []);
    assert Lifted([UnitRow({k})]) == [l];
    OneLeftOver(KeyStep(js, 0), l);
    assert l + [Gone] == [Here(UnitRow({k})), Gone];
  }

  lemma OneLeftOver(s: Step, l: JoinedRow)
    requires s.kind.LeftOuter?
    ensures LeftPart(s, [l], []) + RightPart(s, [l], [], 1) == [l + [Gone]]
  {
    assert [l][1..] == [];
    assert Contribution(s, l, []) == [l + [Gone]];
  }

  lemma AntiDraftIsEmpty(e: Engine, o: Oracle, a: string, b: string, k: string)
    requires a != [] && b != [] && a != b
    ensures DraftRows(e, o, AntiStore(a, b, k), AntiDraft(a, b, k)) == []
  {
    AntiMapped(a, b, k);
    AntiLoads(e, o, a, b, k);
    AntiLinks(e, a, b, k);
    var js := [KeyLink(LeftOuter, k, true)];
    ExecutedChain(js, [[UnitRow({k})], []]);
    AntiJoined(js, k);
    AntiRowDropped(e, o, a, b, k);
    var l := [Here(UnitRow({k})), Gone];
    assert [l][1..] == [];
    assert KeepAccepted(o, e, js, [{k}, {k}], AntiDraft(a, b, k).filters, []) == [];
  }

  /** The bare k of the joined row is a's. */
  lemma AntiRowDropped(e: Engine, o: Oracle, a: string, b: string, k: string)
    ensures var l := [Here(UnitRow({k})), Gone];
            !LeftOversAccept(o, BareReader(e, [KeyLink(LeftOuter, k, true)], [{k}, {k}], l), AntiDraft(a, b, k).filters)
  {
    var js, l: JoinedRow := [KeyLink(LeftOuter, k, true)], [Here(UnitRow({k})), Gone];
    AntiOwner(e, a, b, k);
    BareValueAt(e, js, [{k}, {k}], l, k, 0);
    assert Source(js, 0, k) == [0] && Source(js, 1, k) == [0];
    OneSource(l, 0, k);
    assert ColumnValue(js, l, k, 0) == Val("1");
    var f := AntiDraft(a, b, k).filters;
    assert Filter(k, IsNull) in f.where;
  }

  lemma AntiQueryHasRow(e: Engine, o: Oracle, a: string, b: string, k: string)
    requires a != [] && b != [] && a != b
    ensures QueryRows(o, AntiStore(a, b, k), AntiQuery(a, b, k)) != []
  {
    AntiMapped(a, b, k);
    AntiFrom(a, b, k);
    AntiLinks(e, a, b, k);
    var q, db := AntiQuery(a, b, k), AntiStore(a, b, k);
    assert Rows(db, QueryTables(q)) == [[UnitRow({k})], []];
    FromFaithful(e, o, db, q, [[UnitRow({k})], []]);
    AntiJoined([KeyLink(LeftOuter, k, false)], k);
    var s, l: JoinedRow := FinalScope(db, QueryTables(q), QueryKinds(q)), [Here(UnitRow({k})), Gone];
    assert AliasAt(s, b, 1);
    LookupAt(s, l, Ref(Some(b), k), 1);
    FirstIsKept(o, s, NullTest(b, k), [l]);
  }

  /**
   * The test for rows of a without a partner in b, on the key they are joined on: the draft
   * joins USING (k) and tests the merged column, which holds a's value, and returns nothing.
   */
  lemma MergedKeyAntiJoin(e: Engine, o: Oracle, a: string, b: string, k: string)
    requires a != [] && b != [] && a != b
    ensures var db, q, d := AntiStore(a, b, k), AntiQuery(a, b, k), AntiDraft(a, b, k);
            && MapStatement(q) == Ok(d) && Accepted(db, q) && FoundWhere(db, q) && DraftRuns(e, db, d)
            && QueryRows(o, db, q) != [] && DraftRows(e, o, db, d) == []
  {
    AntiMapped(a, b, k);
    AntiFound(a, b, k);
    AntiRuns(e, o, a, b, k);
    AntiQueryHasRow(e, o, a, b, k);
    AntiDraftIsEmpty(e, o, a, b, k);
  }
}
