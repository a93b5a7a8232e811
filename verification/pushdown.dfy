/** A query, the draft it is mapped to, and when the two produce the same rows. */
module PushDown {
  import opened Prelude
  import opened SqlValues
  import opened SqlQuery
  import opened Joins
  import opened Chains
  import opened Draft
  import opened Loading
  import opened BareNames
  import opened MapperWhere
  import opened WhereMeaning
  import opened MapperFrom

  // ---- meaning of the query ----

  datatype Query = Query(base: FromItem, joins: seq<JoinNode>, where: Option<Pred>)

  /** The name SQL gives a FROM item: its alias, or the last part of its name. */
  function SqlName(item: FromItem): TableRef {
    match item
    case Table(fqn, alias) =>
      TableRef(fqn, if alias.Some? && alias.value != [] then alias.value else LastSegment(fqn))
    case OtherShape => TableRef("", "")
  }

  function QueryTables(q: Query): (r: seq<TableRef>)
    ensures |r| == |q.joins| + 1
  {
    [SqlName(q.base)] + seq(|q.joins|, i requires 0 <= i < |q.joins| => SqlName(q.joins[i].right))
  }

  /** The right sides of semi and anti joins show no columns. */
  predicate Hidden(kinds: seq<Kind>, i: nat) {
    0 < i <= |kinds| && (kinds[i - 1].LeftSemi? || kinds[i - 1].LeftAnti?)
  }

  /** The scope after all joins. */
  function FinalScope(db: Database, tables: seq<TableRef>, kinds: seq<Kind>): (s: Scope)
    ensures s.aliases == Aliases(tables) && |s.cols| == |tables|
  {
    Scope(Aliases(tables), seq(|tables|, i requires 0 <= i < |tables| =>
      if Hidden(kinds, i) then {} else RelationOf(db, tables[i]).cols))
  }

  function KindOf(j: JoinNode): Kind {
    var k := SqlKind(j.side, j.kind);
    if k.Some? then k.value else Inner
  }

  function QueryKinds(q: Query): (r: seq<Kind>)
    ensures |r| == |q.joins| && forall i | 0 <= i < |r| :: r[i] == KindOf(q.joins[i])
  {
    seq(|q.joins|, i requires 0 <= i < |q.joins| => KindOf(q.joins[i]))
  }

  /** The kinds the mapper finds for the joins' spellings. */
  function FoundKinds(q: Query): (r: seq<Kind>)
    ensures |r| == |q.joins| && forall i | 0 <= i < |r| :: r[i] == JoinType(q.joins[i].side, q.joins[i].kind)
  {
    seq(|q.joins|, i requires 0 <= i < |q.joins| => JoinType(q.joins[i].side, q.joins[i].kind))
  }

  /** What a join USING its columns merges. */
  function NodeLinks(q: Query): (r: seq<Link>)
    ensures |r| == |q.joins|
    ensures forall i | 0 <= i < |r| :: r[i] == NodeLink(q.joins[i])
  {
    seq(|q.joins|, i requires 0 <= i < |q.joins| => NodeLink(q.joins[i]))
  }

  function NodeLink(j: JoinNode): Link {
    var merges := j.using != [] && !KindOf(j).Cross?;
    Link(KindOf(j), j.using, j.using, merges, merges)
  }

  /** Join i of the query: USING columns of all tables joined so far, or an ON predicate over them. */
  function QueryStep(o: Oracle, db: Database, q: Query, i: nat): Step
    requires i < |q.joins|
  {
    var j := q.joins[i];
    var tables := QueryTables(q)[..i + 2];
    Step(KindOf(j),
         if j.using != [] then Columns(Sources(NodeLinks(q), i, j.using), j.using, j.using)
         else if j.on.None? then Columns([], [], [])
         else OnPred(o, Scope(Aliases(tables), Cols(db, tables)), j.on.value))
  }

  function QuerySteps(o: Oracle, db: Database, q: Query): (r: seq<Step>)
    ensures |r| == |q.joins| && forall i | 0 <= i < |r| :: r[i] == QueryStep(o, db, q, i)
  {
    seq(|q.joins|, i requires 0 <= i < |q.joins| => QueryStep(o, db, q, i))
  }

  ghost function KeepTrue(o: Oracle, s: Scope, p: Pred, rows: seq<JoinedRow>): seq<JoinedRow> {
    if rows == [] then []
    else (if EvalPred(o, s, rows[0], p) == True then [rows[0]] else []) + KeepTrue(o, s, p, rows[1..])
  }

  /** Joins everything in order, then keeps the rows on which WHERE is true. */
  ghost function QueryRows(o: Oracle, db: Database, q: Query): seq<JoinedRow> {
    var joined := Eval(QuerySteps(o, db, q), Rows(db, QueryTables(q)));
    if q.where.None? then joined
    else KeepTrue(o, FinalScope(db, QueryTables(q), QueryKinds(q)), q.where.value, joined)
  }

  // ---- meaning of the draft ----

  datatype DraftSchema = DraftSchema(tables: seq<TableRef>, joins: seq<DraftJoin>, filters: Filters)

  datatype MapError = FromError(from: FromResidue) | WhereError(where: WhereResidue)

  function MapStatement(q: Query): Result<DraftSchema, MapError> {
    var m := MapFrom(q.base, q.joins);
    if m.Err? then Err(FromError(m.error))
    else
      var f := MapWhere(q.where, m.value.tables, m.value.nullable);
      if f.Err? then Err(WhereError(f.error)) else Ok(DraftSchema(m.value.tables, m.value.joins, f.value))
  }

  /** FROM, then WHERE, each through its own loop. */
  method MapSelect(q: Query) returns (r: Result<DraftSchema, MapError>)
    ensures r == MapStatement(q)
    ensures r.Ok? <==> FromSupported(q.base, q.joins) && (q.where.None? || ClauseSupported(q.where.value))
  {
    var m := MapFromAndJoins(q.base, q.joins);
    if m.Err? { return Err(FromError(m.error)); }
    var f := MapWhereClause(q.where, m.value.tables, m.value.nullable);
    if f.Err? { return Err(WhereError(f.error)); }
    r := Ok(DraftSchema(m.value.tables, m.value.joins, f.value));
  }

  function TableNamed(tables: seq<TableRef>, alias: string): TableRef {
    if tables == [] then TableRef("", alias)
    else if tables[0].alias == alias then tables[0]
    else TableNamed(tables[1..], alias)
  }

  function DraftBase(d: DraftSchema): string {
    if d.joins != [] then d.joins[0].from else if d.tables != [] then d.tables[0].alias else ""
  }

  /** The tables in the order the draft joins them: the base, then each join's right side. */
  function JoinOrder(d: DraftSchema): (r: seq<TableRef>)
    ensures |r| == |d.joins| + 1
  {
    [TableNamed(d.tables, DraftBase(d))]
    + seq(|d.joins|, i requires 0 <= i < |d.joins| => TableNamed(d.tables, d.joins[i].to))
  }

  function DraftKinds(d: DraftSchema): (r: seq<Kind>)
    ensures |r| == |d.joins| && forall i | 0 <= i < |r| :: r[i] == d.joins[i].kind
  {
    seq(|d.joins|, i requires 0 <= i < |d.joins| => d.joins[i].kind)
  }

  /**
   * A draft join as it is executed. Equal key lists become a join USING them; other keys
   * are equated, the left ones by the base's qualified columns in SQL and by bare name on
   * data frames.
   */
  function DraftLink(e: Engine, j: DraftJoin): Link {
    var merges := !j.kind.Cross? && j.keysFrom == j.keysTo;
    Link(j.kind, j.keysFrom, j.keysTo, merges, merges || (e.DataFrames? && !j.kind.Cross?))
  }

  function DraftLinks(e: Engine, joins: seq<DraftJoin>): (r: seq<Link>)
    ensures |r| == |joins| && forall i | 0 <= i < |r| :: r[i] == DraftLink(e, joins[i])
  {
    seq(|joins|, i requires 0 <= i < |joins| => DraftLink(e, joins[i]))
  }

  /** The key columns of join m are there. */
  predicate KeysThere(j: Link, cols: seq<set<string>>, m: nat)
    requires m + 1 < |cols|
  {
    j.kind.Cross? || ((forall k | k in j.left :: k in cols[0]) && forall k | k in j.right :: k in cols[m + 1])
  }

  /** Every join finds its key columns, and bare names mean one column. */
  predicate JoinsRun(e: Engine, js: seq<Link>, cols: seq<set<string>>)
    requires |cols| == |js| + 1
  {
    forall m: nat | m < |js| ::
      && (js[m].kind.Cross? ==> e.CompiledSql?)
      && KeysThere(js[m], cols, m)
      && (js[m].bare && !js[m].kind.Cross? ==> forall k | k in js[m].left :: OneColumn(e, js, cols, m, k))
  }

  /** The first table with this alias. */
  function IndexNamed(tables: seq<TableRef>, alias: string): (r: nat)
    ensures r <= |tables|
  {
    if tables == [] || tables[0].alias == alias then 0 else 1 + IndexNamed(tables[1..], alias)
  }

  /** The loaded rows of the tables, in the order they are joined. */
  function DraftTables(e: Engine, o: Oracle, db: Database, d: DraftSchema): (r: seq<seq<Row>>)
    ensures |r| == |JoinOrder(d)|
  {
    var order, loaded := JoinOrder(d), Loaded(e, o, db, d.tables, TableFilters(d.filters, d.tables));
    seq(|order|, i requires 0 <= i < |order| =>
      var k := IndexNamed(d.tables, order[i].alias); if k < |loaded| then loaded[k] else [])
  }

  /** Their columns. */
  function DraftCols(e: Engine, db: Database, d: DraftSchema): (r: seq<set<string>>)
    ensures |r| == |JoinOrder(d)|
  {
    var order := JoinOrder(d);
    seq(|order|, i requires 0 <= i < |order| =>
      var k := IndexNamed(d.tables, order[i].alias); if k < |d.tables| then LoadedCols(e, db, d.tables, k) else {})
  }

  predicate ColumnsIn(fs: seq<Filter>, cols: set<string>) { forall f | f in fs :: f.column in cols }

  predicate FilterColumnsIn(tf: TableFilter, cols: set<string>) {
    ColumnsIn(tf.filters, cols) && forall g | g in tf.groups :: ColumnsIn(g, cols)
  }

  /** The filters of table i find their columns; data frames do not apply those of a captured table. */
  predicate TableFilterRuns(e: Engine, db: Database, tables: seq<TableRef>, f: Filters, i: nat)
    requires i < |tables|
  {
    || (e.DataFrames? && Captor(e, tables, i).Some?)
    || FilterColumnsIn(TableFilterOn(f, tables[i].alias), LoadedCols(e, db, tables, i))
  }

  ghost predicate LeftOver(fs: Filters, f: Filter) { f in fs.where || exists g | g in fs.groups :: f in g }

  ghost predicate Owned(e: Engine, js: seq<Link>, cols: seq<set<string>>, c: string) {
    exists w: nat :: BareOwner(e, js, cols, c, w)
  }

  /** Every filtered column can be found where its filter is applied. */
  ghost predicate FiltersRun(e: Engine, db: Database, d: DraftSchema) {
    && (forall i: nat | i < |d.tables| :: TableFilterRuns(e, db, d.tables, d.filters, i))
    && forall f | LeftOver(d.filters, f) :: Owned(e, DraftLinks(e, d.joins), DraftCols(e, db, d), f.column)
  }

  /** The draft runs: the joins hang off the base, and keys and filtered columns can be found. */
  ghost predicate DraftRuns(e: Engine, db: Database, d: DraftSchema) {
    && (forall i | 0 <= i < |d.joins| :: d.joins[i].from == DraftBase(d))
    && JoinsRun(e, DraftLinks(e, d.joins), DraftCols(e, db, d))
    && FiltersRun(e, db, d)
  }

  ghost function KeepAccepted(o: Oracle, e: Engine, js: seq<Link>, cols: seq<set<string>>, f: Filters,
                              rows: seq<JoinedRow>): seq<JoinedRow>
  {
    if rows == [] then []
    else (if LeftOversAccept(o, BareReader(e, js, cols, rows[0]), f) then [rows[0]] else [])
         + KeepAccepted(o, e, js, cols, f, rows[1..])
  }

  /** Loads and filters each table, joins in order, then applies `where` and `where_groups` by bare column names. */
  ghost function DraftRows(e: Engine, o: Oracle, db: Database, d: DraftSchema): seq<JoinedRow> {
    var js := DraftLinks(e, d.joins);
    var joined := Eval(ColumnSteps(js), DraftTables(e, o, db, d));
    KeepAccepted(o, e, js, DraftCols(e, db, d), d.filters, joined)
  }

  // ---- what the query must satisfy ----

  /** Names are distinct, and SQL gives every join a meaning. */
  ghost predicate NamedChain(q: Query) {
    && (forall i, j | 0 <= i < j <= |q.joins| :: QueryTables(q)[i].alias != QueryTables(q)[j].alias)
    && forall i | 0 <= i < |q.joins| :: SqlKind(q.joins[i].side, q.joins[i].kind).Some?
  }

  /** Every row of the query's tables has exactly the columns its table shows. */
  predicate RowsFit(db: Database, tables: seq<TableRef>) {
    forall i | 0 <= i < |tables| :: forall r | r in RelationOf(db, tables[i]).rows ::
      r.Keys == RelationOf(db, tables[i]).cols
  }

  /** The query is one SQL accepts on this database: the join columns are there, and USING names single ones. */
  ghost predicate Accepted(db: Database, q: Query) {
    var tables := QueryTables(q);
    var cols := Cols(db, tables);
    && RowsFit(db, tables)
    && forall m: nat | m < |q.joins| && !KindOf(q.joins[m]).Cross? ::
         if q.joins[m].using != [] then
           && KeysThere(NodeLink(q.joins[m]), cols, m)
           && forall k | k in q.joins[m].using :: OneColumn(CompiledSql, NodeLinks(q), cols, m, k)
         else q.joins[m].on.Some? ==>
           forall r | r in Refs(q.joins[m].on.value) :: RefThere(r, tables, cols, m + 2)
  }

  /** A qualified column is one of its table's. */
  predicate RefThere(r: Ref, tables: seq<TableRef>, cols: seq<set<string>>, width: nat)
    requires |tables| == |cols|
  {
    forall i | 0 <= i < width && i < |tables| && r.table == Some(tables[i].alias) :: r.name in cols[i]
  }

  /**
   * Every WHERE column is found: a qualified one in its visible table, any other in exactly
   * one visible table. No LIKE is negated twice.
   */
  ghost predicate FoundWhere(db: Database, q: Query) {
    q.where.Some? ==>
      AllFound(FinalScope(db, QueryTables(q), QueryKinds(q)), q.where.value, |q.joins| + 1) && NegatedOnce(q.where.value)
  }

  /** An OR group that moves to a table is all about that table. */
  ghost predicate GroupsFit(db: Database, q: Query)
    requires MapFrom(q.base, q.joins).Ok?
  {
    q.where.Some? ==>
      var m := MapFrom(q.base, q.joins).value;
      GroupsTogether(FinalScope(db, QueryTables(q), QueryKinds(q)), q.where.value, m.tables, m.nullable)
  }

  /** The bare name of this column still means its table in the draft. */
  ghost predicate ColumnMeans(e: Engine, db: Database, q: Query, joins: seq<DraftJoin>, r: Ref) {
    forall i: nat | i <= |q.joins| && RefersTo(FinalScope(db, QueryTables(q), QueryKinds(q)), r, i) ::
      BareMeans(e, DraftLinks(e, joins), Cols(db, QueryTables(q)), r.name, i)
  }

  /** In every conjunct that is left over, the bare column names still mean their tables. */
  ghost predicate LeftOversMean(e: Engine, db: Database, q: Query)
    requires MapFrom(q.base, q.joins).Ok?
  {
    q.where.Some? ==>
      var m := MapFrom(q.base, q.joins).value;
      forall c, r | c in TopConjuncts(q.where.value) && MovesTo(c, m.tables, m.nullable).None? && r in Refs(c) ::
        ColumnMeans(e, db, q, m.joins, r)
  }

  // ---- the FROM clause is mapped faithfully ----

  lemma {:induction false} PutNew(tables: seq<TableRef>, t: TableRef)
    requires forall x | x in tables :: x.alias != t.alias
    ensures Put(tables, t) == tables + [t]
  {
    if tables != [] { PutNew(tables[1..], t); }
  }

  lemma AliasIsName(item: FromItem, tables: seq<TableRef>)
    requires item.Table? && forall x | x in tables :: x.alias != SqlName(item).alias
    ensures AliasOf(item, tables) == SqlName(item).alias
  {
    var e := AliasSet(tables);
    if !(item.alias.Some? && item.alias.value != []) {
      assert Candidate(LastSegment(item.fqn), 0) == LastSegment(item.fqn);
      assert LastSegment(item.fqn) !in e;
    }
  }

  predicate Fits(j: DraftJoin, node: JoinNode, base: string) {
    && j.from == base && j.to == SqlName(node.right).alias && j.kind == JoinType(node.side, node.kind)
    && (j.kind.Cross? || (j.keysFrom != [] &&
        if node.using != [] then j.keysFrom == j.keysTo == node.using
        else MapEquiJoin(node.on, base, j.to) == Some((j.keysFrom, j.keysTo))))
  }

  function Prefix(q: Query, n: nat): Query
    requires n <= |q.joins|
  {
    Query(q.base, q.joins[..n], q.where)
  }

  lemma PrefixTables(q: Query, n: nat)
    requires n <= |q.joins|
    ensures QueryTables(Prefix(q, n)) == QueryTables(q)[..n + 1]
    ensures NamedChain(q) ==> NamedChain(Prefix(q, n))
  {
    assert QueryTables(Prefix(q, n)) == QueryTables(q)[..n + 1];
    assert forall i | 0 <= i <= n :: QueryTables(Prefix(q, n))[i] == QueryTables(q)[i];
  }

  lemma MapJoinShape(m: Mapped, base: string, node: JoinNode)
    requires MapJoin(m, base, node).Ok? && forall x | x in m.tables :: x.alias != SqlName(node.right).alias
    ensures var m' := MapJoin(m, base, node).value;
            && m'.tables == m.tables + [SqlName(node.right)]
            && |m'.joins| == |m.joins| + 1 && m'.joins[..|m.joins|] == m.joins
            && Fits(m'.joins[|m.joins|], node, base)
  {
    AliasIsName(node.right, m.tables);
    PutNew(m.tables, SqlName(node.right));
  }

  /** In a named chain each joined table has an alias of its own. */
  lemma NewAlias(q: Query, n: nat)
    requires NamedChain(q) && n < |q.joins|
    ensures forall x | x in QueryTables(q)[..n + 1] :: x.alias != SqlName(q.joins[n].right).alias
  {
    var tables := QueryTables(q);
    assert tables[n + 1] == SqlName(q.joins[n].right);
    forall x | x in tables[..n + 1] ensures x.alias != tables[n + 1].alias {
      var i :| 0 <= i < n + 1 && tables[i] == x;
    }
  }

  lemma FitsExtended(before: seq<DraftJoin>, after: seq<DraftJoin>, nodes: seq<JoinNode>, base: string)
    requires |after| == |nodes| == |before| + 1 && after[..|before|] == before
    requires forall i | 0 <= i < |before| :: Fits(before[i], nodes[..|before|][i], base)
    requires Fits(after[|before|], nodes[|before|], base)
    ensures forall i | 0 <= i < |after| :: Fits(after[i], nodes[i], base)
  {
    forall i | 0 <= i < |before| ensures after[i] == before[i] && nodes[i] == nodes[..|before|][i] {}
  }

  lemma MapFromStep(q: Query)
    requires q.joins != [] && MapFrom(q.base, q.joins).Ok?
    ensures var n := |q.joins| - 1;
            && MapFrom(q.base, q.joins[..n]).Ok?
            && MapJoin(MapFrom(q.base, q.joins[..n]).value, AliasOf(q.base, []), q.joins[n]) == MapFrom(q.base, q.joins)
  {
  }

  ghost predicate MappedAs(q: Query, m: Mapped) {
    && m.tables == QueryTables(q) && |m.joins| == |q.joins|
    && forall i | 0 <= i < |q.joins| :: Fits(m.joins[i], q.joins[i], SqlName(q.base).alias)
  }

  lemma MappedNext(q: Query, m0: Mapped, m: Mapped)
    requires q.joins != [] && NamedChain(q) && MappedAs(Prefix(q, |q.joins| - 1), m0)
    requires MapJoin(m0, SqlName(q.base).alias, q.joins[|q.joins| - 1]) == Ok(m)
    ensures MappedAs(q, m)
  {
    var n, tables := |q.joins| - 1, QueryTables(q);
    PrefixTables(q, n);
    NewAlias(q, n);
    MapJoinShape(m0, SqlName(q.base).alias, q.joins[n]);
    assert tables[..n + 1] + [tables[n + 1]] == tables;
    FitsExtended(m0.joins, m.joins, q.joins, SqlName(q.base).alias);
  }

  /** An accepted FROM keeps the tables and joins of the query, in order. */
  lemma {:induction false} MapFromShape(q: Query)
    requires MapFrom(q.base, q.joins).Ok? && NamedChain(q)
    ensures var m := MapFrom(q.base, q.joins).value;
            && m.tables == QueryTables(q) && |m.joins| == |q.joins|
            && forall i | 0 <= i < |q.joins| :: Fits(m.joins[i], q.joins[i], SqlName(q.base).alias)
    decreases |q.joins|
  {
    AliasIsName(q.base, []);
    if q.joins != [] {
      var n := |q.joins| - 1;
      PrefixTables(q, n);
      MapFromStep(q);
      MapFromShape(Prefix(q, n));
      MappedNext(q, MapFrom(q.base, q.joins[..n]).value, MapFrom(q.base, q.joins).value);
    } else {
      assert QueryTables(q) == [SqlName(q.base)];
    }
  }

  /** The last join adds its own nullable aliases to those of the joins before it. */
  lemma NullableStep(q: Query)
    requires q.joins != [] && MapFrom(q.base, q.joins).Ok? && NamedChain(q)
    ensures var n := |q.joins| - 1;
            && MapFrom(q.base, q.joins[..n]).Ok? && NamedChain(Prefix(q, n))
            && QueryTables(Prefix(q, n)) == QueryTables(q)[..n + 1]
            && MapFrom(q.base, q.joins).value.nullable
               == MapFrom(q.base, q.joins[..n]).value.nullable
                  + NullableFrom(FoundKinds(q)[n], QueryTables(q)[0].alias, QueryTables(q)[n + 1].alias)
  {
    var n := |q.joins| - 1;
    PrefixTables(q, n);
    MapFromShape(q);
    MapFromShape(Prefix(q, n));
    AliasIsName(q.base, []);
    var m := MapFrom(q.base, q.joins).value;
    assert m.joins[n].to == QueryTables(q)[n + 1].alias by { assert Fits(m.joins[n], q.joins[n], SqlName(q.base).alias); }
  }

  /** The names an equality of a base and a right column equates, base first. */
  function KeyPair(c: Pred, base: string): (string, string)
    requires c.Compare? && c.subject.Column? && c.other.Column?
  {
    var a, b := c.subject.ref, c.other.ref;
    if a.table == Some(base) then (a.name, b.name) else (b.name, a.name)
  }

  lemma LastKeyPair(cs: seq<Pred>, base: string, right: string)
    requires cs != [] && EquiKeys(cs, base, right).Some?
    ensures var n := |cs| - 1;
            && EquiKeys(cs[..n], base, right).Some?
            && cs[n].Compare? && cs[n].op == EQ && cs[n].subject.Column? && cs[n].other.Column?
            && {cs[n].subject.ref.table, cs[n].other.ref.table} == {Some(base), Some(right)}
            && EquiKeys(cs, base, right).value
               == (EquiKeys(cs[..n], base, right).value.0 + [KeyPair(cs[n], base).0],
                   EquiKeys(cs[..n], base, right).value.1 + [KeyPair(cs[n], base).1])
  {
  }

  lemma KeyPairMeaning(o: Oracle, s: Scope, row: JoinedRow, c: Pred, base: string, right: string)
    requires c.Compare? && c.op == EQ && c.subject.Column? && c.other.Column? && |row| >= 2
    requires {c.subject.ref.table, c.other.ref.table} == {Some(base), Some(right)}
    requires AliasAt(s, base, 0) && AliasAt(s, right, |row| - 1)
    ensures var x, y := Get(RowOf(row[0]), KeyPair(c, base).0), Get(RowOf(row[|row| - 1]), KeyPair(c, base).1);
            EvalPred(o, s, row, c) == True <==> x.Val? && x == y
  {
    EquatedRefs(s, row, c.subject.ref, c.other.ref, base, right);
    assert EvalPred(o, s, row, c) == Compare3(o, EQ, Lookup(s, row, c.subject.ref), Lookup(s, row, c.other.ref));
  }

  /** The equated keys say what the ON predicate says. */
  lemma {:induction false} EquiKeysMeaning(o: Oracle, s: Scope, row: JoinedRow, cs: seq<Pred>, base: string,
                                           right: string)
    requires EquiKeys(cs, base, right).Some? && |row| >= 2
    requires AliasAt(s, base, 0) && AliasAt(s, right, |row| - 1)
    ensures var (kl, kr) := EquiKeys(cs, base, right).value;
            |kl| == |kr| && (KeysMatch(RowOf(row[0]), RowOf(row[|row| - 1]), kl, kr)
                             <==> forall c | c in cs :: EvalPred(o, s, row, c) == True)
    decreases |cs|
  {
    if cs != [] {
      var n := |cs| - 1;
      LastKeyPair(cs, base, right);
      EquiKeysMeaning(o, s, row, cs[..n], base, right);
      KeyPairMeaning(o, s, row, cs[n], base, right);
      var (kl, kr) := EquiKeys(cs[..n], base, right).value;
      var (x, y) := KeyPair(cs[n], base);
      KeysMatchSnoc(RowOf(row[0]), RowOf(row[|row| - 1]), kl, kr, x, y);
      assert cs == cs[..n] + [cs[n]];
      assert forall c :: c in cs <==> c in cs[..n] || c == cs[n];
    }
  }

  lemma EquatedRefs(s: Scope, row: JoinedRow, a: Ref, b: Ref, base: string, right: string)
    requires {a.table, b.table} == {Some(base), Some(right)} && |row| >= 2
    requires AliasAt(s, base, 0) && AliasAt(s, right, |row| - 1)
    ensures if a.table == Some(base)
            then
              && Lookup(s, row, a) == Get(RowOf(row[0]), a.name)
              && Lookup(s, row, b) == Get(RowOf(row[|row| - 1]), b.name)
            else
              && Lookup(s, row, b) == Get(RowOf(row[0]), b.name)
              && Lookup(s, row, a) == Get(RowOf(row[|row| - 1]), a.name)
  {
    assert a.table in {Some(base), Some(right)} && b.table in {Some(base), Some(right)};
    assert Some(right) in {a.table, b.table} && Some(base) in {a.table, b.table};
    if a.table == Some(base) {
      LookupAt(s, row, a, 0);
      LookupAt(s, row, b, |row| - 1);
    } else {
      LookupAt(s, row, b, 0);
      LookupAt(s, row, a, |row| - 1);
    }
  }

  lemma KeysMatchSnoc(b: Row, r: Row, kl: seq<string>, kr: seq<string>, x: string, y: string)
    requires |kl| == |kr|
    ensures KeysMatch(b, r, kl + [x], kr + [y]) <==> KeysMatch(b, r, kl, kr) && Get(b, x).Val? && Get(b, x) == Get(r, y)
  {
    assert forall i | 0 <= i < |kl| :: (kl + [x])[i] == kl[i] && (kr + [y])[i] == kr[i];
    assert (kl + [x])[|kl|] == x && (kr + [y])[|kl|] == y;
  }

  // ---- the query's joins and the draft's, as links ----

  /** Join i of the query, on the keys found for it: merging if it is USING them. */
  function QueryLink(node: JoinNode, j: DraftJoin): Link {
    var merges := NodeLink(node).merges;
    Link(KindOf(node), j.keysFrom, j.keysTo, merges, merges)
  }

  function QueryLinks(q: Query, joins: seq<DraftJoin>): (r: seq<Link>)
    requires |joins| == |q.joins|
    ensures |r| == |joins| && forall i | 0 <= i < |r| :: r[i] == QueryLink(q.joins[i], joins[i])
  {
    seq(|joins|, i requires 0 <= i < |joins| => QueryLink(q.joins[i], joins[i]))
  }

  lemma KeysSameLength(cs: seq<Pred>, base: string, right: string)
    requires EquiKeys(cs, base, right).Some?
    ensures |EquiKeys(cs, base, right).value.0| == |EquiKeys(cs, base, right).value.1|
  {
  }

  predicate AllFit(q: Query, joins: seq<DraftJoin>) {
    |joins| == |q.joins| && forall i | 0 <= i < |joins| :: Fits(joins[i], q.joins[i], SqlName(q.base).alias)
  }

  lemma LinkIsValid(e: Engine, q: Query, joins: seq<DraftJoin>, i: nat)
    requires NamedChain(q) && AllFit(q, joins) && i < |joins|
    ensures ValidLink(QueryLinks(q, joins)[i]) && ValidLink(DraftLinks(e, joins)[i])
  {
    var j, node := joins[i], q.joins[i];
    assert Fits(j, node, SqlName(q.base).alias) && SqlKind(node.side, node.kind).Some?;
    if !j.kind.Cross? && node.using == [] {
      KeysSameLength(FlattenAnd(node.on.value), SqlName(q.base).alias, j.to);
    }
  }

  lemma LinksAreValid(e: Engine, q: Query, joins: seq<DraftJoin>)
    requires NamedChain(q) && AllFit(q, joins)
    ensures ValidLinks(QueryLinks(q, joins)) && ValidLinks(DraftLinks(e, joins))
  {
    forall i | 0 <= i < |joins| ensures ValidLink(QueryLinks(q, joins)[i]) && ValidLink(DraftLinks(e, joins)[i]) {
      LinkIsValid(e, q, joins, i);
    }
  }

  lemma {:induction false} SameSource(a: seq<Link>, b: seq<Link>, n: nat, k: string)
    requires n <= |a| == |b| && forall i | 0 <= i < n :: a[i].kind == b[i].kind && Merged(a[i]) == Merged(b[i])
    ensures Source(a, n, k) == Source(b, n, k)
  {
    if n > 0 { SameSource(a, b, n - 1, k); }
  }

  lemma NodeSources(q: Query, joins: seq<DraftJoin>, n: nat)
    requires NamedChain(q) && AllFit(q, joins) && n < |joins| && NodeLink(q.joins[n]).merges
    ensures Sources(NodeLinks(q), n, q.joins[n].using) == Sources(QueryLinks(q, joins), n, q.joins[n].using)
  {
    forall i | 0 <= i < n
      ensures NodeLinks(q)[i].kind == QueryLinks(q, joins)[i].kind
              && Merged(NodeLinks(q)[i]) == Merged(QueryLinks(q, joins)[i])
    {
      assert Fits(joins[i], q.joins[i], SqlName(q.base).alias) && SqlKind(q.joins[i].side, q.joins[i].kind).Some?;
    }
    forall i | 0 <= i < |q.joins[n].using|
      ensures Source(NodeLinks(q), n, q.joins[n].using[i]) == Source(QueryLinks(q, joins), n, q.joins[n].using[i])
    {
      SameSource(NodeLinks(q), QueryLinks(q, joins), n, q.joins[n].using[i]);
    }
  }

  lemma QualifiedMatch(l: JoinedRow, r: Row, sources: seq<seq<nat>>, kl: seq<string>, kr: seq<string>)
    requires l != [] && |sources| == |kl| && forall i | 0 <= i < |kl| :: sources[i] == [0]
    ensures ColumnsMatch(l, r, sources, kl, kr) <==> KeysMatch(RowOf(l[0]), r, kl, kr)
  {
    forall i | 0 <= i < |kl|
      ensures Coalesced(l, sources[i], kl[i]) == Get(RowOf(l[0]), kl[i]) { OneSource(l, 0, kl[i]); }
  }

  /** A join of the query matches as its link says. */
  lemma StepAgrees(o: Oracle, db: Database, q: Query, joins: seq<DraftJoin>, i: nat, l: JoinedRow, r: Row)
    requires i < |joins| && NamedChain(q) && AllFit(q, joins) && |l| == i + 1
    ensures On(QueryStep(o, db, q, i), l, r) == On(ColumnStep(QueryLinks(q, joins), i), l, r)
  {
    var node, j := q.joins[i], joins[i];
    assert Fits(j, node, SqlName(q.base).alias) && SqlKind(node.side, node.kind).Some?;
    if !j.kind.Cross? {
      if node.using != [] {
        NodeSources(q, joins, i);
      } else {
        OnAgrees(o, db, q, i, j, l, r);
        QualifiedMatch(l, r, Sources(QueryLinks(q, joins), i, j.keysFrom), j.keysFrom, j.keysTo);
      }
    }
  }

  /** The ON predicate equates the base's keys and the right table's. */
  lemma OnAgrees(o: Oracle, db: Database, q: Query, i: nat, j: DraftJoin, l: JoinedRow, r: Row)
    requires i < |q.joins| && NamedChain(q) && Fits(j, q.joins[i], SqlName(q.base).alias) && |l| == i + 1
    requires !j.kind.Cross? && q.joins[i].using == []
    ensures q.joins[i].on.Some?
    ensures var tables := QueryTables(q)[..i + 2];
            EvalPred(o, Scope(Aliases(tables), Cols(db, tables)), l + [Here(r)], q.joins[i].on.value) == True
            <==> KeysMatch(RowOf(l[0]), r, j.keysFrom, j.keysTo)
  {
    var node := q.joins[i];
    var tables := QueryTables(q);
    var s := Scope(Aliases(tables[..i + 2]), Cols(db, tables[..i + 2]));
    var base, right := SqlName(q.base).alias, j.to;
    assert tables[0].alias == base && tables[i + 1] == SqlName(node.right);
    forall k | 0 <= k < i + 2 ensures s.aliases[k] == tables[k].alias {}
    assert AliasAt(s, base, 0);
    assert AliasAt(s, right, i + 1);
    var row := l + [Here(r)];
    EquiKeysMeaning(o, s, row, FlattenAnd(node.on.value), base, right);
    FlattenAndMeaning(o, s, row, node.on.value);
    assert row[0] == l[0] && RowOf(row[i + 1]) == r;
  }

  /** Steps that match the same pairs on all rows of the right width join the same rows. */
  ghost predicate SameSteps(a: seq<Step>, b: seq<Step>) {
    |a| == |b| && forall i | 0 <= i < |a| :: a[i].kind == b[i].kind && SameOn(a[i], b[i], i + 1)
  }

  ghost predicate SameOn(a: Step, b: Step, w: nat) {
    forall l: JoinedRow, r: Row :: |l| == w ==> On(a, l, r) == On(b, l, r)
  }

  lemma SameOnAll(a: Step, b: Step, w: nat, ls: seq<JoinedRow>)
    requires SameOn(a, b, w) && Shaped(ls, w)
    ensures SameMatches(a, b, ls)
  {
    forall l | l in ls ensures SameOnRow(a, b, l) {}
  }

  lemma {:induction false} AfterSame(a: seq<Step>, b: seq<Step>, tables: seq<seq<Row>>, n: nat)
    requires SameSteps(a, b) && |tables| == |a| + 1 && n <= |a|
    ensures After(a, tables, n) == After(b, tables, n)
  {
    if n == 0 {
      AfterNone(a, tables);
      AfterNone(b, tables);
    } else {
      AfterSame(a, b, tables, n - 1);
      AfterNext(a, tables, n - 1);
      AfterNext(b, tables, n - 1);
      var left := After(a, tables, n - 1);
      AfterShaped(a, tables, n - 1);
      SameOnAll(a[n - 1], b[n - 1], n, left);
      JoinSame(a[n - 1], b[n - 1], left, tables[n], n);
    }
  }

  lemma EvalSame(a: seq<Step>, b: seq<Step>, tables: seq<seq<Row>>)
    requires SameSteps(a, b) && |tables| == |a| + 1
    ensures Eval(a, tables) == Eval(b, tables)
  {
    AfterSame(a, b, tables, |a|);
    AfterAll(a, tables);
    AfterAll(b, tables);
  }

  lemma QueryStepsAgree(o: Oracle, db: Database, q: Query, joins: seq<DraftJoin>)
    requires NamedChain(q) && AllFit(q, joins)
    ensures SameSteps(QuerySteps(o, db, q), ColumnSteps(QueryLinks(q, joins)))
  {
    var a, b := QuerySteps(o, db, q), ColumnSteps(QueryLinks(q, joins));
    forall i | 0 <= i < |a| ensures a[i].kind == b[i].kind && SameOn(a[i], b[i], i + 1) {
      forall l: JoinedRow, r: Row | |l| == i + 1 ensures On(a[i], l, r) == On(b[i], l, r) {
        StepAgrees(o, db, q, joins, i, l, r);
      }
    }
  }

  /**
   * The FROM clause is mapped to joins on the query's own keys: over any tables, the
   * query's joins and the executed draft's are chains that differ only in their kinds and
   * in the rows whose keys they carry on.
   */
  lemma FromFaithful(e: Engine, o: Oracle, db: Database, q: Query, tables: seq<seq<Row>>)
    requires MapFrom(q.base, q.joins).Ok? && NamedChain(q) && |tables| == |q.joins| + 1
    ensures var m := MapFrom(q.base, q.joins).value;
            && m.tables == QueryTables(q) && AllFit(q, m.joins)
            && ValidLinks(QueryLinks(q, m.joins)) && ValidLinks(DraftLinks(e, m.joins))
            && Eval(QuerySteps(o, db, q), tables) == Eval(KeySteps(QueryLinks(q, m.joins)), tables)
            && Eval(ColumnSteps(DraftLinks(e, m.joins)), tables) == Eval(KeySteps(DraftLinks(e, m.joins)), tables)
  {
    MapFromShape(q);
    var m := MapFrom(q.base, q.joins).value;
    LinksAreValid(e, q, m.joins);
    QueryStepsAgree(o, db, q, m.joins);
    EvalSame(QuerySteps(o, db, q), ColumnSteps(QueryLinks(q, m.joins)), tables);
    ExecutedChain(QueryLinks(q, m.joins), tables);
    ExecutedChain(DraftLinks(e, m.joins), tables);
  }

  lemma {:induction false} TableNamedAt(tables: seq<TableRef>, i: nat)
    requires i < |tables| && forall j, k | 0 <= j < k < |tables| :: tables[j].alias != tables[k].alias
    ensures TableNamed(tables, tables[i].alias) == tables[i]
  {
    if i > 0 {
      assert tables[1..][i - 1] == tables[i];
      TableNamedAt(tables[1..], i - 1);
    }
  }

  /** The draft's joins fit the query's, and its tables are the query's. */
  lemma MappedParts(q: Query, d: DraftSchema)
    requires MapStatement(q) == Ok(d) && NamedChain(q)
    ensures d.tables == QueryTables(q) && |d.joins| == |q.joins|
    ensures forall i | 0 <= i < |q.joins| :: Fits(d.joins[i], q.joins[i], SqlName(q.base).alias)
  {
    MapFromShape(q);
  }

  /** The draft joins the query's tables in the query's order. */
  lemma DraftOrder(q: Query, d: DraftSchema)
    requires MapStatement(q) == Ok(d) && NamedChain(q)
    ensures JoinOrder(d) == QueryTables(q) && DraftKinds(d) == FoundKinds(q)
    ensures forall i | 0 <= i < |d.joins| :: d.joins[i].from == DraftBase(d)
  {
    MappedParts(q, d);
    var tables := QueryTables(q);
    assert DraftBase(d) == tables[0].alias by {
      if d.joins != [] { assert Fits(d.joins[0], q.joins[0], SqlName(q.base).alias); }
    }
    TableNamedAt(tables, 0);
    forall i | 0 <= i < |d.joins|
      ensures TableNamed(d.tables, d.joins[i].to) == tables[i + 1] && d.joins[i].from == tables[0].alias
      ensures d.joins[i].kind == FoundKinds(q)[i]
    {
      DraftJoinAt(q, d, i);
    }
  }

  lemma DraftJoinAt(q: Query, d: DraftSchema, i: nat)
    requires MapStatement(q) == Ok(d) && NamedChain(q) && i < |q.joins|
    ensures |d.joins| == |q.joins|
    ensures TableNamed(d.tables, d.joins[i].to) == QueryTables(q)[i + 1] && d.joins[i].from == QueryTables(q)[0].alias
    ensures d.joins[i].kind == FoundKinds(q)[i]
  {
    MappedParts(q, d);
    assert Fits(d.joins[i], q.joins[i], SqlName(q.base).alias);
    TableNamedAt(QueryTables(q), i + 1);
  }

  lemma {:induction false} IndexNamedAt(tables: seq<TableRef>, i: nat)
    requires i < |tables| && DistinctAliases(tables)
    ensures IndexNamed(tables, tables[i].alias) == i
  {
    if i > 0 {
      assert tables[1..][i - 1] == tables[i];
      IndexNamedAt(tables[1..], i - 1);
    }
  }

  lemma DraftNames(q: Query, d: DraftSchema)
    requires MapStatement(q) == Ok(d) && NamedChain(q)
    ensures d.tables == QueryTables(q) == JoinOrder(d) && DistinctAliases(QueryTables(q))
    ensures forall i | 0 <= i < |d.tables| :: IndexNamed(d.tables, JoinOrder(d)[i].alias) == i
  {
    MappedParts(q, d);
    DraftOrder(q, d);
    forall i | 0 <= i < |d.tables| ensures IndexNamed(d.tables, JoinOrder(d)[i].alias) == i { IndexNamedAt(d.tables, i); }
  }

  /** The draft joins the query's tables as they are loaded. */
  lemma DraftLoads(e: Engine, o: Oracle, db: Database, q: Query, d: DraftSchema)
    requires MapStatement(q) == Ok(d) && NamedChain(q)
    ensures DraftTables(e, o, db, d) == Loaded(e, o, db, QueryTables(q), TableFilters(d.filters, QueryTables(q)))
  {
    DraftNames(q, d);
    var loaded := Loaded(e, o, db, QueryTables(q), TableFilters(d.filters, QueryTables(q)));
    forall i | 0 <= i < |loaded| ensures DraftTables(e, o, db, d)[i] == loaded[i] {}
  }

  lemma DraftColumns(e: Engine, db: Database, q: Query, d: DraftSchema)
    requires MapStatement(q) == Ok(d) && NamedChain(q)
    ensures |DraftCols(e, db, d)| == |QueryTables(q)|
    ensures forall i | 0 <= i < |QueryTables(q)| :: DraftCols(e, db, d)[i] == LoadedCols(e, db, QueryTables(q), i)
  {
    DraftNames(q, d);
  }

  /** Where loading gives every table its own rows, the draft joins the query's tables, filtered. */
  lemma DraftLoadsOwn(e: Engine, o: Oracle, db: Database, q: Query, d: DraftSchema)
    requires MapStatement(q) == Ok(d) && NamedChain(q)
             && LoadsOwn(e, QueryTables(q), TableFilters(d.filters, QueryTables(q)))
    ensures DraftTables(e, o, db, d)
            == FilterTables(o, TableFilters(d.filters, QueryTables(q)), Rows(db, QueryTables(q)))
  {
    DraftNames(q, d);
    DraftLoads(e, o, db, q, d);
    AllLoadedIsOwn(e, o, db, QueryTables(q), TableFilters(d.filters, QueryTables(q)));
  }

  lemma DraftColsOwn(e: Engine, db: Database, q: Query, d: DraftSchema)
    requires MapStatement(q) == Ok(d) && NamedChain(q) && SameTables(e, QueryTables(q))
    ensures DraftCols(e, db, d) == Cols(db, QueryTables(q))
  {
    DraftNames(q, d);
    DraftColumns(e, db, q, d);
    OwnColumns(e, db, QueryTables(q), DraftCols(e, db, d));
  }

  lemma OwnColumns(e: Engine, db: Database, tables: seq<TableRef>, cols: seq<set<string>>)
    requires DistinctAliases(tables) && SameTables(e, tables) && |cols| == |tables|
    requires forall i | 0 <= i < |tables| :: cols[i] == LoadedCols(e, db, tables, i)
    ensures cols == Cols(db, tables)
  {
    forall i | 0 <= i < |tables| ensures cols[i] == Cols(db, tables)[i] { ColsAreOwn(e, db, tables, i); }
  }
}
