/** Databases with the key columns and at most one row a table. */
module PushDownWitness {
  import opened Prelude
  import opened SqlValues
  import opened SqlQuery
  import opened Chains
  import opened ChainWitness
  import opened ChainCases
  import opened Draft
  import opened Loading
  import opened BareNames
  import opened MapperFrom
  import opened PushDown
  import opened PushDownTheorem
  import opened PushDownRuns

  /** The links of the query, and those of its draft. */
  ghost predicate LinksOf(e: Engine, q: Query, la: seq<Link>, lb: seq<Link>) {
    && MapFrom(q.base, q.joins).Ok? && NamedChain(q) && |MapFrom(q.base, q.joins).value.joins| == |q.joins|
    && la == QueryLinks(q, MapFrom(q.base, q.joins).value.joins)
    && lb == DraftLinks(e, MapFrom(q.base, q.joins).value.joins)
  }

  lemma JoinedLinks(e: Engine, q: Query, la: seq<Link>, lb: seq<Link>)
    requires LinksOf(e, q, la, lb)
    ensures Joined(la, lb) && |la| == |q.joins|
    ensures forall i | 0 <= i < |la| :: la[i].kind == QueryKinds(q)[i] && lb[i].kind == FoundKinds(q)[i]
  {
    MapFromShape(q);
    var joins := MapFrom(q.base, q.joins).value.joins;
    LinksAreValid(e, q, joins);
    forall i | 0 <= i < |la|
      ensures && la[i].left == lb[i].left && la[i].right == lb[i].right
              && (la[i].merges ==> lb[i].merges) && (la[i].bare ==> lb[i].bare)
              && la[i].kind == QueryKinds(q)[i] && lb[i].kind == FoundKinds(q)[i]
      ensures la[i].kind == lb[i].kind || (lb[i].kind.Inner? && (la[i].kind.LeftOuter? || la[i].kind.RightOuter?))
    {
      FoundKind(q, i);
      assert Fits(joins[i], q.joins[i], SqlName(q.base).alias);
    }
  }

  // ---- names ----

  predicate DistinctNames(tables: seq<TableRef>) {
    forall i, j | 0 <= i < j < |tables| :: tables[i].name != tables[j].name
  }

  predicate Uncaptured(e: Engine, tables: seq<TableRef>) {
    forall i: nat | i < |tables| :: Captor(e, tables, i).None?
  }

  /** Tables of distinct names are never the ones that capture them. */
  lemma SafeIsUncaptured(e: Engine, tables: seq<TableRef>, lb: seq<Link>)
    requires |tables| == |lb| + 1 && DistinctNames(tables)
    ensures NamesSafe(e, tables, lb) <==> Uncaptured(e, tables)
  {
    if Uncaptured(e, tables) {
      forall i: nat, j: nat | j < i < |tables| ensures !Captures(e, tables, i, j) { assert Captor(e, tables, i).None?; }
    }
  }

  // ---- columns ----

  /** The columns of table i: the keys of its joins, and for table x one more. */
  function WitnessCols(js: seq<Link>, x: nat, c: string): (r: seq<set<string>>)
    ensures |r| == |js| + 1
    ensures forall i | 0 <= i < |r| :: r[i] == KeyCols(js, i) + (if i == x then {c} else {})
  {
    seq(|js| + 1, i requires 0 <= i <= |js| => KeyCols(js, i) + (if i == x then {c} else {}))
  }

  function AllKeys(js: seq<Link>): set<string> { set i, k | 0 <= i <= |js| && k in KeyCols(js, i) :: k }

  lemma KeyedCols(js: seq<Link>, x: nat, c: string)
    requires ValidLinks(js)
    ensures Keyed(js, WitnessCols(js, x, c))
    ensures forall m: nat | m < |js| :: KeysThere(js[m], WitnessCols(js, x, c), m)
  {
    var cols := WitnessCols(js, x, c);
    forall m: nat | m < |js| && !js[m].kind.Cross?
      ensures (forall k | k in js[m].left :: k in cols[0]) && forall k | k in js[m].right :: k in cols[m + 1]
    {
      forall k | k in js[m].left ensures k in cols[0] {
        var i :| 0 <= i < |js[m].left| && js[m].left[i] == k;
        assert k in LeftNames(js);
      }
    }
  }

  lemma LeftIsKey(js: seq<Link>, m: nat, k: string)
    requires m < |js| && !js[m].kind.Cross? && k in js[m].left
    ensures k in AllKeys(js)
  {
    var i :| 0 <= i < |js[m].left| && js[m].left[i] == k;
    assert k in LeftNames(js) && k in KeyCols(js, 0);
  }

  /** Under distinct names that capture nothing, a table needs its own keys. */
  lemma OwnNeeds(e: Engine, tables: seq<TableRef>, js: seq<Link>, i: nat)
    requires |tables| == |js| + 1 && DistinctNames(tables) && Uncaptured(e, tables) && i < |tables|
    ensures Root(e, tables, i) == i && NeedsOf(e, tables, js, tables[i].name) == KeyCols(js, i)
  {
    assert Captor(e, tables, i).None?;
    forall k | k in NeedsOf(e, tables, js, tables[i].name) ensures k in KeyCols(js, i) {
      var n :| 0 <= n < |tables|
        && (tables[n].name == tables[i].name || tables[Root(e, tables, n)].name == tables[i].name)
               && k in KeyCols(js, n);
      assert Captor(e, tables, n).None?;
      assert n == i;
    }
    forall k | k in KeyCols(js, i) ensures k in NeedsOf(e, tables, js, tables[i].name) {}
  }

  /** One more column that is no key leaves every key one column. */
  lemma KeysStayOne(e: Engine, js: seq<Link>, keys: seq<Link>, cols: seq<set<string>>, x: nat, c: string)
    requires |js| == |keys| && |cols| == |js| + 1 && ValidLinks(js) && c !in AllKeys(keys) && BareKeysAreOne(e, js, cols)
    requires forall i | 0 <= i < |cols| :: cols[i] == KeyCols(keys, i)
    requires forall i | 0 <= i < |js| :: (js[i].kind.Cross? <==> keys[i].kind.Cross?) && js[i].left == keys[i].left
    ensures BareKeysAreOne(e, js, WitnessCols(keys, x, c))
  {
    forall m: nat, k | m < |js| && js[m].bare && k in js[m].left ensures OneColumn(e, js, WitnessCols(keys, x, c), m, k) {
      assert ValidLink(js[m]) && OneColumn(e, js, cols, m, k);
      LeftIsKey(keys, m, k);
    }
  }

  /** Each table shows its columns and has these rows. */
  ghost predicate Holds(db: Database, tables: seq<TableRef>, cols: seq<set<string>>, t: seq<seq<Row>>) {
    |cols| == |t| == |tables| && forall i | 0 <= i < |tables| :: RelationOf(db, tables[i]) == Relation(cols[i], t[i])
  }

  lemma SomeDatabase(tables: seq<TableRef>, cols: seq<set<string>>, t: seq<seq<Row>>) returns (db: Database)
    requires |cols| == |t| == |tables| && DistinctNames(tables)
    ensures Holds(db, tables, cols, t)
  {
    var names := set i | 0 <= i < |tables| :: tables[i].name;
    db := map n | n in names :: var i :| 0 <= i < |tables| && tables[i].name == n; Relation(cols[i], t[i]);
    forall i | 0 <= i < |tables| ensures RelationOf(db, tables[i]) == Relation(cols[i], t[i]) {
      assert tables[i].name in names;
    }
  }

  lemma HeldIs(db: Database, tables: seq<TableRef>, cols: seq<set<string>>, t: seq<seq<Row>>)
    requires Holds(db, tables, cols, t)
    ensures Cols(db, tables) == cols && Rows(db, tables) == t
  {
    assert forall i | 0 <= i < |tables| :: Cols(db, tables)[i] == cols[i] && Rows(db, tables)[i] == t[i];
  }

  lemma HeldFits(db: Database, tables: seq<TableRef>, cols: seq<set<string>>, t: seq<seq<Row>>)
    requires Holds(db, tables, cols, t) && AllUnit(cols, t)
    ensures RowsFit(db, tables)
  {
    forall i | 0 <= i < |tables|
      ensures forall r | r in RelationOf(db, tables[i]).rows :: r.Keys == RelationOf(db, tables[i]).cols
    {
      assert RelationOf(db, tables[i]).rows == t[i];
    }
  }

  lemma OnRefsThere(q: Query, joins: seq<DraftJoin>, cols: seq<set<string>>, m: nat, r: Ref)
    requires NamedChain(q) && AllFit(q, joins) && m < |joins| && !joins[m].kind.Cross? && q.joins[m].using == []
    requires |cols| == |joins| + 1 && q.joins[m].on.Some? && r in Refs(q.joins[m].on.value)
    requires KeysThere(QueryLinks(q, joins)[m], cols, m)
    ensures RefThere(r, QueryTables(q), cols, m + 2)
  {
    var j, node, tables := joins[m], q.joins[m], QueryTables(q);
    assert Fits(j, node, SqlName(q.base).alias) && SqlKind(node.side, node.kind).Some?;
    assert tables[0].alias == SqlName(q.base).alias && tables[m + 1].alias == j.to;
    OnRefs(node.on.value, tables[0].alias, j.to, r);
    if r.table == Some(tables[0].alias) && r.name in j.keysFrom { assert r.name in cols[0]; }
  }

  /** A query whose keys are there, and single where it needs that, is accepted. */
  lemma QueryIsAccepted(db: Database, q: Query, joins: seq<DraftJoin>)
    requires NamedChain(q) && AllFit(q, joins) && RowsFit(db, QueryTables(q))
    requires forall m: nat | m < |joins| :: KeysThere(QueryLinks(q, joins)[m], Cols(db, QueryTables(q)), m)
    requires BareKeysAreOne(CompiledSql, QueryLinks(q, joins), Cols(db, QueryTables(q)))
    ensures Accepted(db, q)
  {
    var la, cols, tables := QueryLinks(q, joins), Cols(db, QueryTables(q)), QueryTables(q);
    forall m: nat | m < |q.joins| && !KindOf(q.joins[m]).Cross? && q.joins[m].using != []
      ensures KeysThere(NodeLink(q.joins[m]), cols, m)
      ensures forall k | k in q.joins[m].using :: OneColumn(CompiledSql, NodeLinks(q), cols, m, k)
    {
      UsingIsAccepted(q, joins, cols, m);
    }
    forall m: nat, r | m < |q.joins| && !KindOf(q.joins[m]).Cross? && q.joins[m].using == [] && q.joins[m].on.Some?
      && r in Refs(q.joins[m].on.value)
      ensures RefThere(r, tables, cols, m + 2)
    {
      QueryKeysThere(CompiledSql, q, joins, cols, m);
      OnRefsThere(q, joins, cols, m, r);
    }
  }

  lemma UsingIsAccepted(q: Query, joins: seq<DraftJoin>, cols: seq<set<string>>, m: nat)
    requires NamedChain(q) && AllFit(q, joins) && m < |joins| && |cols| == |joins| + 1
    requires !KindOf(q.joins[m]).Cross? && q.joins[m].using != []
    requires KeysThere(QueryLinks(q, joins)[m], cols, m) && BareKeysAreOne(CompiledSql, QueryLinks(q, joins), cols)
    ensures KeysThere(NodeLink(q.joins[m]), cols, m)
    ensures forall k | k in q.joins[m].using :: OneColumn(CompiledSql, NodeLinks(q), cols, m, k)
  {
    assert Fits(joins[m], q.joins[m], SqlName(q.base).alias) && SqlKind(q.joins[m].side, q.joins[m].kind).Some?;
    forall k | k in q.joins[m].using ensures OneColumn(CompiledSql, NodeLinks(q), cols, m, k) {
      OneForQuery(q, joins, cols, m, k);
      assert QueryLinks(q, joins)[m].bare && k in QueryLinks(q, joins)[m].left;
    }
  }

  /** On a database with these columns and rows the query is accepted. */
  lemma HeldIsAccepted(e: Engine, q: Query, la: seq<Link>, lb: seq<Link>, cols: seq<set<string>>, t: seq<seq<Row>>,
                       db: Database)
    requires LinksOf(e, q, la, lb) && Holds(db, QueryTables(q), cols, t) && AllUnit(cols, t) && |cols| == |lb| + 1
    requires |la| == |lb| && BareKeysAreOne(CompiledSql, la, cols)
    requires forall m: nat | m < |lb| :: KeysThere(lb[m], cols, m)
    ensures Accepted(db, q)
  {
    MapFromShape(q);
    var joins := MapFrom(q.base, q.joins).value.joins;
    HeldIs(db, QueryTables(q), cols, t);
    HeldFits(db, QueryTables(q), cols, t);
    forall m: nat | m < |joins| ensures KeysThere(la[m], cols, m) { QueryKeysThere(e, q, joins, cols, m); }
    QueryIsAccepted(db, q, joins);
  }

  /** A joinable list of joins of distinct tables: query and draft both run on the witness columns. */
  lemma WitnessRuns(e: Engine, q: Query, la: seq<Link>, lb: seq<Link>, x: nat, c: string, t: seq<seq<Row>>)
    returns (db: Database)
    requires LinksOf(e, q, la, lb) && |la| == |lb| == |q.joins| && Joinable(e, QueryTables(q), la, lb)
             && c !in AllKeys(lb)
    requires DistinctNames(QueryTables(q)) && Uncaptured(e, QueryTables(q))
    requires AllUnit(WitnessCols(lb, x, c), t)
    ensures Holds(db, QueryTables(q), WitnessCols(lb, x, c), t) && Accepted(db, q)
    ensures CrossRuns(e, lb) && BareKeysAreOne(e, lb, Cols(db, QueryTables(q)))
  {
    JoinedLinks(e, q, la, lb);
    var tables := QueryTables(q);
    db := SomeDatabase(tables, WitnessCols(lb, x, c), t);
    HeldIs(db, tables, WitnessCols(lb, x, c), t);
    KeyedCols(lb, x, c);
    WitnessKeysAreOne(e, tables, la, lb, x, c);
    HeldIsAccepted(e, q, la, lb, WitnessCols(lb, x, c), t, db);
  }

  lemma WitnessKeysAreOne(e: Engine, tables: seq<TableRef>, la: seq<Link>, lb: seq<Link>, x: nat, c: string)
    requires Joined(la, lb) && |tables| == |lb| + 1 && Joinable(e, tables, la, lb) && c !in AllKeys(lb)
    requires DistinctNames(tables) && Uncaptured(e, tables)
    ensures BareKeysAreOne(CompiledSql, la, WitnessCols(lb, x, c)) && BareKeysAreOne(e, lb, WitnessCols(lb, x, c))
  {
    forall i | 0 <= i < |tables|
      ensures QueryNeeds(e, tables, lb)[i] == KeyCols(lb, i) && DraftNeeds(e, tables, lb)[i] == KeyCols(lb, i)
    {
      OwnNeeds(e, tables, lb, i);
    }
    KeysStayOne(CompiledSql, la, lb, QueryNeeds(e, tables, lb), x, c);
    KeysStayOne(e, lb, lb, DraftNeeds(e, tables, lb), x, c);
  }
}
