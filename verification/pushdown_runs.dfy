/** When the draft of a query runs. */
module PushDownRuns {
  import opened Prelude
  import opened SqlValues
  import opened SqlQuery
  import opened Joins
  import opened Chains
  import opened Draft
  import opened Loading
  import opened BareNames
  import opened MapperWhere
  import opened WhereMeaning
  import opened MapperFrom
  import opened PushDown
  import opened PushDownTheorem

  // ---- the columns of mapped conjuncts ----

  lemma {:induction false} FlattenAndCovers(p: Pred, r: Ref)
    requires r in Refs(p)
    ensures exists c | c in FlattenAnd(p) :: r in Refs(c)
  {
    match p
    case Paren(q) => FlattenAndCovers(q, r);
    case And(a, b) =>
      if r in Refs(a) { FlattenAndCovers(a, r); } else { FlattenAndCovers(b, r); }
      assert forall c | c in FlattenAnd(a) || c in FlattenAnd(b) :: c in FlattenAnd(p);
    case _ => assert p in FlattenAnd(p);
  }

  lemma {:induction false} FlattenOrCovers(p: Pred, r: Ref)
    requires r in Refs(p)
    ensures exists c | c in FlattenOr(p) :: r in Refs(c)
  {
    match p
    case Paren(q) => FlattenOrCovers(q, r);
    case Or(a, b) =>
      if r in Refs(a) { FlattenOrCovers(a, r); } else { FlattenOrCovers(b, r); }
      assert forall c | c in FlattenOr(a) || c in FlattenOr(b) :: c in FlattenOr(p);
    case _ => assert p in FlattenOr(p);
  }

  /** Every column of a mapped group is the column of one of its filters. */
  lemma GroupCovers(c: Pred, r: Ref, tables: seq<TableRef>) returns (g: seq<Filter>, f: Filter)
    requires MapBranches(FlattenOr(c), tables).Some? && r in Refs(c)
    ensures g in BranchFilters(MapBranches(FlattenOr(c), tables).value) && f in g && f.column == r.name
  {
    var ps := FlattenOr(c);
    var bs := MapBranches(ps, tables).value;
    FlattenOrCovers(c, r);
    var b :| b in ps && r in Refs(b);
    FlattenAndCovers(b, r);
    var a :| a in FlattenAnd(b) && r in Refs(a);
    var i :| 0 <= i < |ps| && ps[i] == b;
    var cs := FlattenAnd(b);
    var j :| 0 <= j < |cs| && cs[j] == a;
    MapBranchesAt(ps, tables, i);
    MapAtomsAt(cs, tables, j);
    ConditionRefs(a);
    assert r == ConditionRef(a);
    g, f := FiltersOf(bs[i]), bs[i][j].filter;
    assert BranchFilters(bs)[i] == g && g[j] == f;
  }

  ghost predicate Names(p: Pred, name: string) { exists r | r in Refs(p) :: r.name == name }

  ghost predicate NamedIn(gs: seq<seq<Filter>>, name: string) { exists g, f | g in gs && f in g :: f.column == name }

  lemma AtomNames(c: Pred, tables: seq<TableRef>, name: string)
    requires MapAtom(c, tables).Some?
    ensures Names(c, name) <==> MapAtom(c, tables).value.filter.column == name
  {
    ConditionRefs(c);
    assert ConditionRef(c) in Refs(c);
  }

  lemma BranchNames(b: Pred, tables: seq<TableRef>, f: Filter)
    requires MapAtoms(FlattenAnd(b), tables).Some? && f in FiltersOf(MapAtoms(FlattenAnd(b), tables).value)
    ensures Names(b, f.column)
  {
    var cs := FlattenAnd(b);
    var xs := MapAtoms(cs, tables).value;
    var i :| 0 <= i < |xs| && xs[i].filter == f;
    FlattenAndParts(b);
    MapAtomsAt(cs, tables, 0);
    MapAtomsAt(cs, tables, i);
    assert cs[i] in cs;
    AtomNames(cs[i], tables, f.column);
    var r :| r in Refs(cs[i]) && r.name == f.column;
    assert r in Refs(b);
  }

  lemma GroupNames(c: Pred, tables: seq<TableRef>, name: string)
    requires MapBranches(FlattenOr(c), tables).Some?
    ensures Names(c, name) <==> NamedIn(BranchFilters(MapBranches(FlattenOr(c), tables).value), name)
  {
    var ps := FlattenOr(c);
    var bs := MapBranches(ps, tables).value;
    if Names(c, name) {
      var r :| r in Refs(c) && r.name == name;
      var g, f := GroupCovers(c, r, tables);
    }
    if NamedIn(BranchFilters(bs), name) {
      var g, f :| g in BranchFilters(bs) && f in g && f.column == name;
      MapBranchesLength(ps, tables);
      var i :| 0 <= i < |bs| && g == FiltersOf(bs[i]);
      MapBranchesAt(ps, tables, i);
      FlattenOrParts(c);
      assert ps[i] in ps;
      BranchNames(ps[i], tables, f);
      var r :| r in Refs(ps[i]) && r.name == name;
      assert r in Refs(c);
    }
  }

  // ---- left-over conjuncts ----

  /** Some left-over filter is on a column of this name. */
  ghost predicate Leaves(f: Filters, name: string) { exists x | LeftOver(f, x) :: x.column == name }

  /** Some conjunct that does not move has a column of this name. */
  ghost predicate LeavesNamed(cs: seq<Pred>, tables: seq<TableRef>, nullable: set<string>, name: string) {
    exists c | c in cs :: MovesTo(c, tables, nullable).None? && Names(c, name)
  }

  lemma LeavesAtom(f: Filters, x: Filter, name: string)
    ensures Leaves(f.(where := f.where + [x]), name) <==> Leaves(f, name) || x.column == name
  {
    var f' := f.(where := f.where + [x]);
    assert x in f'.where && LeftOver(f', x);
    assert forall y :: y in f'.where <==> y in f.where || y == x;
    assert forall y :: LeftOver(f', y) <==> LeftOver(f, y) || y == x;
  }

  lemma LeavesGroup(f: Filters, gs: seq<seq<Filter>>, name: string)
    ensures Leaves(f.(groups := f.groups + gs), name) <==> Leaves(f, name) || NamedIn(gs, name)
  {
    var f' := f.(groups := f.groups + gs);
    assert forall g :: g in f'.groups <==> g in f.groups || g in gs;
    if Leaves(f', name) && !Leaves(f, name) {
      var x :| LeftOver(f', x) && x.column == name;
      assert x !in f.where;
      var g :| g in f'.groups && x in g;
      assert g in f.groups ==> LeftOver(f, x);
    }
    if Leaves(f, name) {
      var x :| LeftOver(f, x) && x.column == name;
      assert LeftOver(f', x);
    }
    if NamedIn(gs, name) {
      var g, x :| g in gs && x in g && x.column == name;
      assert g in f'.groups && LeftOver(f', x);
    }
  }

  lemma ConjunctLeaves(c: Pred, st: Progress, tables: seq<TableRef>, nullable: set<string>, name: string)
    requires MapConjunct(c, st, tables, nullable).Ok?
    ensures Leaves(MapConjunct(c, st, tables, nullable).value.filters, name)
            <==> Leaves(st.filters, name) || (MovesTo(c, tables, nullable).None? && Names(c, name))
  {
    var st' := MapConjunct(c, st, tables, nullable).value;
    if MovesTo(c, tables, nullable).Some? {
      assert st'.filters.where == st.filters.where && st'.filters.groups == st.filters.groups;
      assert forall x :: LeftOver(st'.filters, x) <==> LeftOver(st.filters, x);
    } else if c.Or? {
      GroupNames(c, tables, name);
      LeavesGroup(st.filters, BranchFilters(MapBranches(FlattenOr(c), tables).value), name);
    } else {
      AtomNames(c, tables, name);
      LeavesAtom(st.filters, MapAtom(c, tables).value.filter, name);
    }
  }

  lemma {:induction false} ConjunctsLeave(cs: seq<Pred>, tables: seq<TableRef>, nullable: set<string>, name: string)
    requires MapConjuncts(cs, tables, nullable).Ok?
    ensures Leaves(MapConjuncts(cs, tables, nullable).value.filters, name) <==> LeavesNamed(cs, tables, nullable, name)
    decreases |cs|
  {
    if cs != [] {
      var n := |cs| - 1;
      assert cs == cs[..n] + [cs[n]] && forall c :: c in cs <==> c in cs[..n] || c == cs[n];
      ConjunctsLeave(cs[..n], tables, nullable, name);
      ConjunctLeaves(cs[n], MapConjuncts(cs[..n], tables, nullable).value, tables, nullable, name);
    }
  }

  /** Every column of a conjunct that is left over is one column after the joins. */
  ghost predicate LeftOversOwned(e: Engine, db: Database, q: Query)
    requires MapFrom(q.base, q.joins).Ok? && |MapFrom(q.base, q.joins).value.joins| == |q.joins|
  {
    q.where.Some? ==>
      var m := MapFrom(q.base, q.joins).value;
      forall c, r | c in TopConjuncts(q.where.value) && MovesTo(c, m.tables, m.nullable).None? && r in Refs(c) ::
        Owned(e, DraftLinks(e, m.joins), Cols(db, QueryTables(q)), r.name)
  }

  lemma LeftOversRun(e: Engine, db: Database, q: Query, d: DraftSchema)
    requires MapStatement(q) == Ok(d) && NamedChain(q) && |d.joins| == |q.joins|
    ensures (forall f | LeftOver(d.filters, f) :: Owned(e, DraftLinks(e, d.joins), Cols(db, QueryTables(q)), f.column))
            <==> LeftOversOwned(e, db, q)
  {
    var js, cols := DraftLinks(e, d.joins), Cols(db, QueryTables(q));
    if q.where.Some? {
      var m, cs := MapFrom(q.base, q.joins).value, TopConjuncts(q.where.value);
      forall name: string ensures Leaves(d.filters, name) <==> LeavesNamed(cs, m.tables, m.nullable, name) {
        ConjunctsLeave(cs, m.tables, m.nullable, name);
      }
      assert (forall f | LeftOver(d.filters, f) :: Owned(e, js, cols, f.column))
             <==> forall name: string | Leaves(d.filters, name) :: Owned(e, js, cols, name);
      assert (forall name: string | LeavesNamed(cs, m.tables, m.nullable, name) :: Owned(e, js, cols, name))
             <==> LeftOversOwned(e, db, q);
    }
  }

  // ---- filters on tables ----

  /** The filters that moved to table i find their columns in it. */
  ghost predicate TableFits(db: Database, tables: seq<TableRef>, f: Filters, i: nat)
    requires i < |tables|
  {
    FilterColumnsIn(TableFilterOn(f, tables[i].alias), RelationOf(db, tables[i]).cols)
  }

  lemma ReferredColumn(s: Scope, r: Ref, width: nat, i: nat)
    requires Found(s, r, width) && RefersTo(s, r, i)
    ensures i < |s.cols| && r.name in s.cols[i]
  {
  }

  /** A conjunct that moves puts filters on columns of its table. */
  lemma MovedNamesAreThere(db: Database, tables: seq<TableRef>, kinds: seq<Kind>, c: Pred, i: nat, name: string)
    requires i < |tables| && AllOn(FinalScope(db, tables, kinds), c, i) && Names(c, name)
    requires AllFound(FinalScope(db, tables, kinds), c, |tables|)
    ensures name in RelationOf(db, tables[i]).cols
  {
    var r :| r in Refs(c) && r.name == name;
    ReferredColumn(FinalScope(db, tables, kinds), r, |tables|, i);
  }

  lemma ConjunctFits(db: Database, tables: seq<TableRef>, kinds: seq<Kind>, c: Pred, st: Progress, nullable: set<string>,
                     i: nat)
    requires MapConjunct(c, st, tables, nullable).Ok? && i < |tables| && DistinctAliases(tables)
    requires AllFound(FinalScope(db, tables, kinds), c, |tables|)
    requires MovesTogether(FinalScope(db, tables, kinds), c, tables, nullable) && TableFits(db, tables, st.filters, i)
    ensures TableFits(db, tables, MapConjunct(c, st, tables, nullable).value.filters, i)
  {
    var f, f', a := st.filters, MapConjunct(c, st, tables, nullable).value.filters, tables[i].alias;
    if MovesTo(c, tables, nullable) == Some(a) {
      if c.Or? {
        MovedGroupFits(db, tables, kinds, c, f, i);
      } else {
        var x := MapAtom(c, tables).value.filter;
        AtomNames(c, tables, x.column);
        MovedNamesAreThere(db, tables, kinds, c, i, x.column);
        assert forall y | y in FiltersOn(f', a) :: y in FiltersOn(f, a) || y == x;
      }
    } else {
      assert FiltersOn(f', a) == FiltersOn(f, a) && GroupsOn(f', a) == GroupsOn(f, a);
    }
  }

  lemma MovedGroupFits(db: Database, tables: seq<TableRef>, kinds: seq<Kind>, c: Pred, f: Filters, i: nat)
    requires MapBranches(FlattenOr(c), tables).Some? && i < |tables| && AllOn(FinalScope(db, tables, kinds), c, i)
    requires AllFound(FinalScope(db, tables, kinds), c, |tables|) && TableFits(db, tables, f, i)
    ensures var a, gs := tables[i].alias, BranchFilters(MapBranches(FlattenOr(c), tables).value);
            TableFits(db, tables, f.(tableGroups := f.tableGroups[a := GroupsOn(f, a) + gs]), i)
  {
    var a, gs := tables[i].alias, BranchFilters(MapBranches(FlattenOr(c), tables).value);
    forall g, x | g in gs && x in g ensures x.column in RelationOf(db, tables[i]).cols {
      GroupNames(c, tables, x.column);
      MovedNamesAreThere(db, tables, kinds, c, i, x.column);
    }
  }

  lemma {:induction false} ConjunctsFit(db: Database, tables: seq<TableRef>, kinds: seq<Kind>, cs: seq<Pred>,
                                        nullable: set<string>, i: nat)
    requires MapConjuncts(cs, tables, nullable).Ok? && i < |tables| && DistinctAliases(tables)
    requires forall c | c in cs :: AllFound(FinalScope(db, tables, kinds), c, |tables|)
    requires forall c | c in cs && c.Or? :: MovesTogether(FinalScope(db, tables, kinds), c, tables, nullable)
    ensures TableFits(db, tables, MapConjuncts(cs, tables, nullable).value.filters, i)
    decreases |cs|
  {
    if cs != [] {
      var n := |cs| - 1;
      assert cs[n] in cs;
      ConjunctsFit(db, tables, kinds, cs[..n], nullable, i);
      if !cs[n].Or? { AtomMovesTogether(FinalScope(db, tables, kinds), cs[n], tables, nullable); }
      ConjunctFits(db, tables, kinds, cs[n], MapConjuncts(cs[..n], tables, nullable).value, nullable, i);
    }
  }

  /** A group that moves is on its table, and later conjuncts leave it there. */
  ghost predicate GroupIsOn(f: Filters, c: Pred, tables: seq<TableRef>, nullable: set<string>)
    requires MapBranches(FlattenOr(c), tables).Some?
  {
    var a := MovesTo(c, tables, nullable);
    a.Some? ==> forall g | g in BranchFilters(MapBranches(FlattenOr(c), tables).value) :: g in GroupsOn(f, a.value)
  }

  lemma GroupMoves(c: Pred, st: Progress, tables: seq<TableRef>, nullable: set<string>)
    requires MapConjunct(c, st, tables, nullable).Ok? && c.Or?
    ensures MapBranches(FlattenOr(c), tables).Some?
    ensures var st' := MapConjunct(c, st, tables, nullable).value;
            st'.orPlaced && GroupIsOn(st'.filters, c, tables, nullable)
  {
  }

  lemma LaterKeepsGroups(c: Pred, st: Progress, tables: seq<TableRef>, nullable: set<string>)
    requires MapConjunct(c, st, tables, nullable).Ok? && st.orPlaced
    ensures var st' := MapConjunct(c, st, tables, nullable).value;
            st'.orPlaced && st'.filters.tableGroups == st.filters.tableGroups
  {
  }

  lemma {:induction false} GroupStays(cs: seq<Pred>, i: nat, tables: seq<TableRef>, nullable: set<string>)
    requires MapConjuncts(cs, tables, nullable).Ok? && i < |cs| && cs[i].Or?
    ensures MapBranches(FlattenOr(cs[i]), tables).Some?
    ensures var st := MapConjuncts(cs, tables, nullable).value;
            st.orPlaced && GroupIsOn(st.filters, cs[i], tables, nullable)
    decreases |cs|
  {
    var n := |cs| - 1;
    var st := MapConjuncts(cs[..n], tables, nullable).value;
    if i < n {
      assert cs[..n][i] == cs[i];
      GroupStays(cs[..n], i, tables, nullable);
      LaterKeepsGroups(cs[n], st, tables, nullable);
    } else {
      GroupMoves(cs[n], st, tables, nullable);
    }
  }

  /** The table a group moves to is mentioned in it, or the only one; either way it is visible. */
  lemma GroupsTableShows(s: Scope, c: Pred, tables: seq<TableRef>, nullable: set<string>, i: nat)
    requires ScopeOf(s, tables) && AllFound(s, c, |tables|) && c.Or? && i < |tables|
    requires MovesTo(c, tables, nullable) == Some(tables[i].alias)
    ensures i == 0 || s.cols[i] != {}
  {
    var bs := MapBranches(FlattenOr(c), tables).value;
    if |tables| != 1 {
      assert tables[i].alias in Distinct(Seen(bs));
      FlattenOrParts(c);
      GroupMentioned(FlattenOr(c), c, tables);
      var r :| r in Refs(c) && r.table == Some(tables[i].alias);
      assert Found(s, r, |tables|);
      var k :| 0 <= k < |tables| && RefersTo(s, r, k) && r.name in s.cols[k];
      assert s.aliases[k] == tables[i].alias;
    }
  }

  /** A qualified column of a moved group is of the group's table. */
  lemma GroupsQualifier(c: Pred, tables: seq<TableRef>, nullable: set<string>, r: Ref)
    requires c.Or? && MovesTo(c, tables, nullable).Some? && r in Refs(c) && r.table.Some?
    ensures r.table == MovesTo(c, tables, nullable)
  {
    var ps := FlattenOr(c);
    var bs := MapBranches(ps, tables).value;
    FlattenOrCovers(c, r);
    var b :| b in ps && r in Refs(b);
    FlattenAndCovers(b, r);
    var a :| a in FlattenAnd(b) && r in Refs(a);
    var i :| 0 <= i < |ps| && ps[i] == b;
    var j :| 0 <= j < |FlattenAnd(b)| && FlattenAnd(b)[j] == a;
    MapBranchesAt(ps, tables, i);
    MapAtomsAt(FlattenAnd(b), tables, j);
    ConditionRefs(a);
    SoleQualifier(r);
    var xs: seq<Placed> := bs[i];
    assert xs[j].alias == r.table;
    AliasIsSeen(xs, j);
    BranchIsSeen(bs, i, r.table.value);
    assert r.table.value in Distinct(Seen(bs));
  }

  lemma {:induction false} AliasIsSeen(xs: seq<Placed>, j: nat)
    requires j < |xs| && xs[j].alias.Some?
    ensures xs[j].alias.value in SeenIn(xs)
    decreases |xs|
  {
    if j < |xs| - 1 { AliasIsSeen(xs[..|xs| - 1], j); }
  }

  lemma {:induction false} BranchIsSeen(bs: seq<seq<Placed>>, i: nat, a: string)
    requires i < |bs| && a in SeenIn(bs[i])
    ensures a in Seen(bs)
    decreases |bs|
  {
    if i < |bs| - 1 { BranchIsSeen(bs[..|bs| - 1], i, a); }
  }

  /** A group that names only columns its table has is all about that table. */
  lemma FittingGroup(db: Database, tables: seq<TableRef>, kinds: seq<Kind>, c: Pred, f: Filters, nullable: set<string>,
                     i: nat)
    requires DistinctAliases(tables) && AllFound(FinalScope(db, tables, kinds), c, |tables|) && c.Or? && i < |tables|
    requires MapBranches(FlattenOr(c), tables).Some? && MovesTo(c, tables, nullable) == Some(tables[i].alias)
    requires GroupIsOn(f, c, tables, nullable) && TableFits(db, tables, f, i)
    ensures AllOn(FinalScope(db, tables, kinds), c, i)
  {
    var s := FinalScope(db, tables, kinds);
    GroupsTableShows(s, c, tables, nullable, i);
    assert !Hidden(kinds, i);
    forall r | r in Refs(c) ensures RefersTo(s, r, i) {
      if r.table.Some? {
        GroupsQualifier(c, tables, nullable, r);
        assert forall j | 0 <= j < |tables| :: s.aliases[j] == tables[j].alias;
      } else {
        var g, x := GroupCovers(c, r, tables);
        assert g in GroupsOn(f, tables[i].alias);
        assert r.name in s.cols[i];
        assert Found(s, r, |tables|);
      }
    }
  }

  lemma TablesFitExactly(db: Database, q: Query, d: DraftSchema)
    requires MapStatement(q) == Ok(d) && NamedChain(q) && FoundWhere(db, q)
    ensures (forall i: nat | i < |QueryTables(q)| :: TableFits(db, QueryTables(q), d.filters, i)) <==> GroupsFit(db, q)
  {
    MapFromShape(q);
    var tables, kinds, m := QueryTables(q), QueryKinds(q), MapFrom(q.base, q.joins).value;
    var s := FinalScope(db, tables, kinds);
    if q.where.Some? {
      var p := q.where.value;
      FlattenAndParts(p);
      if forall i: nat | i < |tables| :: TableFits(db, tables, d.filters, i) {
        forall c | c in TopConjuncts(p) && c.Or? ensures MovesTogether(s, c, tables, m.nullable) {
          RunningGroup(db, q, d, c);
        }
      }
      if GroupsFit(db, q) {
        forall i: nat | i < |tables| ensures TableFits(db, tables, d.filters, i) {
          ConjunctsFit(db, tables, kinds, TopConjuncts(p), m.nullable, i);
        }
      }
    }
  }

  lemma RunningGroup(db: Database, q: Query, d: DraftSchema, c: Pred)
    requires MapStatement(q) == Ok(d) && NamedChain(q) && FoundWhere(db, q) && q.where.Some?
    requires c in TopConjuncts(q.where.value) && c.Or?
    requires forall i: nat | i < |QueryTables(q)| :: TableFits(db, QueryTables(q), d.filters, i)
    ensures MapFrom(q.base, q.joins).Ok?
    ensures var m := MapFrom(q.base, q.joins).value;
            MovesTogether(FinalScope(db, QueryTables(q), QueryKinds(q)), c, QueryTables(q), m.nullable)
  {
    MapFromShape(q);
    var p, tables, nullable := q.where.value, QueryTables(q), MapFrom(q.base, q.joins).value.nullable;
    PartsFound(FinalScope(db, tables, QueryKinds(q)), p, c, |tables|);
    var k :| 0 <= k < |TopConjuncts(p)| && TopConjuncts(p)[k] == c;
    GroupStays(TopConjuncts(p), k, tables, nullable);
    forall i: nat | i < |tables| && MovesTo(c, tables, nullable) == Some(tables[i].alias)
      ensures AllOn(FinalScope(db, tables, QueryKinds(q)), c, i)
    {
      FittingGroup(db, tables, QueryKinds(q), c, d.filters, nullable, i);
    }
  }

  /** Where loading gives every table its own rows, its filters run on its own columns. */
  lemma OwnFilterRuns(e: Engine, db: Database, tables: seq<TableRef>, f: Filters, i: nat)
    requires i < |tables| && DistinctAliases(tables) && LoadsOwn(e, tables, TableFilters(f, tables))
    ensures TableFilterRuns(e, db, tables, f, i) <==> TableFits(db, tables, f, i)
  {
    ColsAreOwn(e, db, tables, i);
    var c := Captor(e, tables, i);
    if e.DataFrames? && c.Some? { assert TableFilters(f, tables)[i] == NO_FILTER; }
  }

  /**
   * Where loading gives every table its own rows: the draft's filters find their columns
   * exactly when each OR group moved to a table is all about that table, and every column
   * of a left-over conjunct is one column after the joins.
   */
  lemma FiltersRunExactly(e: Engine, db: Database, q: Query, d: DraftSchema)
    requires MapStatement(q) == Ok(d) && NamedChain(q) && FoundWhere(db, q) && |d.joins| == |q.joins|
    requires LoadsOwn(e, QueryTables(q), TableFilters(d.filters, QueryTables(q)))
    ensures FiltersRun(e, db, d) <==> GroupsFit(db, q) && LeftOversOwned(e, db, q)
  {
    DraftNames(q, d);
    DraftColsOwn(e, db, q, d);
    LeftOversRun(e, db, q, d);
    TablesFitExactly(db, q, d);
    forall i: nat | i < |d.tables|
      ensures TableFilterRuns(e, db, d.tables, d.filters, i) <==> TableFits(db, d.tables, d.filters, i)
    {
      OwnFilterRuns(e, db, d.tables, d.filters, i);
    }
  }

  // ---- join keys ----

  ghost predicate MentionedIn(cs: seq<Pred>, r: Ref) { exists c | c in cs :: r in Refs(c) }

  /** The columns an ON predicate mentions are the keys found for it. */
  lemma {:induction false} EquiKeysAreRefs(cs: seq<Pred>, base: string, right: string, r: Ref)
    requires EquiKeys(cs, base, right).Some? && base != right
    ensures MentionedIn(cs, r) <==> IsKey(EquiKeys(cs, base, right).value, base, right, r)
    decreases |cs|
  {
    if cs != [] {
      var n := |cs| - 1;
      LastKeyPair(cs, base, right);
      EquiKeysAreRefs(cs[..n], base, right, r);
      PairRefs(cs[n], base, right);
      assert cs == cs[..n] + [cs[n]];
      assert MentionedIn(cs, r) <==> MentionedIn(cs[..n], r) || r in Refs(cs[n]);
    }
  }

  predicate IsKey(keys: (seq<string>, seq<string>), base: string, right: string, r: Ref) {
    (r.table == Some(base) && r.name in keys.0) || (r.table == Some(right) && r.name in keys.1)
  }

  lemma PairRefs(c: Pred, base: string, right: string)
    requires c.Compare? && c.subject.Column? && c.other.Column? && base != right
    requires {c.subject.ref.table, c.other.ref.table} == {Some(base), Some(right)}
    ensures forall r ::
              r in Refs(c) <==> r == Ref(Some(base), KeyPair(c, base).0) || r == Ref(Some(right), KeyPair(c, base).1)
  {
    var a, b := c.subject.ref, c.other.ref;
    assert a.table in {Some(base), Some(right)} && b.table in {Some(base), Some(right)};
    assert Some(right) in {a.table, b.table} && Some(base) in {a.table, b.table};
    assert Refs(c) == [a, b];
  }

  lemma OnRefs(p: Pred, base: string, right: string, r: Ref)
    requires EquiKeys(FlattenAnd(p), base, right).Some? && base != right
    ensures r in Refs(p) <==> IsKey(EquiKeys(FlattenAnd(p), base, right).value, base, right, r)
  {
    EquiKeysAreRefs(FlattenAnd(p), base, right, r);
    if r in Refs(p) { FlattenAndCovers(p, r); }
    FlattenAndParts(p);
  }

  lemma AcceptedOnKeys(db: Database, q: Query, joins: seq<DraftJoin>, m: nat)
    requires Accepted(db, q) && NamedChain(q) && AllFit(q, joins) && m < |joins|
    requires !joins[m].kind.Cross? && q.joins[m].using == []
    ensures forall k | k in joins[m].keysFrom :: k in Cols(db, QueryTables(q))[0]
    ensures forall k | k in joins[m].keysTo :: k in Cols(db, QueryTables(q))[m + 1]
  {
    var j, node, tables := joins[m], q.joins[m], QueryTables(q);
    var cols, base, p := Cols(db, tables), tables[0].alias, q.joins[m].on;
    assert Fits(j, node, SqlName(q.base).alias) && SqlKind(node.side, node.kind).Some?;
    assert tables[m + 1].alias == j.to && base == SqlName(q.base).alias;
    forall k | k in j.keysFrom ensures k in cols[0] {
      OnRefs(p.value, base, j.to, Ref(Some(base), k));
      assert RefThere(Ref(Some(base), k), tables, cols, m + 2);
    }
    forall k | k in j.keysTo ensures k in cols[m + 1] {
      OnRefs(p.value, base, j.to, Ref(Some(j.to), k));
      assert RefThere(Ref(Some(j.to), k), tables, cols, m + 2);
    }
  }

  /** An accepted query's key columns are there. */
  lemma AcceptedKeys(e: Engine, db: Database, q: Query, joins: seq<DraftJoin>, m: nat)
    requires Accepted(db, q) && NamedChain(q) && AllFit(q, joins) && m < |joins|
    ensures KeysThere(DraftLinks(e, joins)[m], Cols(db, QueryTables(q)), m)
  {
    var j, node := joins[m], q.joins[m];
    assert Fits(j, node, SqlName(q.base).alias) && SqlKind(node.side, node.kind).Some?;
    if !j.kind.Cross? {
      if node.using != [] {
        assert KeysThere(NodeLink(node), Cols(db, QueryTables(q)), m);
      } else {
        AcceptedOnKeys(db, q, joins, m);
      }
    }
  }

  /** Data frames have no CROSS join. */
  predicate CrossRuns(e: Engine, js: seq<Link>) { forall m: nat | m < |js| && js[m].kind.Cross? :: e.CompiledSql? }

  /** Keys that a join looks up by bare name mean one column. */
  predicate BareKeysAreOne(e: Engine, js: seq<Link>, cols: seq<set<string>>)
    requires |cols| == |js| + 1
  {
    forall m: nat, k | m < |js| && js[m].bare && k in js[m].left :: OneColumn(e, js, cols, m, k)
  }

  lemma JoinsRunExactly(e: Engine, db: Database, q: Query, joins: seq<DraftJoin>)
    requires NamedChain(q) && Accepted(db, q) && AllFit(q, joins)
    ensures var js, cols := DraftLinks(e, joins), Cols(db, QueryTables(q));
            JoinsRun(e, js, cols) <==> CrossRuns(e, js) && BareKeysAreOne(e, js, cols)
  {
    var js, cols := DraftLinks(e, joins), Cols(db, QueryTables(q));
    forall m: nat | m < |js| ensures KeysThere(js[m], cols, m) && (js[m].bare ==> !js[m].kind.Cross?) {
      AcceptedKeys(e, db, q, joins, m);
    }
  }

  /**
   * The draft of an accepted query runs exactly when its joins are ones the engine has, a
   * key looked up by name alone means one column, every OR group it moves to a table is all
   * about that table, and every column of a left-over conjunct is one column after the joins.
   */
  lemma DraftRunsExactly(e: Engine, db: Database, q: Query, d: DraftSchema)
    requires MapStatement(q) == Ok(d) && NamedChain(q) && Accepted(db, q) && FoundWhere(db, q) && |d.joins| == |q.joins|
    requires LoadsOwn(e, QueryTables(q), TableFilters(d.filters, QueryTables(q)))
    ensures DraftRuns(e, db, d)
            <==> && CrossRuns(e, DraftLinks(e, d.joins))
                 && BareKeysAreOne(e, DraftLinks(e, d.joins), Cols(db, QueryTables(q)))
                 && GroupsFit(db, q)
                 && LeftOversOwned(e, db, q)
  {
    DraftOrder(q, d);
    MappedParts(q, d);
    DraftColsOwn(e, db, q, d);
    FiltersRunExactly(e, db, q, d);
    JoinsRunExactly(e, db, q, d.joins);
  }

  // ---- columns that one visible table has ----

  /** A left-over column that one visible table has means that table by its bare name, wherever the draft runs. */
  lemma OwnColumnMeans(e: Engine, db: Database, q: Query, joins: seq<DraftJoin>, c: string, i: nat)
    requires NamedChain(q) && AllFit(q, joins) && Accepted(db, q) && |QueryTables(q)| == |joins| + 1
    requires OwnedBy(FinalScope(db, QueryTables(q), QueryKinds(q)), c, i)
    requires Owned(e, DraftLinks(e, joins), Cols(db, QueryTables(q)), c)
    ensures BareMeans(e, DraftLinks(e, joins), Cols(db, QueryTables(q)), c, i)
  {
    var s, js, cols := FinalScope(db, QueryTables(q), QueryKinds(q)), DraftLinks(e, joins), Cols(db, QueryTables(q));
    forall k: nat | 0 < k <= |js| && Shows(js[k - 1].kind) ensures s.cols[k] == cols[k] {
      ShownColumns(e, db, q, joins, k);
    }
    var w: nat :| BareOwner(e, js, cols, c, w);
    assert c in s.cols[w];
    if i == 0 {
      forall m: nat | m < |js| && Pads(js[m].kind) ensures c !in Merged(js[m]) {
        MergedIsThere(e, db, q, joins, m, c);
      }
    }
  }

  lemma MergedIsThere(e: Engine, db: Database, q: Query, joins: seq<DraftJoin>, m: nat, c: string)
    requires NamedChain(q) && AllFit(q, joins) && Accepted(db, q) && m < |joins|
    ensures c in Merged(DraftLinks(e, joins)[m]) ==> c in Cols(db, QueryTables(q))[m + 1]
  {
    AcceptedKeys(e, db, q, joins, m);
  }

  lemma ShownColumns(e: Engine, db: Database, q: Query, joins: seq<DraftJoin>, k: nat)
    requires NamedChain(q) && AllFit(q, joins) && 0 < k <= |joins| && Shows(DraftLinks(e, joins)[k - 1].kind)
    ensures FinalScope(db, QueryTables(q), QueryKinds(q)).cols[k] == Cols(db, QueryTables(q))[k]
  {
    assert Fits(joins[k - 1], q.joins[k - 1], SqlName(q.base).alias);
    FoundKind(q, k - 1);
    assert !Hidden(QueryKinds(q), k);
  }

  // ---- join lists no database runs ----

  function LeftNames(js: seq<Link>): set<string> {
    set m, i | 0 <= m < |js| && !js[m].kind.Cross? && 0 <= i < |js[m].left| :: js[m].left[i]
  }

  function RightNames(j: Link): set<string> { if j.kind.Cross? then {} else set k | k in j.right }

  /** The key columns that the joins need in table i. */
  function KeyCols(js: seq<Link>, i: nat): set<string>
    requires i <= |js|
  {
    if i == 0 then LeftNames(js) else RightNames(js[i - 1])
  }

  /** The key columns that the joins need in the stored table of this name, read by the query or by the draft. */
  function NeedsOf(e: Engine, tables: seq<TableRef>, js: seq<Link>, name: string): set<string>
    requires |tables| == |js| + 1
  {
    set i, k | 0 <= i < |tables| && (tables[i].name == name || tables[Root(e, tables, i)].name == name)
      && k in KeyCols(js, i) :: k
  }

  function QueryNeeds(e: Engine, tables: seq<TableRef>, js: seq<Link>): (r: seq<set<string>>)
    requires |tables| == |js| + 1
    ensures |r| == |tables| && forall i | 0 <= i < |r| :: r[i] == NeedsOf(e, tables, js, tables[i].name)
  {
    seq(|tables|, i requires 0 <= i < |tables| => NeedsOf(e, tables, js, tables[i].name))
  }

  function DraftNeeds(e: Engine, tables: seq<TableRef>, js: seq<Link>): (r: seq<set<string>>)
    requires |tables| == |js| + 1
    ensures |r| == |tables| && forall i | 0 <= i < |r| :: r[i] == NeedsOf(e, tables, js, tables[Root(e, tables, i)].name)
  {
    seq(|tables|, i requires 0 <= i < |tables| => NeedsOf(e, tables, js, tables[Root(e, tables, i)].name))
  }

  /** A condition on the join list alone: query and draft can both be joined on some database. */
  predicate Joinable(e: Engine, tables: seq<TableRef>, la: seq<Link>, lb: seq<Link>)
    requires |tables| == |la| + 1 == |lb| + 1
  {
    && CrossRuns(e, lb)
    && BareKeysAreOne(CompiledSql, la, QueryNeeds(e, tables, lb)) && BareKeysAreOne(e, lb, DraftNeeds(e, tables, lb))
  }

  predicate AllWithin(a: seq<set<string>>, b: seq<set<string>>) { |a| == |b| && forall i | 0 <= i < |a| :: a[i] <= b[i] }

  lemma FewerAreOne(e: Engine, js: seq<Link>, cols: seq<set<string>>, cols': seq<set<string>>)
    requires |cols| == |js| + 1 && BareKeysAreOne(e, js, cols) && AllWithin(cols', cols)
    ensures BareKeysAreOne(e, js, cols')
  {
    forall m: nat, k | m < |js| && js[m].bare && k in js[m].left ensures OneColumn(e, js, cols', m, k) {
      assert OneColumn(e, js, cols, m, k);
    }
  }

  lemma KeysAreThere(js: seq<Link>, cols: seq<set<string>>, i: nat)
    requires i <= |js| && |cols| == |js| + 1 && forall m: nat | m < |js| :: KeysThere(js[m], cols, m)
    ensures KeyCols(js, i) <= cols[i]
  {
    forall k | k in KeyCols(js, i) ensures k in cols[i] {
      if i == 0 {
        var m, n :| 0 <= m < |js| && !js[m].kind.Cross? && 0 <= n < |js[m].left| && js[m].left[n] == k;
        assert KeysThere(js[m], cols, m);
      } else {
        assert KeysThere(js[i - 1], cols, i - 1);
      }
    }
  }

  /** Among the query's joins, a name means one column for the links as for the nodes. */
  lemma OneForQuery(q: Query, joins: seq<DraftJoin>, cols: seq<set<string>>, m: nat, k: string)
    requires NamedChain(q) && AllFit(q, joins) && m < |joins| && |cols| == |joins| + 1
    ensures OneColumn(CompiledSql, NodeLinks(q), cols, m, k) <==> OneColumn(CompiledSql, QueryLinks(q, joins), cols, m, k)
  {
    var a, b := NodeLinks(q), QueryLinks(q, joins);
    forall i | 0 <= i < m ensures a[i].kind == b[i].kind && Merged(a[i]) == Merged(b[i]) {
      assert Fits(joins[i], q.joins[i], SqlName(q.base).alias);
      assert SqlKind(q.joins[i].side, q.joins[i].kind).Some?;
    }
  }

  lemma QueryKeysThere(e: Engine, q: Query, joins: seq<DraftJoin>, cols: seq<set<string>>, m: nat)
    requires NamedChain(q) && AllFit(q, joins) && m < |joins| && |cols| == |joins| + 1
    ensures KeysThere(QueryLinks(q, joins)[m], cols, m) <==> KeysThere(DraftLinks(e, joins)[m], cols, m)
    ensures QueryLinks(q, joins)[m].kind.Cross? <==> DraftLinks(e, joins)[m].kind.Cross?
  {
    assert Fits(joins[m], q.joins[m], SqlName(q.base).alias) && SqlKind(q.joins[m].side, q.joins[m].kind).Some?;
  }

  lemma QueryKeyIsOne(db: Database, q: Query, joins: seq<DraftJoin>, m: nat, k: string)
    requires NamedChain(q) && AllFit(q, joins) && Accepted(db, q) && m < |joins|
    requires QueryLinks(q, joins)[m].bare && k in QueryLinks(q, joins)[m].left
    ensures OneColumn(CompiledSql, NodeLinks(q), Cols(db, QueryTables(q)), m, k)
  {
    assert Fits(joins[m], q.joins[m], SqlName(q.base).alias);
  }

  lemma QueryKeysAreOne(db: Database, q: Query, joins: seq<DraftJoin>)
    requires NamedChain(q) && AllFit(q, joins) && Accepted(db, q)
    ensures BareKeysAreOne(CompiledSql, QueryLinks(q, joins), Cols(db, QueryTables(q)))
  {
    var la, cols := QueryLinks(q, joins), Cols(db, QueryTables(q));
    forall m: nat, k | m < |la| && la[m].bare && k in la[m].left ensures OneColumn(CompiledSql, la, cols, m, k) {
      QueryKeyIsOne(db, q, joins, m, k);
      OneForQuery(q, joins, cols, m, k);
    }
  }

  /** The stored tables have the columns the joins need. */
  lemma NeedsAreThere(e: Engine, db: Database, tables: seq<TableRef>, js: seq<Link>, i: nat, t: TableRef)
    requires |tables| == |js| + 1 && i < |tables|
    requires forall i | 0 <= i < |tables| :: KeyCols(js, i) <= RelationOf(db, tables[i]).cols
    requires forall i | 0 <= i < |tables| :: KeyCols(js, i) <= LoadedCols(e, db, tables, i)
    ensures NeedsOf(e, tables, js, t.name) <= RelationOf(db, t).cols
  {
    forall k | k in NeedsOf(e, tables, js, t.name) ensures k in RelationOf(db, t).cols {
      var i :| 0 <= i < |tables| && (tables[i].name == t.name || tables[Root(e, tables, i)].name == t.name)
        && k in KeyCols(js, i);
      assert k in RelationOf(db, tables[i]).cols && k in LoadedCols(e, db, tables, i);
    }
  }

  lemma TablesHaveNeeds(e: Engine, db: Database, tables: seq<TableRef>, js: seq<Link>, loaded: seq<set<string>>)
    requires |tables| == |js| + 1 == |loaded| && forall i | 0 <= i < |tables| :: loaded[i] == LoadedCols(e, db, tables, i)
    requires forall m: nat | m < |js| :: KeysThere(js[m], Cols(db, tables), m) && KeysThere(js[m], loaded, m)
    ensures AllWithin(QueryNeeds(e, tables, js), Cols(db, tables)) && AllWithin(DraftNeeds(e, tables, js), loaded)
  {
    forall i | 0 <= i < |tables|
      ensures KeyCols(js, i) <= RelationOf(db, tables[i]).cols && KeyCols(js, i) <= LoadedCols(e, db, tables, i)
    {
      KeysAreThere(js, Cols(db, tables), i);
      KeysAreThere(js, loaded, i);
    }
    forall i | 0 <= i < |tables|
      ensures QueryNeeds(e, tables, js)[i] <= Cols(db, tables)[i] && DraftNeeds(e, tables, js)[i] <= loaded[i]
    {
      NeedsAreThere(e, db, tables, js, i, tables[i]);
      NeedsAreThere(e, db, tables, js, i, tables[Root(e, tables, i)]);
    }
  }

  /** Join lists that are not joinable have no database on which both the query and its draft run. */
  lemma UnjoinableNeverRuns(e: Engine, db: Database, q: Query, d: DraftSchema)
    requires MapStatement(q) == Ok(d) && NamedChain(q) && Accepted(db, q) && DraftRuns(e, db, d)
    requires |d.joins| == |q.joins|
    ensures Joinable(e, QueryTables(q), QueryLinks(q, d.joins), DraftLinks(e, d.joins))
  {
    MappedParts(q, d);
    DraftColumns(e, db, q, d);
    var tables, la, lb := QueryTables(q), QueryLinks(q, d.joins), DraftLinks(e, d.joins);
    var cols, loaded := Cols(db, tables), DraftCols(e, db, d);
    forall m: nat | m < |lb| ensures KeysThere(lb[m], cols, m) { AcceptedKeys(e, db, q, d.joins, m); }
    TablesHaveNeeds(e, db, tables, lb, loaded);
    LinksAreValid(e, q, d.joins);
    QueryKeysAreOne(db, q, d.joins);
    FewerAreOne(CompiledSql, la, cols, QueryNeeds(e, tables, lb));
    JoinedKeysAreOne(e, lb, loaded);
    FewerAreOne(e, lb, loaded, DraftNeeds(e, tables, lb));
  }

  lemma JoinedKeysAreOne(e: Engine, js: seq<Link>, cols: seq<set<string>>)
    requires |cols| == |js| + 1 && ValidLinks(js) && JoinsRun(e, js, cols)
    ensures BareKeysAreOne(e, js, cols) && CrossRuns(e, js)
  {
  }
}
