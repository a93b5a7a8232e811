/** Push-down preserves meaning on sound chains. */
module PushDownTheorem {
  import opened Prelude
  import Sequences
  import opened SqlValues
  import opened SqlQuery
  import opened Joins
  import opened Chains
  import opened Pushing
  import opened Draft
  import opened Loading
  import opened BareNames
  import opened MapperWhere
  import opened WhereMeaning
  import opened MapperFrom
  import opened PushDown

  // ---- where the mapper puts table filters ----

  /** Some column of the predicate is about this table. */
  predicate Mentions(p: Pred, alias: string, tables: seq<TableRef>) {
    |tables| == 1 || exists r | r in Refs(p) :: r.table == Some(alias)
  }

  /** Only tables the predicate mentions and the joins cannot make NULL carry filters. */
  ghost predicate OnlyPushable(f: Filters, p: Pred, tables: seq<TableRef>, nullable: set<string>) {
    forall a | TableFilterOn(f, a) != NO_FILTER :: Pushable(a, tables, nullable) && Mentions(p, a, tables)
  }

  lemma {:induction false} QualifiersAreTables(refs: seq<Ref>)
    ensures forall a | a in Qualifiers(refs) :: exists r | r in refs :: r.table == Some(a)
  {
    if refs != [] {
      QualifiersAreTables(refs[1..]);
      forall a | a in Qualifiers(refs) ensures exists r | r in refs :: r.table == Some(a) {
        if refs[0].table == Some(a) {
          assert refs[0] in refs;
        } else {
          assert a in Qualifiers(refs[1..]);
          var r :| r in refs[1..] && r.table == Some(a);
          assert r in refs;
        }
      }
    }
  }

  lemma AliasMentioned(c: Pred, p: Pred, tables: seq<TableRef>)
    requires PartOf(c, p) && PredicateAlias(c, tables).Some?
    ensures Mentions(p, PredicateAlias(c, tables).value, tables)
  {
    QualifiersAreTables(Refs(c));
    var qs := Distinct(Qualifiers(Refs(c)));
    if |qs| == 1 {
      assert qs[0] in Qualifiers(Refs(c));
      var r :| r in Refs(c) && r.table == Some(qs[0]);
      assert r in Refs(p);
    }
  }

  lemma {:induction false} SeenMentioned(ps: seq<Pred>, p: Pred, tables: seq<TableRef>)
    requires MapAtoms(ps, tables).Some? && forall c | c in ps :: PartOf(c, p)
    ensures forall a | a in SeenIn(MapAtoms(ps, tables).value) :: Mentions(p, a, tables)
    decreases |ps|
  {
    if ps != [] {
      var n := |ps| - 1;
      assert ps[n] in ps;
      SeenMentioned(ps[..n], p, tables);
      var xs := MapAtoms(ps, tables).value;
      assert xs[..|xs| - 1] == MapAtoms(ps[..n], tables).value;
      if PredicateAlias(ps[n], tables).Some? { AliasMentioned(ps[n], p, tables); }
    }
  }

  lemma {:induction false} GroupMentioned(bs: seq<Pred>, p: Pred, tables: seq<TableRef>)
    requires MapBranches(bs, tables).Some? && forall b | b in bs :: PartOf(b, p)
    ensures forall a | a in Seen(MapBranches(bs, tables).value) :: Mentions(p, a, tables)
    decreases |bs|
  {
    if bs != [] {
      var n := |bs| - 1;
      assert bs[n] in bs;
      GroupMentioned(bs[..n], p, tables);
      var xs := MapBranches(bs, tables).value;
      assert xs[..|xs| - 1] == MapBranches(bs[..n], tables).value;
      FlattenAndParts(bs[n]);
      forall c | c in FlattenAnd(bs[n]) ensures PartOf(c, p) {
        assert PartOf(c, bs[n]) && PartOf(bs[n], p);
      }
      SeenMentioned(FlattenAnd(bs[n]), p, tables);
    }
  }

  lemma ConjunctPushable(c: Pred, st: Progress, p: Pred, tables: seq<TableRef>, nullable: set<string>)
    requires MapConjunct(c, st, tables, nullable).Ok? && PartOf(c, p)
    requires OnlyPushable(st.filters, p, tables, nullable)
    ensures OnlyPushable(MapConjunct(c, st, tables, nullable).value.filters, p, tables, nullable)
  {
    var f, f' := st.filters, MapConjunct(c, st, tables, nullable).value.filters;
    if c.Or? {
      FlattenOrParts(c);
      forall b | b in FlattenOr(c) ensures PartOf(b, p) { assert PartOf(b, c); }
      GroupMentioned(FlattenOr(c), p, tables);
      var bs := MapBranches(FlattenOr(c), tables).value;
      forall a | TableFilterOn(f', a) != NO_FILTER ensures Pushable(a, tables, nullable) && Mentions(p, a, tables) {
        if TableFilterOn(f, a) == NO_FILTER {
          assert SoleAlias(bs) == Some(a);
          assert a in Distinct(Seen(bs));
        }
      }
    } else {
      if PredicateAlias(c, tables).Some? { AliasMentioned(c, p, tables); }
      forall a | TableFilterOn(f', a) != NO_FILTER ensures Pushable(a, tables, nullable) && Mentions(p, a, tables) {
        if TableFilterOn(f, a) == NO_FILTER { assert PredicateAlias(c, tables) == Some(a); }
      }
    }
  }

  lemma {:induction false} ConjunctsPushable(cs: seq<Pred>, p: Pred, tables: seq<TableRef>, nullable: set<string>)
    requires MapConjuncts(cs, tables, nullable).Ok? && forall c | c in cs :: PartOf(c, p)
    ensures OnlyPushable(MapConjuncts(cs, tables, nullable).value.filters, p, tables, nullable)
    decreases |cs|
  {
    if cs != [] {
      var n := |cs| - 1;
      assert cs[n] in cs;
      ConjunctsPushable(cs[..n], p, tables, nullable);
      ConjunctPushable(cs[n], MapConjuncts(cs[..n], tables, nullable).value, p, tables, nullable);
    }
  }

  lemma WherePushable(p: Pred, tables: seq<TableRef>, nullable: set<string>)
    requires MapWhere(Some(p), tables, nullable).Ok?
    ensures OnlyPushable(MapWhere(Some(p), tables, nullable).value, p, tables, nullable)
  {
    FlattenAndParts(p);
    ConjunctsPushable(TopConjuncts(p), p, tables, nullable);
  }

  // ---- the nullable aliases the mapper records ----

  /** What join i pads with NULLs is among the nullable aliases. */
  predicate RecordedAt(q: Query, i: nat, nullable: set<string>)
    requires i < |q.joins|
  {
    var kind, tables := FoundKinds(q)[i], QueryTables(q);
    && (kind.LeftOuter? || kind.FullOuter? ==> tables[i + 1].alias in nullable)
    && (kind.RightOuter? || kind.FullOuter? ==> tables[0].alias in nullable)
  }

  lemma RecordedNext(q: Query, i: nat, before: set<string>, after: set<string>)
    requires i < |q.joins| && before <= after && NamedChain(q)
    requires i < |q.joins| - 1 ==> RecordedAt(Prefix(q, |q.joins| - 1), i, before)
    requires i == |q.joins| - 1 ==>
      NullableFrom(FoundKinds(q)[i], QueryTables(q)[0].alias, QueryTables(q)[i + 1].alias) <= after
    ensures RecordedAt(q, i, after)
  {
    PrefixTables(q, |q.joins| - 1);
    if i == |q.joins| - 1 {
      var n := NullableFrom(FoundKinds(q)[i], QueryTables(q)[0].alias, QueryTables(q)[i + 1].alias);
      assert forall a | a in n :: a in after;
    }
  }

  lemma {:induction false} NullableRecorded(q: Query)
    requires MapFrom(q.base, q.joins).Ok? && NamedChain(q)
    ensures forall i | 0 <= i < |q.joins| :: RecordedAt(q, i, MapFrom(q.base, q.joins).value.nullable)
    decreases |q.joins|
  {
    if q.joins != [] {
      var n := |q.joins| - 1;
      NullableStep(q);
      NullableRecorded(Prefix(q, n));
      var before, after := MapFrom(q.base, q.joins[..n]).value.nullable, MapFrom(q.base, q.joins).value.nullable;
      forall i | 0 <= i < |q.joins| ensures RecordedAt(q, i, after) { RecordedNext(q, i, before, after); }
    }
  }

  /** The kind found for a spelling is its meaning, or INNER for LEFT OUTER and RIGHT OUTER. */
  lemma FoundKind(q: Query, i: nat)
    requires NamedChain(q) && i < |q.joins|
    ensures var a, b := QueryKinds(q)[i], FoundKinds(q)[i];
            a == b || (b.Inner? && (a.LeftOuter? || a.RightOuter?))
    ensures Hidden(QueryKinds(q), i + 1) <==> Hidden(FoundKinds(q), i + 1)
  {
    assert SqlKind(q.joins[i].side, q.joins[i].kind).Some?;
  }

  /** Nothing but an INNER, CROSS or RIGHT right side, or a base no join pads, is filtered. */
  lemma FiltersArePlaced(e: Engine, db: Database, q: Query, d: DraftSchema)
    requires MapStatement(q) == Ok(d) && NamedChain(q) && FoundWhere(db, q)
    ensures var fs := TableFilters(d.filters, QueryTables(q));
            && |d.joins| == |q.joins| && FiltersPlaced(KeySteps(DraftLinks(e, d.joins)), fs)
            && ((exists i | 0 <= i < |d.joins| :: Pads(d.joins[i].kind)) ==> fs[0] == NO_FILTER)
  {
    MapFromShape(q);
    NullableRecorded(q);
    var fs, tables := TableFilters(d.filters, QueryTables(q)), QueryTables(q);
    if q.where.Some? {
      WherePushable(q.where.value, tables, MapFrom(q.base, q.joins).value.nullable);
      forall i | 0 <= i < |d.joins| && fs[i + 1] != NO_FILTER
        ensures d.joins[i].kind.Inner? || d.joins[i].kind.Cross? || d.joins[i].kind.RightOuter?
      {
        FilteredIsShown(db, q, d, i);
      }
      forall i | 0 <= i < |d.joins| && Pads(d.joins[i].kind) ensures fs[0] == NO_FILTER {
        assert Fits(d.joins[i], q.joins[i], SqlName(q.base).alias);
        assert RecordedAt(q, i, MapFrom(q.base, q.joins).value.nullable);
      }
    }
  }

  lemma FilteredIsShown(db: Database, q: Query, d: DraftSchema, i: nat)
    requires MapStatement(q) == Ok(d) && NamedChain(q) && FoundWhere(db, q) && q.where.Some? && i < |q.joins|
    requires OnlyPushable(d.filters, q.where.value, QueryTables(q), MapFrom(q.base, q.joins).value.nullable)
    requires TableFilterOn(d.filters, QueryTables(q)[i + 1].alias) != NO_FILTER
    ensures |d.joins| == |q.joins|
    ensures d.joins[i].kind.Inner? || d.joins[i].kind.Cross? || d.joins[i].kind.RightOuter?
  {
    MapFromShape(q);
    NullableRecorded(q);
    assert Fits(d.joins[i], q.joins[i], SqlName(q.base).alias);
    assert RecordedAt(q, i, MapFrom(q.base, q.joins).value.nullable);
    MentionedIsShown(db, q, i);
    FoundKind(q, i);
  }

  /** A table that a resolved WHERE clause mentions is visible. */
  lemma MentionedIsShown(db: Database, q: Query, i: nat)
    requires NamedChain(q) && FoundWhere(db, q) && q.where.Some? && i < |q.joins|
    requires Mentions(q.where.value, QueryTables(q)[i + 1].alias, QueryTables(q))
    ensures !Hidden(QueryKinds(q), i + 1)
  {
    var tables := QueryTables(q);
    var s := FinalScope(db, tables, QueryKinds(q));
    var r :| r in Refs(q.where.value) && r.table == Some(tables[i + 1].alias);
    assert Found(s, r, |tables|);
    FoundInNamed(s, r, tables, i + 1);
  }

  lemma FoundInNamed(s: Scope, r: Ref, tables: seq<TableRef>, i: nat)
    requires s.aliases == Aliases(tables) && DistinctAliases(tables) && i < |tables| == |s.cols|
    requires Found(s, r, |tables|) && r.table == Some(tables[i].alias)
    ensures r.name in s.cols[i]
  {
    var k :| 0 <= k < |tables| && RefersTo(s, r, k) && r.name in s.cols[k];
    assert s.aliases[k] == tables[k].alias;
  }

  // ---- chains on which push-down is always safe ----

  /** No table before x can carry a filter. */
  predicate NothingPushedBefore(lb: seq<Link>, x: nat)
    requires 1 <= x <= |lb|
  {
    forall p: nat | p < x - 1 :: !lb[p].kind.Inner? && !lb[p].kind.Cross? && !lb[p].kind.RightOuter?
  }

  /**
   * The rows that start with table x cause no harm. If the draft's join pads them, a
   * later join drops them, or they match later what they match in the query and no filter
   * can be pushed below; if only the query's join does, a later join drops them.
   */
  predicate HarmlessAt(la: seq<Link>, lb: seq<Link>, x: nat)
    requires |la| == |lb| && 1 <= x <= |la|
  {
    && (Pads(lb[x - 1].kind) ==> Doomed(lb, x) || (NoLeak(la, lb, x) && NothingPushedBefore(lb, x)))
    && (Pads(la[x - 1].kind) && !Pads(lb[x - 1].kind) ==> Doomed(la, x))
  }

  /** A condition on the join list alone: no LEFT OUTER became an inner join, and padded rows cause no harm. */
  predicate ChainSafe(la: seq<Link>, lb: seq<Link>) {
    Related(la, lb) && forall x: nat | 1 <= x <= |la| :: HarmlessAt(la, lb, x)
  }

  lemma SafeChainIsSound(e: Engine, db: Database, q: Query, d: DraftSchema)
    requires MapStatement(q) == Ok(d) && NamedChain(q) && FoundWhere(db, q) && |d.joins| == |q.joins|
    requires ChainSafe(QueryLinks(q, d.joins), DraftLinks(e, d.joins))
    ensures Sound(QueryLinks(q, d.joins), DraftLinks(e, d.joins), TableFilters(d.filters, QueryTables(q)))
  {
    FiltersArePlaced(e, db, q, d);
    var la, lb, fs := QueryLinks(q, d.joins), DraftLinks(e, d.joins), TableFilters(d.filters, QueryTables(q));
    forall x: nat | 1 <= x <= |la| ensures PadsAlike(la, lb, fs, x) {
      assert HarmlessAt(la, lb, x);
      if Pads(lb[x - 1].kind) && NothingPushedBefore(lb, x) {
        forall i | 0 <= i < x && i < |fs| ensures fs[i] == NO_FILTER {
          if i == 0 {
            assert Pads(d.joins[x - 1].kind);
          } else {
            assert KeySteps(lb)[i - 1].kind == lb[i - 1].kind;
          }
        }
      }
    }
  }

  // ---- table names that are earlier aliases ----

  /** Some WHERE clause puts a filter on table i. */
  predicate CanFilter(lb: seq<Link>, i: nat)
    requires i <= |lb|
  {
    if i == 0 then forall m: nat | m < |lb| :: !Pads(lb[m].kind)
    else lb[i - 1].kind.Inner? || lb[i - 1].kind.Cross? || lb[i - 1].kind.RightOuter?
  }

  /**
   * A condition on names and joins: a table whose name is an earlier alias is that very
   * table, which no filter can reach; on data frames no filter on itself can get lost.
   */
  predicate NamesSafe(e: Engine, tables: seq<TableRef>, lb: seq<Link>)
    requires |tables| == |lb| + 1
  {
    forall i: nat, j: nat | j < i < |tables| && Captures(e, tables, i, j) ::
      tables[j].name == tables[i].name && !CanFilter(lb, j) && (e.DataFrames? ==> !CanFilter(lb, i))
  }

  lemma SafeNamesLoadOwn(e: Engine, db: Database, q: Query, d: DraftSchema)
    requires MapStatement(q) == Ok(d) && NamedChain(q) && FoundWhere(db, q) && |d.joins| == |q.joins|
    requires NamesSafe(e, QueryTables(q), DraftLinks(e, d.joins))
    ensures LoadsOwn(e, QueryTables(q), TableFilters(d.filters, QueryTables(q)))
  {
    FiltersArePlaced(e, db, q, d);
    var fs, lb := TableFilters(d.filters, QueryTables(q)), DraftLinks(e, d.joins);
    forall i: nat | i < |fs| && !CanFilter(lb, i) ensures fs[i] == NO_FILTER { NotFiltered(lb, fs, i); }
  }

  lemma NotFiltered(lb: seq<Link>, fs: seq<TableFilter>, i: nat)
    requires |fs| == |lb| + 1 && i < |fs| && FiltersPlaced(KeySteps(lb), fs) && !CanFilter(lb, i)
    requires (exists m | 0 <= m < |lb| :: Pads(lb[m].kind)) ==> fs[0] == NO_FILTER
    ensures fs[i] == NO_FILTER
  {
    if i > 0 {
      var m := i - 1;
      assert KeySteps(lb)[m].kind == lb[m].kind;
    }
  }

  // ---- the theorem ----

  /** The left-over conjuncts of the row are read right by bare name. */
  ghost predicate RowReads(e: Engine, js: seq<Link>, cols: seq<set<string>>, s: Scope, p: Pred, tables: seq<TableRef>,
                           nullable: set<string>, l: JoinedRow) {
    LeftOversRead(s, l, BareReader(e, js, cols, l), TopConjuncts(p), tables, nullable)
  }

  lemma RowSplit(o: Oracle, e: Engine, js: seq<Link>, cols: seq<set<string>>, s: Scope, p: Pred, f: Filters,
                 tables: seq<TableRef>, nullable: set<string>, row: JoinedRow)
    requires MapWhere(Some(p), tables, nullable) == Ok(f) && ScopeOf(s, tables) && |row| == |tables|
    requires AllFound(s, p, |tables|) && NegatedOnce(p) && GroupsTogether(s, p, tables, nullable)
    requires Passes(o, TableFilters(f, tables), row) ==> RowReads(e, js, cols, s, p, tables, nullable, row)
    ensures EvalPred(o, s, row, p) == True
            <==> Passes(o, TableFilters(f, tables), row) && LeftOversAccept(o, BareReader(e, js, cols, row), f)
  {
    ClauseMeaning(o, s, row, p, tables, nullable, BareReader(e, js, cols, row));
  }

  /** WHERE keeps the row exactly when the tables' filters and the left-over ones do. */
  ghost predicate RowAgrees(o: Oracle, e: Engine, js: seq<Link>, cols: seq<set<string>>, s: Scope, p: Pred, f: Filters,
                            tables: seq<TableRef>, l: JoinedRow) {
    EvalPred(o, s, l, p) == True
    <==> Passes(o, TableFilters(f, tables), l) && LeftOversAccept(o, BareReader(e, js, cols, l), f)
  }

  lemma {:induction false} KeepTrueFilters(o: Oracle, s: Scope, p: Pred, rows: seq<JoinedRow>, t: JoinedRow -> bool)
    requires forall l | l in rows :: t(l) <==> EvalPred(o, s, l, p) == True
    ensures KeepTrue(o, s, p, rows) == Sequences.Filter(rows, t)
  {
    if rows != [] {
      assert rows[0] in rows && forall l | l in rows[1..] :: l in rows;
      KeepTrueFilters(o, s, p, rows[1..], t);
    }
  }

  lemma {:induction false} FilterJoinedFilters(o: Oracle, fs: seq<TableFilter>, rows: seq<JoinedRow>,
                                               t: JoinedRow -> bool)
    requires forall l | l in rows :: t(l) <==> Passes(o, fs, l)
    ensures FilterJoined(o, fs, rows) == Sequences.Filter(rows, t)
  {
    if rows != [] {
      assert rows[0] in rows && forall l | l in rows[1..] :: l in rows;
      FilterJoinedFilters(o, fs, rows[1..], t);
    }
  }

  lemma {:induction false} KeepAcceptedFilters(o: Oracle, e: Engine, js: seq<Link>, cols: seq<set<string>>, f: Filters,
                                               rows: seq<JoinedRow>, t: JoinedRow -> bool)
    requires forall l | l in rows :: t(l) <==> LeftOversAccept(o, BareReader(e, js, cols, l), f)
    ensures KeepAccepted(o, e, js, cols, f, rows) == Sequences.Filter(rows, t)
  {
    if rows != [] {
      assert rows[0] in rows && forall l | l in rows[1..] :: l in rows;
      KeepAcceptedFilters(o, e, js, cols, f, rows[1..], t);
    }
  }

  lemma {:induction false} FilterTwice(rows: seq<JoinedRow>, t: JoinedRow -> bool, u: JoinedRow -> bool,
                                       v: JoinedRow -> bool)
    requires forall l | l in rows :: t(l) <==> u(l) && v(l)
    ensures Sequences.Filter(rows, t) == Sequences.Filter(Sequences.Filter(rows, u), v)
  {
    if rows != [] {
      assert rows[0] in rows && forall l | l in rows[1..] :: l in rows;
      FilterTwice(rows[1..], t, u, v);
      Sequences.FilterAppend(if u(rows[0]) then [rows[0]] else [], Sequences.Filter(rows[1..], u), v);
      assert [rows[0]][1..] == [];
    }
  }

  lemma KeepAgreed(o: Oracle, e: Engine, js: seq<Link>, cols: seq<set<string>>, s: Scope, p: Pred, f: Filters,
                   tables: seq<TableRef>, rows: seq<JoinedRow>)
    requires forall l | l in rows :: RowAgrees(o, e, js, cols, s, p, f, tables, l)
    ensures KeepTrue(o, s, p, rows) == KeepAccepted(o, e, js, cols, f, FilterJoined(o, TableFilters(f, tables), rows))
  {
    ghost var t: JoinedRow -> bool := l => EvalPred(o, s, l, p) == True;
    ghost var u: JoinedRow -> bool := l => Passes(o, TableFilters(f, tables), l);
    ghost var v: JoinedRow -> bool := l => LeftOversAccept(o, BareReader(e, js, cols, l), f);
    KeepTrueFilters(o, s, p, rows, t);
    FilterJoinedFilters(o, TableFilters(f, tables), rows, u);
    KeepAcceptedFilters(o, e, js, cols, f, FilterJoined(o, TableFilters(f, tables), rows), v);
    forall l | l in rows ensures t(l) <==> u(l) && v(l) { assert RowAgrees(o, e, js, cols, s, p, f, tables, l); }
    FilterTwice(rows, t, u, v);
  }

  lemma {:induction false} PassingIsKept(o: Oracle, fs: seq<TableFilter>, rows: seq<JoinedRow>, l: JoinedRow)
    requires l in rows && Passes(o, fs, l)
    ensures l in FilterJoined(o, fs, rows)
  {
    if rows[0] != l { PassingIsKept(o, fs, rows[1..], l); }
  }

  lemma KeepSplit(o: Oracle, e: Engine, js: seq<Link>, cols: seq<set<string>>, s: Scope, p: Pred, f: Filters,
                  tables: seq<TableRef>, nullable: set<string>, rows: seq<JoinedRow>)
    requires MapWhere(Some(p), tables, nullable) == Ok(f) && ScopeOf(s, tables) && AllWidth(rows, |tables|)
    requires AllFound(s, p, |tables|) && NegatedOnce(p) && GroupsTogether(s, p, tables, nullable)
    requires forall l | l in FilterJoined(o, TableFilters(f, tables), rows) ::
             RowReads(e, js, cols, s, p, tables, nullable, l)
    ensures KeepTrue(o, s, p, rows) == KeepAccepted(o, e, js, cols, f, FilterJoined(o, TableFilters(f, tables), rows))
  {
    forall l | l in rows ensures RowAgrees(o, e, js, cols, s, p, f, tables, l) {
      if Passes(o, TableFilters(f, tables), l) { PassingIsKept(o, TableFilters(f, tables), rows, l); }
      RowSplit(o, e, js, cols, s, p, f, tables, nullable, l);
    }
    KeepAgreed(o, e, js, cols, s, p, f, tables, rows);
  }

  lemma {:induction false} KeepNothingToDo(o: Oracle, e: Engine, js: seq<Link>, cols: seq<set<string>>,
                                           tables: seq<TableRef>, rows: seq<JoinedRow>)
    ensures KeepAccepted(o, e, js, cols, NO_FILTERS, FilterJoined(o, TableFilters(NO_FILTERS, tables), rows)) == rows
  {
    if rows != [] {
      KeepNothingToDo(o, e, js, cols, tables, rows[1..]);
      assert Passes(o, TableFilters(NO_FILTERS, tables), rows[0]);
    }
  }

  /**
   * Push-down preserves meaning for this WHERE clause on a sound chain: whatever pads rows
   * above a filter or lets padded rows match more than in the query is undone by a later
   * join. If loading gives every table its own rows and the columns of the left-over
   * conjuncts still mean their tables by bare name, the draft returns the query's rows, in
   * the query's order, on either engine.
   */
  lemma PushDownPreserves(e: Engine, o: Oracle, db: Database, q: Query, d: DraftSchema)
    requires MapStatement(q) == Ok(d) && NamedChain(q) && FoundWhere(db, q) && GroupsFit(db, q) && LeftOversMean(e, db, q)
    requires |d.joins| == |q.joins| && LoadsOwn(e, QueryTables(q), TableFilters(d.filters, QueryTables(q)))
    requires Sound(QueryLinks(q, d.joins), DraftLinks(e, d.joins), TableFilters(d.filters, QueryTables(q)))
    ensures DraftRows(e, o, db, d) == QueryRows(o, db, q)
  {
    DraftLoadsOwn(e, o, db, q, d);
    DraftColsOwn(e, db, q, d);
    var tables := QueryTables(q);
    var rows, fs := Rows(db, tables), TableFilters(d.filters, tables);
    var la, lb := QueryLinks(q, d.joins), DraftLinks(e, d.joins);
    FromFaithful(e, o, db, q, rows);
    FromFaithful(e, o, db, q, FilterTables(o, fs, rows));
    PushBelowJoins(o, la, lb, fs, rows);
    KeepsAlike(e, o, db, q, d, Eval(KeySteps(la), rows));
  }

  /** A left-over column reads right on every row of the draft's chain. */
  lemma RowOfDraftReads(e: Engine, db: Database, q: Query, joins: seq<DraftJoin>, t: seq<seq<Row>>, l: JoinedRow, c: Pred)
    requires NamedChain(q) && AllFit(q, joins) && |t| == |joins| + 1
    requires AllFound(FinalScope(db, QueryTables(q), QueryKinds(q)), c, |q.joins| + 1)
    requires forall r | r in Refs(c) :: ColumnMeans(e, db, q, joins, r)
    requires l in Eval(KeySteps(DraftLinks(e, joins)), t) && |l| == |q.joins| + 1
    ensures AllReadRight(FinalScope(db, QueryTables(q), QueryKinds(q)), l,
                         BareReader(e, DraftLinks(e, joins), Cols(db, QueryTables(q)), l), c)
  {
    var s, js, cols := FinalScope(db, QueryTables(q), QueryKinds(q)), DraftLinks(e, joins), Cols(db, QueryTables(q));
    LinksAreValid(e, q, joins);
    forall r | r in Refs(c) ensures ReadsRight(s, l, BareReader(e, js, cols, l), r) {
      assert Found(s, r, |q.joins| + 1) && ColumnMeans(e, db, q, joins, r);
      var i: nat :| i < |q.joins| + 1 && RefersTo(s, r, i);
      LookupAt(s, l, r, i);
      BareReads(e, js, cols, t, r.name, i, l);
    }
  }

  lemma PartsFound(s: Scope, p: Pred, c: Pred, width: nat)
    requires AllFound(s, p, width) && c in TopConjuncts(p)
    ensures AllFound(s, c, width)
  {
    FlattenAndParts(p);
  }

  lemma DraftRowsRead(e: Engine, db: Database, q: Query, d: DraftSchema, t: seq<seq<Row>>, l: JoinedRow)
    requires MapStatement(q) == Ok(d) && NamedChain(q) && FoundWhere(db, q) && LeftOversMean(e, db, q) && q.where.Some?
    requires |d.joins| == |q.joins| && |t| == |d.joins| + 1 && l in Eval(KeySteps(DraftLinks(e, d.joins)), t)
    ensures RowReads(e, DraftLinks(e, d.joins), Cols(db, QueryTables(q)), FinalScope(db, QueryTables(q), QueryKinds(q)),
                     q.where.value, QueryTables(q), MapFrom(q.base, q.joins).value.nullable, l)
  {
    MapFromShape(q);
    var m := MapFrom(q.base, q.joins).value;
    var s := FinalScope(db, QueryTables(q), QueryKinds(q));
    AfterAll(KeySteps(DraftLinks(e, d.joins)), t);
    AfterShaped(KeySteps(DraftLinks(e, d.joins)), t, |d.joins|);
    forall c | c in TopConjuncts(q.where.value) && MovesTo(c, QueryTables(q), m.nullable).None?
      ensures AllReadRight(s, l, BareReader(e, DraftLinks(e, d.joins), Cols(db, QueryTables(q)), l), c)
    {
      PartsFound(s, q.where.value, c, |q.joins| + 1);
      RowOfDraftReads(e, db, q, d.joins, t, l, c);
    }
  }

  /** Filtering by the table filters, then by what is left over, keeps the rows on which WHERE is true. */
  lemma KeepsAlike(e: Engine, o: Oracle, db: Database, q: Query, d: DraftSchema, joined: seq<JoinedRow>)
    requires MapStatement(q) == Ok(d) && NamedChain(q) && FoundWhere(db, q) && GroupsFit(db, q) && LeftOversMean(e, db, q)
    requires joined == Eval(QuerySteps(o, db, q), Rows(db, QueryTables(q))) && |d.joins| == |q.joins|
    requires var fs := TableFilters(d.filters, QueryTables(q));
             FilterJoined(o, fs, joined) == Eval(KeySteps(DraftLinks(e, d.joins)), FilterTables(o, fs, Rows(db, QueryTables(q))))
    ensures KeepAccepted(o, e, DraftLinks(e, d.joins), Cols(db, QueryTables(q)), d.filters,
                         FilterJoined(o, TableFilters(d.filters, QueryTables(q)), joined))
            == QueryRows(o, db, q)
  {
    MapFromShape(q);
    var tables := QueryTables(q);
    var s, fs := FinalScope(db, tables, QueryKinds(q)), TableFilters(d.filters, tables);
    assert ScopeOf(s, tables);
    if q.where.Some? {
      JoinedWidth(o, db, q);
      var nullable := MapFrom(q.base, q.joins).value.nullable;
      forall l | l in FilterJoined(o, fs, joined)
        ensures RowReads(e, DraftLinks(e, d.joins), Cols(db, tables), s, q.where.value, tables, nullable, l)
      {
        DraftRowsRead(e, db, q, d, FilterTables(o, fs, Rows(db, tables)), l);
      }
      KeepSplit(o, e, DraftLinks(e, d.joins), Cols(db, tables), s, q.where.value, d.filters, tables, nullable, joined);
    } else {
      KeepNothingToDo(o, e, DraftLinks(e, d.joins), Cols(db, tables), tables, joined);
    }
  }

  lemma JoinedWidth(o: Oracle, db: Database, q: Query)
    ensures AllWidth(Eval(QuerySteps(o, db, q), Rows(db, QueryTables(q))), |QueryTables(q)|)
  {
    var steps, rows := QuerySteps(o, db, q), Rows(db, QueryTables(q));
    AfterAll(steps, rows);
    AfterShaped(steps, rows, |steps|);
  }
}
