/** Queries that show where push-down goes wrong, over any names. */
module PushDownExamples {
  import opened Prelude
  import opened SqlValues
  import opened SqlQuery
  import opened Joins
  import opened Chains
  import opened Pushing
  import opened Draft
  import opened Loading
  import opened BareNames
  import opened MapperWhere
  import opened WhereMeaning
  import opened MapperFrom
  import opened PushDown
  import opened PushDownTheorem
  import opened PushDownRuns
  import opened PushDownWitness
  import opened PushDownExact

  /** `a.k = b.k`. */
  function SameKey(a: string, b: string, k: string): Pred {
    Compare(EQ, Column(Ref(Some(a), k)), Column(Ref(Some(b), k)))
  }

  function Named(a: string): FromItem { Table(a, Some(a)) }

  function OnKey(a: string, b: string, k: string, side: Side): JoinNode {
    JoinNode(Named(b), side, NoKind, [], Some(SameKey(a, b, k)))
  }

  function UsingKey(b: string, k: string, side: Side): JoinNode { JoinNode(Named(b), side, NoKind, [k], None) }

  lemma SameKeyMapped(a: string, b: string, k: string)
    requires a != b
    ensures MapEquiJoin(Some(SameKey(a, b, k)), a, b) == Some(([k], [k]))
  {
    var cs := FlattenAnd(SameKey(a, b, k));
    assert cs == [SameKey(a, b, k)];
    LastKey(cs, a, b, k);
  }

  lemma LastKey(cs: seq<Pred>, a: string, b: string, k: string)
    requires cs == [SameKey(a, b, k)] && a != b
    ensures EquiKeys(cs, a, b) == Some(([k], [k]))
  {
    assert cs[..|cs| - 1] == [];
    assert EquiKeys(cs[..|cs| - 1], a, b) == Some(([], []));
    assert [] + [k] == [k];
  }

  lemma {:induction false} TwoJoins(base: FromItem, x: JoinNode, y: JoinNode)
    requires base.Table?
    ensures MapFrom(base, [x, y]) == var m := MapJoin(StartFrom(base), AliasOf(base, []), x);
                                     if m.Err? then m else MapJoin(m.value, AliasOf(base, []), y)
  {
    assert [x, y][..1] == [x] && [x][..0] == [];
    assert MapJoins(base, []) == Ok(StartFrom(base));
    assert MapJoins(base, [x]) == MapJoin(StartFrom(base), AliasOf(base, []), x);
  }

  lemma ThreeTables(a: string, x: JoinNode, y: JoinNode, k: string)
    requires x.right.Table? && y.right.Table? && x.right.alias.Some? && y.right.alias.Some?
    requires a != [] && x.right.alias.value != [] && y.right.alias.value != []
    requires !JoinType(x.side, x.kind).Cross? && !JoinType(y.side, y.kind).Cross?
    requires x.using == [k] || (x.using == [] && MapEquiJoin(x.on, a, x.right.alias.value) == Some(([k], [k])))
    requires y.using == [k] || (y.using == [] && MapEquiJoin(y.on, a, y.right.alias.value) == Some(([k], [k])))
    ensures MapFrom(Named(a), [x, y]).Ok?
    ensures MapFrom(Named(a), [x, y]).value.joins
            == [DraftJoin(a, [k], x.right.alias.value, [k], JoinType(x.side, x.kind)),
                DraftJoin(a, [k], y.right.alias.value, [k], JoinType(y.side, y.kind))]
  {
    TwoJoins(Named(a), x, y);
  }

  /** A join on key k, USING it or not. */
  function KeyLink(kind: Kind, k: string, using: bool): Link { Link(kind, [k], [k], using, using) }

  function KeyJoin(a: string, b: string, k: string, side: Side, using: bool): JoinNode {
    if using then UsingKey(b, k, side) else OnKey(a, b, k, side)
  }

  /** The joins that a chain of two joins on one key is mapped to. */
  lemma TwoMapped(a: string, b: string, c: string, k: string, bs: Side, cs: Side, using: bool)
    requires a != [] && b != [] && c != [] && a != b && a != c
    ensures var m := MapFrom(Named(a), [KeyJoin(a, b, k, bs, using), KeyJoin(a, c, k, cs, using)]);
            m.Ok? && m.value.joins == [DraftJoin(a, [k], b, [k], JoinType(bs, NoKind)), DraftJoin(a, [k], c, [k], JoinType(cs, NoKind))]
  {
    SameKeyMapped(a, b, k);
    SameKeyMapped(a, c, k);
    ThreeTables(a, KeyJoin(a, b, k, bs, using), KeyJoin(a, c, k, cs, using), k);
  }

  /** The links of a chain of two joins on one key, which the query merges or not and the draft merges. */
  lemma TwoLinks(e: Engine, a: string, b: string, c: string, k: string, bs: Side, cs: Side, using: bool)
    returns (la: seq<Link>, lb: seq<Link>)
    requires a != [] && b != [] && c != [] && a != b && a != c && b != c
    ensures LinksOf(e, Query(Named(a), [KeyJoin(a, b, k, bs, using), KeyJoin(a, c, k, cs, using)], None), la, lb)
    ensures la == [KeyLink(JoinType(bs, NoKind), k, using), KeyLink(JoinType(cs, NoKind), k, using)]
    ensures lb == [KeyLink(JoinType(bs, NoKind), k, true), KeyLink(JoinType(cs, NoKind), k, true)]
  {
    var x, y := KeyJoin(a, b, k, bs, using), KeyJoin(a, c, k, cs, using);
    TwoMapped(a, b, c, k, bs, cs, using);
    var q := Query(Named(a), [x, y], None);
    ThreeNames(q, a, b, c);
    var js := MapFrom(Named(a), [x, y]).value.joins;
    la, lb := QueryLinks(q, js), DraftLinks(e, js);
    TwoKeyLinks(e, x, y, js[0], js[1], k, using);
  }

  lemma TwoKeyLinks(e: Engine, x: JoinNode, y: JoinNode, i: DraftJoin, j: DraftJoin, k: string, using: bool)
    requires x.kind.NoKind? && y.kind.NoKind? && (if using then x.using == y.using == [k] else x.using == y.using == [])
    requires i.kind == JoinType(x.side, NoKind) && j.kind == JoinType(y.side, NoKind)
    requires i.keysFrom == i.keysTo == j.keysFrom == j.keysTo == [k]
    ensures QueryLink(x, i) == KeyLink(i.kind, k, using) && QueryLink(y, j) == KeyLink(j.kind, k, using)
    ensures DraftLink(e, i) == KeyLink(i.kind, k, true) && DraftLink(e, j) == KeyLink(j.kind, k, true)
  {
  }

  lemma ThreeNames(q: Query, a: string, b: string, c: string)
    requires a != b && a != c && b != c && |q.joins| == 2 && q.base == Named(a)
    requires q.joins[0].right == Named(b) && q.joins[0].kind.NoKind? && q.joins[1].right == Named(c)
             && q.joins[1].kind.NoKind?
    ensures NamedChain(q)
  {
    assert QueryTables(q) == [SqlName(Named(a)), SqlName(Named(b)), SqlName(Named(c))];
  }

  lemma RightThenLeftChain(k: string, merged: bool, la: seq<Link>, lb: seq<Link>)
    requires la == [KeyLink(RightOuter, k, merged), KeyLink(LeftOuter, k, merged)]
    requires lb == [KeyLink(RightOuter, k, true), KeyLink(LeftOuter, k, true)]
    ensures ChainSafe(la, lb) <==> merged
  {
    assert !Doomed(lb, 1);
    assert Carries(lb, 1, 1) && (Carries(la, 1, 1) <==> merged);
    assert HarmlessAt(la, lb, 1) <==> merged;
    assert HarmlessAt(la, lb, 2);
  }

  /** Keys that every join merges are one column. */
  lemma MergedKeysAreOne(e: Engine, js: seq<Link>, cols: seq<set<string>>, k: string)
    requires |cols| == |js| + 1
    requires forall i | 0 <= i < |js| :: js[i].left == [k] && (js[i].bare ==> forall n | 0 <= n < |js| :: js[n].merges)
    ensures BareKeysAreOne(e, js, cols)
  {
    forall m: nat, x | m < |js| && js[m].bare && x in js[m].left ensures OneColumn(e, js, cols, m, x) {
      assert forall i: nat | i < m :: x in Merged(js[i]);
    }
  }

  lemma ThreeNamesAreSafe(e: Engine, a: string, b: string, c: string)
    requires a != b && a != c && b != c
    ensures var tables := [TableRef(a, a), TableRef(b, b), TableRef(c, c)]; DistinctNames(tables) && Uncaptured(e, tables)
  {
  }

  lemma TwoAreJoinable(e: Engine, tables: seq<TableRef>, k: string, using: bool, la: seq<Link>, lb: seq<Link>)
    requires |tables| == 3 && la == [KeyLink(RightOuter, k, using), KeyLink(LeftOuter, k, using)]
    requires lb == [KeyLink(RightOuter, k, true), KeyLink(LeftOuter, k, true)]
    ensures Joinable(e, tables, la, lb)
  {
    MergedKeysAreOne(CompiledSql, la, QueryNeeds(e, tables, lb), k);
    MergedKeysAreOne(e, lb, DraftNeeds(e, tables, lb), k);
  }

  lemma RightThenLeftExactly(e: Engine, o: Oracle, a: string, b: string, c: string, k: string, using: bool)
    requires a != [] && b != [] && c != [] && a != b && a != c && b != c
    ensures AlwaysPreserved(e, o, Named(a), [KeyJoin(a, b, k, RIGHT, using), KeyJoin(a, c, k, LEFT, using)]) <==> using
  {
    var joins := [KeyJoin(a, b, k, RIGHT, using), KeyJoin(a, c, k, LEFT, using)];
    var la, lb := TwoLinks(e, a, b, c, k, RIGHT, LEFT, using);
    var tables := QueryTables(Query(Named(a), joins, None));
    assert tables == [TableRef(a, a), TableRef(b, b), TableRef(c, c)];
    ThreeNamesAreSafe(e, a, b, c);
    SafeIsUncaptured(e, tables, lb);
    RightThenLeftChain(k, using, la, lb);
    TwoAreJoinable(e, tables, k, using, la, lb);
    PushDownExactly(e, o, Named(a), joins, la, lb);
  }

  /**
   * `a RIGHT JOIN b ON a.k = b.k LEFT JOIN c ON a.k = c.k`: where b has a row that a has
   * not, a.k is NULL and finds nothing in c; the draft joins USING (k), whose merged value
   * is b's. With no WHERE clause at all the draft is not the query.
   */
  lemma RightThenLeftIsNotPreserved(e: Engine, o: Oracle, a: string, b: string, c: string, k: string)
    requires a != [] && b != [] && c != [] && a != b && a != c && b != c
    ensures !AlwaysPreserved(e, o, Named(a), [OnKey(a, b, k, RIGHT), OnKey(a, c, k, LEFT)])
  {
    RightThenLeftExactly(e, o, a, b, c, k, false);
  }

  /** Written with USING, the same joins are preserved. */
  lemma RightThenLeftUsingIsPreserved(e: Engine, o: Oracle, a: string, b: string, c: string, k: string)
    requires a != [] && b != [] && c != [] && a != b && a != c && b != c
    ensures AlwaysPreserved(e, o, Named(a), [UsingKey(b, k, RIGHT), UsingKey(c, k, LEFT)])
  {
    RightThenLeftExactly(e, o, a, b, c, k, true);
  }

  // ---- a table whose name is an earlier alias ----

  /** `FROM x AS b JOIN b AS c ON b.k = c.k`: the draft reads x's rows for c. */
  lemma TakenAliasIsNotPreserved(e: Engine, o: Oracle, x: string, b: string, c: string, k: string)
    requires b != [] && c != [] && b != c && x != b && '.' !in b
    ensures !AlwaysPreserved(e, o, Table(x, Some(b)), [JoinNode(Table(b, Some(c)), NoSide, NoKind, [], Some(SameKey(b, c, k)))])
  {
    var base, node := Table(x, Some(b)), JoinNode(Table(b, Some(c)), NoSide, NoKind, [], Some(SameKey(b, c, k)));
    var q := Query(base, [node], None);
    var la, lb := OneKeyLinks(e, base, node, k);
    var tables := QueryTables(q);
    assert tables == [TableRef(x, b), TableRef(b, c)];
    assert Captures(e, tables, 1, 0);
    NothingBefore(CompiledSql, la, QueryNeeds(e, tables, lb));
    NothingBefore(e, lb, DraftNeeds(e, tables, lb));
    CaptureIsLost(e, o, base, [node], la, lb, 1);
  }

  /** The links of one inner join on a key of the same name. */
  lemma OneKeyLinks(e: Engine, base: FromItem, node: JoinNode, k: string) returns (la: seq<Link>, lb: seq<Link>)
    requires base.Table? && base.alias.Some? && base.alias.value != []
    requires node.right.Table? && node.right.alias.Some? && node.right.alias.value != [] && base.alias != node.right.alias
    requires node == JoinNode(node.right, NoSide, NoKind, [], Some(SameKey(base.alias.value, node.right.alias.value, k)))
    ensures LinksOf(e, Query(base, [node], None), la, lb)
    ensures la == [KeyLink(Inner, k, false)] && lb == [KeyLink(Inner, k, true)]
  {
    SameKeyMapped(base.alias.value, node.right.alias.value, k);
    OneJoin(base, node);
    var q := Query(base, [node], None);
    assert QueryTables(q) == [SqlName(base), SqlName(node.right)];
    var js := MapFrom(base, [node]).value.joins;
    la, lb := QueryLinks(q, js), DraftLinks(e, js);
    assert js == [DraftJoin(base.alias.value, [k], node.right.alias.value, [k], Inner)];
    assert la[0] == QueryLink(node, js[0]) && lb[0] == DraftLink(e, js[0]);
  }

  /** In a single join every key is one column. */
  lemma NothingBefore(e: Engine, js: seq<Link>, cols: seq<set<string>>)
    requires |js| == 1 && |cols| == 2
    ensures BareKeysAreOne(e, js, cols)
  {
  }

  // ---- an OR group that moves to a table it is not all about ----

  function TextTest(table: Option<string>, c: string): Pred { Compare(EQ, Column(Ref(table, c)), Literal("1")) }

  /** `a.x = '1' OR y = '1'`. */
  function MixedGroup(a: string, x: string, y: string): Pred { Or(TextTest(Some(a), x), TextTest(None, y)) }

  function MixedQuery(a: string, b: string, k: string, x: string, y: string): Query {
    Query(Named(a), [OnKey(a, b, k, NoSide)], Some(MixedGroup(a, x, y)))
  }

  lemma TextTestAtoms(table: Option<string>, c: string, tables: seq<TableRef>)
    requires |tables| == 2
    ensures FlattenAnd(TextTest(table, c)) == [TextTest(table, c)]
            && FlattenOr(TextTest(table, c)) == [TextTest(table, c)]
    ensures MapAtoms([TextTest(table, c)], tables) == Some([Placed(table, Filter(c, Cmp(EQ, "1")))])
  {
    SoleQualifier(Ref(table, c));
    assert Refs(TextTest(table, c)) == [Ref(table, c)];
    assert [TextTest(table, c)][..0] == [];
    assert MapAtoms([], tables) == Some([]);
    assert [] + [Placed(table, Filter(c, Cmp(EQ, "1")))] == [Placed(table, Filter(c, Cmp(EQ, "1")))];
  }

  lemma TwoBranches(l: Pred, r: Pred, tables: seq<TableRef>, xl: seq<Placed>, xr: seq<Placed>)
    requires MapAtoms(FlattenAnd(l), tables) == Some(xl) && MapAtoms(FlattenAnd(r), tables) == Some(xr)
    ensures MapBranches([l, r], tables) == Some([xl, xr])
  {
    var ls, none: seq<seq<Placed>> := [l], [];
    assert ls[..0] == [] && none + [xl] == [xl];
    assert MapBranches(ls[..|ls| - 1], tables) == Some(none);
    assert MapBranches(ls, tables) == Some([xl]);
    var bs := [l, r];
    assert bs[..|bs| - 1] == ls && [xl] + [xr] == [xl, xr];
  }

  lemma MixedBranches(a: string, x: string, y: string, tables: seq<TableRef>)
    requires |tables| == 2
    ensures MapBranches(FlattenOr(MixedGroup(a, x, y)), tables)
            == Some([[Placed(Some(a), Filter(x, Cmp(EQ, "1")))], [Placed(None, Filter(y, Cmp(EQ, "1")))]])
  {
    var l, r := TextTest(Some(a), x), TextTest(None, y);
    TextTestAtoms(Some(a), x, tables);
    TextTestAtoms(None, y, tables);
    assert FlattenOr(MixedGroup(a, x, y)) == [l, r];
    TwoBranches(l, r, tables, [Placed(Some(a), Filter(x, Cmp(EQ, "1")))], [Placed(None, Filter(y, Cmp(EQ, "1")))]);
  }

  lemma MixedGroups(a: string, x: string, y: string)
    ensures |FlattenOr(MixedGroup(a, x, y))| == 2
  {
    assert FlattenOr(TextTest(Some(a), x)) == [TextTest(Some(a), x)]
      && FlattenOr(TextTest(None, y)) == [TextTest(None, y)];
  }

  lemma MixedAlias(a: string, f: Filter, g: Filter)
    ensures SoleAlias([[Placed(Some(a), f)], [Placed(None, g)]]) == Some(a)
  {
    var l: seq<Placed>, r: seq<Placed> := [Placed(Some(a), f)], [Placed(None, g)];
    var none: seq<seq<Placed>> := [];
    assert [l, r][..1] == [l] && [l][..0] == none && l[..0] == [] && r[..0] == [];
    assert SeenIn(l) == [a] && SeenIn(r) == [];
    assert Seen([l]) == [a];
    assert Seen([l, r]) == [a];
    assert [a][..0] == [];
    assert Distinct([a]) == [a];
  }

  lemma OneJoin(base: FromItem, x: JoinNode)
    requires base.Table?
    ensures MapFrom(base, [x]) == MapJoin(StartFrom(base), AliasOf(base, []), x)
  {
    var xs := [x];
    assert xs[..|xs| - 1] == [];
    assert MapJoins(base, xs[..|xs| - 1]) == Ok(StartFrom(base));
  }

  lemma MixedFrom(a: string, b: string, k: string)
    requires a != [] && b != [] && a != b
    ensures MapFrom(Named(a), [OnKey(a, b, k, NoSide)])
            == Ok(Mapped([TableRef(a, a), TableRef(b, b)], [DraftJoin(a, [k], b, [k], Inner)], {}))
  {
    OneJoin(Named(a), OnKey(a, b, k, NoSide));
    SameKeyMapped(a, b, k);
    assert Put([TableRef(a, a)], TableRef(b, b)) == [TableRef(a, a), TableRef(b, b)] by {
      assert [TableRef(a, a)][1..] == [];
    }
    var m := StartFrom(Named(a));
    assert m == Mapped([TableRef(a, a)], [], {});
    assert m.joins + [DraftJoin(a, [k], b, [k], Inner)] == [DraftJoin(a, [k], b, [k], Inner)] && m.nullable + {} == {};
  }

  lemma MixedIsResolved(db: Database, a: string, b: string, k: string, x: string, y: string)
    requires a != [] && b != [] && a != b
    requires var ca, cb := RelationOf(db, TableRef(a, a)).cols, RelationOf(db, TableRef(b, b)).cols;
             x in ca && x !in cb && y in cb && y !in ca
    ensures var q := MixedQuery(a, b, k, x, y);
            && FoundWhere(db, q)
            && OwnedBy(FinalScope(db, QueryTables(q), QueryKinds(q)), y, 1)
            && QueryTables(q) == [TableRef(a, a), TableRef(b, b)] && NamedChain(q)
  {
    var q := MixedQuery(a, b, k, x, y);
    assert QueryTables(q) == [TableRef(a, a), TableRef(b, b)];
    var s := FinalScope(db, QueryTables(q), QueryKinds(q));
    assert OwnedBy(s, x, 0) && AliasAt(s, a, 0) && OwnedBy(s, y, 1);
    var rx, ry := Ref(Some(a), x), Ref(None, y);
    assert Refs(q.where.value) == [rx, ry];
    assert RefersTo(s, rx, 0) && RefersTo(s, ry, 1);
    assert Found(s, rx, 2) && Found(s, ry, 2);
  }

  lemma MixedIsApart(s: Scope, a: string, x: string, y: string, tables: seq<TableRef>)
    requires |tables| == 2 && tables[0].alias == a && s.aliases == Aliases(tables) && OwnedBy(s, y, 1)
    requires tables[1].alias != a
    ensures !MovesTogether(s, MixedGroup(a, x, y), tables, {})
  {
    var p := MixedGroup(a, x, y);
    MixedBranches(a, x, y, tables);
    MixedAlias(a, Filter(x, Cmp(EQ, "1")), Filter(y, Cmp(EQ, "1")));
    assert Aliases(tables)[0] == a && Pushable(a, tables, {});
    assert Refs(p) == [Ref(Some(a), x), Ref(None, y)];
    assert Refs(p)[1] == Ref(None, y) && !RefersTo(s, Ref(None, y), 0) && !AllOn(s, p, 0);
    assert MovesTo(p, tables, {}) == Some(tables[0].alias);
  }

  lemma MixedDoesNotFit(db: Database, a: string, b: string, k: string, x: string, y: string)
    requires a != [] && b != [] && a != b
    requires var q := MixedQuery(a, b, k, x, y);
             && QueryTables(q) == [TableRef(a, a), TableRef(b, b)]
             && OwnedBy(FinalScope(db, QueryTables(q), QueryKinds(q)), y, 1)
    ensures MapFrom(Named(a), [OnKey(a, b, k, NoSide)]).Ok? && !GroupsFit(db, MixedQuery(a, b, k, x, y))
  {
    var q, p := MixedQuery(a, b, k, x, y), MixedGroup(a, x, y);
    MixedFrom(a, b, k);
    MixedIsApart(FinalScope(db, QueryTables(q), QueryKinds(q)), a, x, y, QueryTables(q));
    assert p in TopConjuncts(p);
  }

  /**
   * `a JOIN b ON a.k = b.k WHERE a.x = '1' OR y = '1'` with y a column of b: the group moves
   * to a, which has no column y, and the draft does not run.
   */
  lemma MixedGroupDoesNotRun(e: Engine, db: Database, a: string, b: string, k: string, x: string, y: string)
    requires a != [] && b != [] && a != b
    requires var ca, cb := RelationOf(db, TableRef(a, a)).cols, RelationOf(db, TableRef(b, b)).cols;
             x in ca && x !in cb && y in cb && y !in ca
    ensures var q := MixedQuery(a, b, k, x, y);
            MapStatement(q).Ok? && FoundWhere(db, q) && !DraftRuns(e, db, MapStatement(q).value)
  {
    var q := MixedQuery(a, b, k, x, y);
    MixedIsResolved(db, a, b, k, x, y);
    MixedDoesNotFit(db, a, b, k, x, y);
    MixedFrom(a, b, k);
    MixedMapped(a, x, y, QueryTables(q));
    var fs := TableFilters(MapStatement(q).value.filters, QueryTables(q));
    assert forall i: nat, j: nat | j < i < 2 :: !Captures(e, QueryTables(q), i, j);
    assert LoadsOwn(e, QueryTables(q), fs);
    FiltersRunExactly(e, db, q, MapStatement(q).value);
  }

  lemma MixedMapped(a: string, x: string, y: string, tables: seq<TableRef>)
    requires |tables| == 2
    ensures MapWhere(Some(MixedGroup(a, x, y)), tables, {}).Ok?
  {
    var p := MixedGroup(a, x, y);
    MixedBranches(a, x, y, tables);
    MixedGroups(a, x, y);
    assert TopConjuncts(p) == [p];
    OneConjunct(p, tables, {});
  }
}
