/** What the mapped filters of a WHERE clause mean, against three-valued SQL. */
module WhereMeaning {
  import opened Prelude
  import opened SqlValues
  import opened SqlQuery
  import opened Joins
  import opened Draft
  import opened MapperWhere

  // ---- one comparison ----

  /** NOT applied to a LIKE node that already carries its own negation. */
  predicate DoubleNegated(p: Pred) { Negated(p) && Core(p).LikeP? && Core(p).negated }

  /** No LIKE of the predicate is negated twice. */
  predicate NegatedOnce(p: Pred) {
    !DoubleNegated(p) &&
    match p
    case Paren(q) => NegatedOnce(q)
    case And(a, b) => NegatedOnce(a) && NegatedOnce(b)
    case Or(a, b) => NegatedOnce(a) && NegatedOnce(b)
    case _ => true
  }

  /** The column a mapped comparison is about. */
  function ConditionRef(p: Pred): Ref
    requires PredicateCondition(p).Some?
  {
    match Core(p)
    case Is(Column(ref), _) => ref
    case In(Column(ref), _) => ref
    case BetweenP(Column(ref), _, _) => ref
    case LikeP(Column(ref), _, _) => ref
    case Compare(_, Column(ref), _) => ref
  }

  lemma UnwrapKeeps(o: Oracle, s: Scope, row: JoinedRow, p: Pred)
    ensures EvalPred(o, s, row, UnwrapParen(p)) == EvalPred(o, s, row, p)
    ensures Refs(UnwrapParen(p)) == Refs(p)
  {
  }

  lemma {:induction false} InOverLiterals(s: Scope, row: JoinedRow, v: Value, items: seq<Operand>)
    requires LiteralTexts(items).Some?
    ensures In3(v, OperandValues(s, row, items))
            == if v.Null? && items != [] then Unknown else Lift(v.Val? && v.text in LiteralTexts(items).value)
    ensures |LiteralTexts(items).value| == |items|
    ensures OperandsRefs(items) == []
  {
    if items != [] {
      InOverLiterals(s, row, v, items[1..]);
      assert LiteralTexts(items).value == [items[0].text] + LiteralTexts(items[1..]).value;
    }
  }

  lemma ConditionRefs(p: Pred)
    requires PredicateCondition(p).Some?
    ensures Refs(p) == [ConditionRef(p)] && PredicateCondition(p).value.column == ConditionRef(p).name
  {
    ConditionMeaning(Oracle((a, b) => false, (a, b) => false), Scope([], []), [], p);
  }

  lemma CoreMeaning(o: Oracle, s: Scope, row: JoinedRow, p: Pred)
    ensures EvalPred(o, s, row, p) == Negate(Negated(p), EvalPred(o, s, row, Core(p))) && Refs(p) == Refs(Core(p))
  {
    var node := UnwrapParen(p);
    UnwrapKeeps(o, s, row, p);
    if node.Not? { UnwrapKeeps(o, s, row, node.inner); }
  }

  /**
   * The mapped operator has the value of the comparison on the column's value,
   * exactly when no NOT meets a LIKE that is already negated (or the value is NULL).
   */
  lemma ConditionMeaning(o: Oracle, s: Scope, row: JoinedRow, p: Pred)
    requires PredicateCondition(p).Some?
    ensures Refs(p) == [ConditionRef(p)]
    ensures PredicateCondition(p).value.column == ConditionRef(p).name
    ensures EvalPred(o, s, row, p) == FilterValue(o, PredicateCondition(p).value.op, Lookup(s, row, ConditionRef(p)))
            <==> !(DoubleNegated(p) && Lookup(s, row, ConditionRef(p)).Val?)
  {
    CoreMeaning(o, s, row, p);
    var core := Core(p);
    if core.In? {
      InOverLiterals(s, row, Lookup(s, row, core.subject.ref), core.items);
    }
  }

  // ---- conjunctions and disjunctions ----

  lemma {:induction false} FlattenAndMeaning(o: Oracle, s: Scope, row: JoinedRow, p: Pred)
    ensures EvalPred(o, s, row, p) == True <==> forall c | c in FlattenAnd(p) :: EvalPred(o, s, row, c) == True
  {
    match p
    case Paren(q) => FlattenAndMeaning(o, s, row, q);
    case And(a, b) =>
      FlattenAndMeaning(o, s, row, a);
      FlattenAndMeaning(o, s, row, b);
    case _ =>
  }

  lemma {:induction false} FlattenOrMeaning(o: Oracle, s: Scope, row: JoinedRow, p: Pred)
    ensures EvalPred(o, s, row, p) == True <==> exists c | c in FlattenOr(p) :: EvalPred(o, s, row, c) == True
  {
    match p
    case Paren(q) => FlattenOrMeaning(o, s, row, q);
    case Or(a, b) =>
      FlattenOrMeaning(o, s, row, a);
      FlattenOrMeaning(o, s, row, b);
      assert forall c | c in FlattenOr(p) :: c in FlattenOr(a) || c in FlattenOr(b);
      assert forall c | c in FlattenOr(a) || c in FlattenOr(b) :: c in FlattenOr(p);
    case _ => assert p in FlattenOr(p);
  }

  /** A part of a predicate refers to no new column and negates nothing anew. */
  predicate PartOf(c: Pred, p: Pred) {
    (forall r | r in Refs(c) :: r in Refs(p)) && (NegatedOnce(p) ==> NegatedOnce(c))
  }

  lemma {:induction false} FlattenAndParts(p: Pred)
    ensures forall c | c in FlattenAnd(p) :: PartOf(c, p)
    ensures FlattenAnd(p) != []
  {
    match p
    case Paren(q) => FlattenAndParts(q);
    case And(a, b) => FlattenAndParts(a); FlattenAndParts(b);
    case _ =>
  }

  lemma {:induction false} FlattenOrParts(p: Pred)
    ensures forall c | c in FlattenOr(p) :: PartOf(c, p)
  {
    match p
    case Paren(q) => FlattenOrParts(q);
    case Or(a, b) => FlattenOrParts(a); FlattenOrParts(b);
    case _ =>
  }

  // ---- filters and the values they read ----

  /** How filters read columns by bare name. */
  type Reader = string -> Value

  function RowReader(r: Row): Reader { c => Get(r, c) }

  ghost predicate FiltersTrue(o: Oracle, read: Reader, fs: seq<Filter>) {
    forall f | f in fs :: FilterValue(o, f.op, read(f.column)) == True
  }

  /** Some non-empty group holds, if there is one at all. */
  ghost predicate GroupsAccept(o: Oracle, read: Reader, groups: seq<seq<Filter>>) {
    (forall g | g in groups :: g == []) || exists g | g in groups :: g != [] && FiltersTrue(o, read, g)
  }

  /** The left-over filters and groups of a draft, reading by bare name after the joins. */
  ghost predicate LeftOversAccept(o: Oracle, bare: Reader, f: Filters) {
    FiltersTrue(o, bare, f.where) && GroupsAccept(o, bare, f.groups)
  }

  /** The tables' own filters and groups. */
  ghost predicate TablesAccept(o: Oracle, row: JoinedRow, f: Filters, tables: seq<TableRef>) {
    Passes(o, TableFilters(f, tables), row)
  }

  /** Reading by bare name gives the value of the reference. */
  ghost predicate ReadsRight(s: Scope, row: JoinedRow, read: Reader, ref: Ref) { read(ref.name) == Lookup(s, row, ref) }

  ghost predicate AllReadRight(s: Scope, row: JoinedRow, read: Reader, p: Pred) {
    forall r | r in Refs(p) :: ReadsRight(s, row, read, r)
  }

  /** The scope of a query: one entry per table of the draft. */
  ghost predicate ScopeOf(s: Scope, tables: seq<TableRef>) {
    && s.aliases == Aliases(tables) && |s.cols| == |tables|
    && forall i, j | 0 <= i < j < |tables| :: tables[i].alias != tables[j].alias
  }

  /** The reference is to a column of one table: of the one it names, or of the only one that has it. */
  ghost predicate Found(s: Scope, ref: Ref, width: nat) {
    exists i | 0 <= i < width && i < |s.cols| :: RefersTo(s, ref, i) && ref.name in s.cols[i]
  }

  ghost predicate AllFound(s: Scope, p: Pred, width: nat) { forall r | r in Refs(p) :: Found(s, r, width) }

  /** Every reference is to table i. */
  ghost predicate AllOn(s: Scope, p: Pred, i: int) { forall r | r in Refs(p) :: RefersTo(s, r, i) }

  lemma OnTableReadsRight(s: Scope, row: JoinedRow, p: Pred, i: nat)
    requires AllOn(s, p, i) && i < |row|
    ensures AllReadRight(s, row, RowReader(RowOf(row[i])), p)
  {
    forall r | r in Refs(p) ensures ReadsRight(s, row, RowReader(RowOf(row[i])), r) { LookupAt(s, row, r, i); }
  }

  lemma SoleQualifier(r: Ref)
    ensures Distinct(Qualifiers([r])) == if r.table.Some? then [r.table.value] else []
  {
    assert Qualifiers([r][1..]) == [];
    if r.table.Some? {
      assert Qualifiers([r]) == [r.table.value];
      assert [r.table.value][..0] == [];
      assert Distinct([r.table.value]) == [r.table.value];
    }
  }

  lemma NamedTable(s: Scope, tables: seq<TableRef>, i: nat)
    requires ScopeOf(s, tables) && i < |tables|
    ensures AliasAt(s, tables[i].alias, i)
  {
    forall j | 0 <= j < |tables| && j != i ensures s.aliases[j] != tables[i].alias {
      assert s.aliases[j] == tables[j].alias;
    }
  }

  /** The alias found for a mapped comparison is its column's table. */
  lemma AliasIsTable(s: Scope, p: Pred, tables: seq<TableRef>, i: nat)
    requires PredicateCondition(p).Some? && ScopeOf(s, tables) && AllFound(s, p, |tables|)
    requires i < |tables| && PredicateAlias(p, tables) == Some(tables[i].alias)
    ensures AllOn(s, p, i)
  {
    var ref := ConditionRef(p);
    ConditionRefs(p);
    assert ref in Refs(p);
    SoleQualifier(ref);
    NamedTable(s, tables, i);
    if ref.table.None? { assert Found(s, ref, |tables|); }
  }

  /** A mapped filter has the comparison's truth, if it reads the column right. */
  lemma AtomMeaning(o: Oracle, s: Scope, row: JoinedRow, p: Pred, tables: seq<TableRef>, read: Reader)
    requires MapAtom(p, tables).Some? && NegatedOnce(p) && AllReadRight(s, row, read, p)
    ensures var f := MapAtom(p, tables).value.filter; EvalPred(o, s, row, p) == FilterValue(o, f.op, read(f.column))
  {
    ConditionMeaning(o, s, row, p);
    assert ConditionRef(p) in Refs(p);
  }

  // ---- groups ----

  lemma {:induction false} MapAtomsAt(ps: seq<Pred>, tables: seq<TableRef>, i: nat)
    requires MapAtoms(ps, tables).Some? && i < |ps|
    ensures |MapAtoms(ps, tables).value| == |ps| && MapAtom(ps[i], tables) == Some(MapAtoms(ps, tables).value[i])
    decreases |ps|
  {
    if |ps| > 1 {
      MapAtomsAt(ps[..|ps| - 1], tables, if i < |ps| - 1 then i else 0);
    }
  }

  lemma {:induction false} MapBranchesAt(bs: seq<Pred>, tables: seq<TableRef>, i: nat)
    requires MapBranches(bs, tables).Some? && i < |bs|
    ensures |MapBranches(bs, tables).value| == |bs|
    ensures MapAtoms(FlattenAnd(bs[i]), tables) == Some(MapBranches(bs, tables).value[i])
    decreases |bs|
  {
    if |bs| > 1 {
      MapBranchesAt(bs[..|bs| - 1], tables, if i < |bs| - 1 then i else 0);
    }
  }

  lemma MapBranchesLength(bs: seq<Pred>, tables: seq<TableRef>)
    requires MapBranches(bs, tables).Some?
    ensures |MapBranches(bs, tables).value| == |bs|
  {
    if bs != [] { MapBranchesAt(bs, tables, 0); }
  }

  /** One branch: all its comparisons hold exactly when all its mapped filters do. */
  lemma BranchMeaning(o: Oracle, s: Scope, row: JoinedRow, b: Pred, tables: seq<TableRef>, read: Reader)
    requires MapAtoms(FlattenAnd(b), tables).Some? && NegatedOnce(b) && AllReadRight(s, row, read, b)
    ensures var xs := MapAtoms(FlattenAnd(b), tables).value;
            && FiltersOf(xs) != []
            && (EvalPred(o, s, row, b) == True <==> FiltersTrue(o, read, FiltersOf(xs)))
  {
    var cs := FlattenAnd(b);
    var xs := MapAtoms(cs, tables).value;
    FlattenAndMeaning(o, s, row, b);
    FlattenAndParts(b);
    MapAtomsAt(cs, tables, 0);
    forall i | 0 <= i < |cs|
      ensures EvalPred(o, s, row, cs[i]) == FilterValue(o, xs[i].filter.op, read(xs[i].filter.column))
    {
      MapAtomsAt(cs, tables, i);
      assert cs[i] in cs;
      AtomMeaning(o, s, row, cs[i], tables, read);
    }
    if EvalPred(o, s, row, b) == True {
      forall f | f in FiltersOf(xs) ensures FilterValue(o, f.op, read(f.column)) == True {
        var i :| 0 <= i < |xs| && xs[i].filter == f;
        assert cs[i] in cs;
      }
    }
    if FiltersTrue(o, read, FiltersOf(xs)) {
      forall c | c in cs ensures EvalPred(o, s, row, c) == True {
        var i :| 0 <= i < |cs| && cs[i] == c;
        assert FiltersOf(xs)[i] in FiltersOf(xs);
      }
    }
  }

  lemma GroupBranch(o: Oracle, s: Scope, row: JoinedRow, c: Pred, tables: seq<TableRef>, read: Reader, i: nat)
    requires MapBranches(FlattenOr(c), tables).Some? && NegatedOnce(c) && AllReadRight(s, row, read, c)
    requires i < |FlattenOr(c)|
    ensures var bs := MapBranches(FlattenOr(c), tables).value;
            && |bs| == |FlattenOr(c)| && FiltersOf(bs[i]) != []
            && (EvalPred(o, s, row, FlattenOr(c)[i]) == True <==> FiltersTrue(o, read, FiltersOf(bs[i])))
  {
    var ps := FlattenOr(c);
    FlattenOrParts(c);
    MapBranchesAt(ps, tables, i);
    assert ps[i] in ps;
    BranchMeaning(o, s, row, ps[i], tables, read);
  }

  lemma GroupBranches(o: Oracle, s: Scope, row: JoinedRow, c: Pred, tables: seq<TableRef>, read: Reader)
    requires MapBranches(FlattenOr(c), tables).Some? && NegatedOnce(c) && AllReadRight(s, row, read, c)
    ensures var ps, gs := FlattenOr(c), BranchFilters(MapBranches(FlattenOr(c), tables).value);
            && |gs| == |ps| && forall i | 0 <= i < |ps| ::
                 gs[i] != [] && (EvalPred(o, s, row, ps[i]) == True <==> FiltersTrue(o, read, gs[i]))
  {
    FlattenOrNonEmpty(c);
    GroupBranch(o, s, row, c, tables, read, 0);
    var ps, gs := FlattenOr(c), BranchFilters(MapBranches(FlattenOr(c), tables).value);
    forall i | 0 <= i < |ps| ensures gs[i] != [] && (EvalPred(o, s, row, ps[i]) == True <==> FiltersTrue(o, read, gs[i])) {
      GroupBranch(o, s, row, c, tables, read, i);
    }
  }

  /** The OR group: the disjunction is true exactly when the mapped group accepts. */
  lemma GroupMeaning(o: Oracle, s: Scope, row: JoinedRow, c: Pred, tables: seq<TableRef>, read: Reader)
    requires MapBranches(FlattenOr(c), tables).Some? && NegatedOnce(c) && AllReadRight(s, row, read, c)
    ensures EvalPred(o, s, row, c) == True
            <==> GroupsAccept(o, read, BranchFilters(MapBranches(FlattenOr(c), tables).value))
  {
    FlattenOrMeaning(o, s, row, c);
    FlattenOrNonEmpty(c);
    GroupBranches(o, s, row, c, tables, read);
    SomeBranch(o, s, row, FlattenOr(c), BranchFilters(MapBranches(FlattenOr(c), tables).value), read);
  }

  /** Branches and the groups that say the same: one is true exactly when the groups accept. */
  lemma SomeBranch(o: Oracle, s: Scope, row: JoinedRow, ps: seq<Pred>, gs: seq<seq<Filter>>, read: Reader)
    requires |gs| == |ps| > 0
    requires forall i | 0 <= i < |ps| :: gs[i] != [] && (EvalPred(o, s, row, ps[i]) == True <==> FiltersTrue(o, read, gs[i]))
    ensures (exists b | b in ps :: EvalPred(o, s, row, b) == True) <==> GroupsAccept(o, read, gs)
  {
    assert gs[0] in gs && gs[0] != [];
    if b :| b in ps && EvalPred(o, s, row, b) == True {
      var i :| 0 <= i < |ps| && ps[i] == b;
      assert gs[i] in gs;
    }
    if GroupsAccept(o, read, gs) {
      var g :| g in gs && g != [] && FiltersTrue(o, read, g);
      var i :| 0 <= i < |gs| && gs[i] == g;
      assert ps[i] in ps;
    }
  }

  lemma FlattenOrNonEmpty(c: Pred)
    ensures FlattenOr(c) != []
  {
  }

  // ---- conjuncts that move to a table, and those left over ----

  /** The table a conjunct moves to, if it does. */
  function MovesTo(c: Pred, tables: seq<TableRef>, nullable: set<string>): Option<string> {
    var alias := if !c.Or? then PredicateAlias(c, tables)
                 else if MapBranches(FlattenOr(c), tables).Some? then SoleAlias(MapBranches(FlattenOr(c), tables).value)
                 else None;
    if alias.Some? && Pushable(alias.value, tables, nullable) then alias else None
  }

  /** A conjunct that moves to a table is all about that table. */
  ghost predicate MovesTogether(s: Scope, c: Pred, tables: seq<TableRef>, nullable: set<string>) {
    forall i | 0 <= i < |tables| && MovesTo(c, tables, nullable) == Some(tables[i].alias) :: AllOn(s, c, i)
  }

  ghost predicate GroupsTogether(s: Scope, p: Pred, tables: seq<TableRef>, nullable: set<string>) {
    forall c | c in TopConjuncts(p) && c.Or? :: MovesTogether(s, c, tables, nullable)
  }

  lemma AtomMovesTogether(s: Scope, c: Pred, tables: seq<TableRef>, nullable: set<string>)
    requires MapAtom(c, tables).Some? && !c.Or? && ScopeOf(s, tables) && AllFound(s, c, |tables|)
    ensures MovesTogether(s, c, tables, nullable)
  {
    forall i | 0 <= i < |tables| && MovesTo(c, tables, nullable) == Some(tables[i].alias) ensures AllOn(s, c, i) {
      AliasIsTable(s, c, tables, i);
    }
  }

  /** Every conjunct that is left over reads its columns right. */
  ghost predicate LeftOversRead(s: Scope, row: JoinedRow, bare: Reader, cs: seq<Pred>, tables: seq<TableRef>,
                                nullable: set<string>) {
    forall c | c in cs && MovesTo(c, tables, nullable).None? :: AllReadRight(s, row, bare, c)
  }

  /** All conjuncts that move, or all that do not, are true. */
  ghost predicate TrueOf(o: Oracle, s: Scope, row: JoinedRow, cs: seq<Pred>, tables: seq<TableRef>,
                         nullable: set<string>, moved: bool) {
    forall c | c in cs && MovesTo(c, tables, nullable).Some? == moved :: EvalPred(o, s, row, c) == True
  }

  /** Two drafts whose filters differ on table i only. */
  lemma OneTableChanged(o: Oracle, row: JoinedRow, f: Filters, f': Filters, tables: seq<TableRef>, i: nat)
    requires i < |tables| == |row|
    requires forall j | 0 <= j < |tables| && j != i :: TableFilterOn(f', tables[j].alias) == TableFilterOn(f, tables[j].alias)
    ensures Accepts(o, TableFilterOn(f', tables[i].alias), RowOf(row[i]))
            ==> (TablesAccept(o, row, f, tables) ==> TablesAccept(o, row, f', tables))
    ensures TablesAccept(o, row, f', tables) ==>
              (Accepts(o, TableFilterOn(f, tables[i].alias), RowOf(row[i])) ==> TablesAccept(o, row, f, tables))
              && Accepts(o, TableFilterOn(f', tables[i].alias), RowOf(row[i]))
    ensures TablesAccept(o, row, f, tables) ==> Accepts(o, TableFilterOn(f, tables[i].alias), RowOf(row[i]))
  {
    var fs, fs' := TableFilters(f, tables), TableFilters(f', tables);
    assert forall j | 0 <= j < |tables| && j != i :: fs'[j] == fs[j];
    if TablesAccept(o, row, f', tables) { assert Accepts(o, fs'[i], RowOf(row[i])); }
    if TablesAccept(o, row, f, tables) { assert Accepts(o, fs[i], RowOf(row[i])); }
  }

  lemma FiltersTrueSnoc(o: Oracle, read: Reader, fs: seq<Filter>, f: Filter)
    ensures FiltersTrue(o, read, fs + [f]) <==> FiltersTrue(o, read, fs) && FilterValue(o, f.op, read(f.column)) == True
  {
    assert forall g | g in fs + [f] :: g in fs || g == f;
    assert forall g | g in fs || g == f :: g in fs + [f];
  }

  /** A table's filters, in terms of a reader. */
  lemma AcceptsReads(o: Oracle, tf: TableFilter, r: Row)
    ensures Accepts(o, tf, r) <==> FiltersTrue(o, RowReader(r), tf.filters) && GroupsAccept(o, RowReader(r), tf.groups)
  {
    assert AllHold(o, tf.filters, r) <==> FiltersTrue(o, RowReader(r), tf.filters);
    assert forall g | g in tf.groups :: AllHold(o, g, r) <==> FiltersTrue(o, RowReader(r), g);
  }

  /** One more filter on table i. */
  lemma FilterOnTable(o: Oracle, row: JoinedRow, st: Filters, f: Filter, tables: seq<TableRef>, i: nat)
    requires i < |tables| == |row| && forall j | 0 <= j < |tables| && j != i :: tables[j].alias != tables[i].alias
    ensures var st' := st.(tableFilters := st.tableFilters[tables[i].alias := FiltersOn(st, tables[i].alias) + [f]]);
            TablesAccept(o, row, st', tables)
            <==> TablesAccept(o, row, st, tables) && FilterValue(o, f.op, Get(RowOf(row[i]), f.column)) == True
  {
    var a := tables[i].alias;
    var st' := st.(tableFilters := st.tableFilters[a := FiltersOn(st, a) + [f]]);
    var r := RowOf(row[i]);
    OneTableChanged(o, row, st, st', tables, i);
    AcceptsReads(o, TableFilterOn(st, a), r);
    AcceptsReads(o, TableFilterOn(st', a), r);
    FiltersTrueSnoc(o, RowReader(r), FiltersOn(st, a), f);
  }

  /** The group on table i. */
  lemma GroupOnTable(o: Oracle, row: JoinedRow, st: Filters, gs: seq<seq<Filter>>, tables: seq<TableRef>, i: nat)
    requires i < |tables| == |row| && forall j | 0 <= j < |tables| && j != i :: tables[j].alias != tables[i].alias
    requires st.tableGroups == map[]
    ensures var st' := st.(tableGroups := st.tableGroups[tables[i].alias := gs]);
            TablesAccept(o, row, st', tables)
            <==> TablesAccept(o, row, st, tables) && GroupsAccept(o, RowReader(RowOf(row[i])), gs)
  {
    var a := tables[i].alias;
    var st' := st.(tableGroups := st.tableGroups[a := gs]);
    var r := RowOf(row[i]);
    assert GroupsOn(st', a) == gs && GroupsOn(st, a) == [];
    OneTableChanged(o, row, st, st', tables, i);
    AcceptsReads(o, TableFilterOn(st, a), r);
    AcceptsReads(o, TableFilterOn(st', a), r);
  }

  /** Placing a comparison adds its truth: on its table, or by its bare name if that reads the column right. */
  lemma PlaceFilterMeaning(o: Oracle, s: Scope, row: JoinedRow, st: Filters, p: Pred, tables: seq<TableRef>,
                           nullable: set<string>, bare: Reader)
    requires MapAtom(p, tables).Some? && !p.Or? && ScopeOf(s, tables) && |row| == |tables|
    requires AllFound(s, p, |row|) && NegatedOnce(p)
    ensures var st', moved := PlaceFilter(st, MapAtom(p, tables).value, tables, nullable), MovesTo(p, tables, nullable).Some?;
            && (TablesAccept(o, row, st', tables)
                <==> TablesAccept(o, row, st, tables) && (moved ==> EvalPred(o, s, row, p) == True))
            && (moved ==> LeftOversAccept(o, bare, st') == LeftOversAccept(o, bare, st))
            && (!moved && AllReadRight(s, row, bare, p) ==>
                  (LeftOversAccept(o, bare, st') <==> LeftOversAccept(o, bare, st) && EvalPred(o, s, row, p) == True))
  {
    var x := MapAtom(p, tables).value;
    if MovesTo(p, tables, nullable).Some? {
      var i :| 0 <= i < |tables| && tables[i].alias == x.alias.value;
      AliasIsTable(s, p, tables, i);
      OnTableReadsRight(s, row, p, i);
      AtomMeaning(o, s, row, p, tables, RowReader(RowOf(row[i])));
      FilterOnTable(o, row, st, x.filter, tables, i);
    } else {
      assert TableFilters(st.(where := st.where + [x.filter]), tables) == TableFilters(st, tables);
      if AllReadRight(s, row, bare, p) {
        AtomMeaning(o, s, row, p, tables, bare);
        FiltersTrueSnoc(o, bare, st.where, x.filter);
      }
    }
  }

  lemma MovedGroup(o: Oracle, s: Scope, row: JoinedRow, st: Filters, c: Pred, tables: seq<TableRef>, i: nat)
    requires MapBranches(FlattenOr(c), tables).Some? && ScopeOf(s, tables) && |row| == |tables| && i < |tables|
    requires NegatedOnce(c) && AllOn(s, c, i) && st.tableGroups == map[]
    ensures var gs := BranchFilters(MapBranches(FlattenOr(c), tables).value);
            TablesAccept(o, row, st.(tableGroups := st.tableGroups[tables[i].alias := gs]), tables)
            <==> TablesAccept(o, row, st, tables) && EvalPred(o, s, row, c) == True
  {
    OnTableReadsRight(s, row, c, i);
    GroupMeaning(o, s, row, c, tables, RowReader(RowOf(row[i])));
    GroupOnTable(o, row, st, BranchFilters(MapBranches(FlattenOr(c), tables).value), tables, i);
  }

  lemma LeftOverGroup(o: Oracle, s: Scope, row: JoinedRow, st: Filters, c: Pred, tables: seq<TableRef>, bare: Reader)
    requires MapBranches(FlattenOr(c), tables).Some? && NegatedOnce(c) && st.groups == []
    ensures var st' := st.(groups := BranchFilters(MapBranches(FlattenOr(c), tables).value));
            && TableFilters(st', tables) == TableFilters(st, tables)
            && (AllReadRight(s, row, bare, c) ==>
                  (LeftOversAccept(o, bare, st') <==> LeftOversAccept(o, bare, st) && EvalPred(o, s, row, c) == True))
  {
    if AllReadRight(s, row, bare, c) { GroupMeaning(o, s, row, c, tables, bare); }
  }

  /** Likewise for an OR group. */
  lemma PlaceGroupMeaning(o: Oracle, s: Scope, row: JoinedRow, st: Filters, c: Pred, tables: seq<TableRef>,
                          nullable: set<string>, bare: Reader)
    requires c.Or? && MapBranches(FlattenOr(c), tables).Some? && ScopeOf(s, tables) && |row| == |tables|
    requires NegatedOnce(c) && MovesTogether(s, c, tables, nullable)
    requires st.groups == [] && st.tableGroups == map[]
    ensures var st' := PlaceGroup(st, MapBranches(FlattenOr(c), tables).value, tables, nullable);
            var moved := MovesTo(c, tables, nullable).Some?;
            && (TablesAccept(o, row, st', tables)
                <==> TablesAccept(o, row, st, tables) && (moved ==> EvalPred(o, s, row, c) == True))
            && (moved ==> LeftOversAccept(o, bare, st') == LeftOversAccept(o, bare, st))
            && (!moved && AllReadRight(s, row, bare, c) ==>
                  (LeftOversAccept(o, bare, st') <==> LeftOversAccept(o, bare, st) && EvalPred(o, s, row, c) == True))
  {
    var bs := MapBranches(FlattenOr(c), tables).value;
    assert [] + BranchFilters(bs) == BranchFilters(bs);
    if MovesTo(c, tables, nullable).Some? {
      var i :| 0 <= i < |tables| && tables[i].alias == SoleAlias(bs).value;
      assert GroupsOn(st, tables[i].alias) == [];
      MovedGroup(o, s, row, st, c, tables, i);
    } else {
      LeftOverGroup(o, s, row, st, c, tables, bare);
    }
  }

  // ---- the whole clause ----

  /** The group, if any, is not placed yet. */
  predicate NoGroupYet(st: Progress) { !st.orPlaced ==> st.filters.groups == [] && st.filters.tableGroups == map[] }

  /** Mapping one more conjunct adds its truth. */
  lemma LastConjunct(o: Oracle, s: Scope, row: JoinedRow, c: Pred, before: Progress, tables: seq<TableRef>,
                     nullable: set<string>, bare: Reader)
    requires MapConjunct(c, before, tables, nullable).Ok? && ScopeOf(s, tables) && |row| == |tables|
    requires AllFound(s, c, |row|) && NegatedOnce(c) && (c.Or? ==> MovesTogether(s, c, tables, nullable))
    requires NoGroupYet(before)
    ensures var st, moved := MapConjunct(c, before, tables, nullable).value, MovesTo(c, tables, nullable).Some?;
            && NoGroupYet(st)
            && (TablesAccept(o, row, st.filters, tables)
                <==> TablesAccept(o, row, before.filters, tables) && (moved ==> EvalPred(o, s, row, c) == True))
            && (moved ==> LeftOversAccept(o, bare, st.filters) == LeftOversAccept(o, bare, before.filters))
            && (!moved && AllReadRight(s, row, bare, c) ==>
                  (LeftOversAccept(o, bare, st.filters)
                   <==> LeftOversAccept(o, bare, before.filters) && EvalPred(o, s, row, c) == True))
  {
    if c.Or? {
      PlaceGroupMeaning(o, s, row, before.filters, c, tables, nullable, bare);
    } else {
      PlaceFilterMeaning(o, s, row, before.filters, c, tables, nullable, bare);
    }
  }

  lemma TrueOfSnoc(o: Oracle, s: Scope, row: JoinedRow, cs: seq<Pred>, c: Pred, tables: seq<TableRef>,
                   nullable: set<string>, moved: bool)
    ensures TrueOf(o, s, row, cs + [c], tables, nullable, moved)
            <==> TrueOf(o, s, row, cs, tables, nullable, moved)
                 && (MovesTo(c, tables, nullable).Some? == moved ==> EvalPred(o, s, row, c) == True)
  {
    assert forall d :: d in cs + [c] <==> d in cs || d == c;
  }

  lemma {:induction false} ConjunctsMeaning(o: Oracle, s: Scope, row: JoinedRow, cs: seq<Pred>,
                                            tables: seq<TableRef>, nullable: set<string>, bare: Reader)
    requires MapConjuncts(cs, tables, nullable).Ok? && ScopeOf(s, tables) && |row| == |tables|
    requires forall c | c in cs :: AllFound(s, c, |row|) && NegatedOnce(c)
    requires forall c | c in cs && c.Or? :: MovesTogether(s, c, tables, nullable)
    ensures var st := MapConjuncts(cs, tables, nullable).value;
            && NoGroupYet(st)
            && (TablesAccept(o, row, st.filters, tables) <==> TrueOf(o, s, row, cs, tables, nullable, true))
            && (LeftOversRead(s, row, bare, cs, tables, nullable) ==>
                  (LeftOversAccept(o, bare, st.filters) <==> TrueOf(o, s, row, cs, tables, nullable, false)))
    decreases |cs|
  {
    if cs == [] {
      assert forall i | 0 <= i < |tables| :: TableFilters(NO_FILTERS, tables)[i] == NO_FILTER;
    } else {
      var n := |cs| - 1;
      assert cs == cs[..n] + [cs[n]] && forall d :: d in cs <==> d in cs[..n] || d == cs[n];
      ConjunctsMeaning(o, s, row, cs[..n], tables, nullable, bare);
      LastConjunct(o, s, row, cs[n], MapConjuncts(cs[..n], tables, nullable).value, tables, nullable, bare);
      TrueOfSnoc(o, s, row, cs[..n], cs[n], tables, nullable, true);
      TrueOfSnoc(o, s, row, cs[..n], cs[n], tables, nullable, false);
    }
  }

  /**
   * The meaning of an accepted WHERE clause under three-valued logic. A joined row that
   * satisfies it passes the filters moved to the tables. Where the left-over filters read
   * their columns right by bare name, it satisfies the clause exactly when it passes those
   * of the tables and the left-over ones.
   */
  lemma ClauseMeaning(o: Oracle, s: Scope, row: JoinedRow, p: Pred, tables: seq<TableRef>, nullable: set<string>,
                      bare: Reader)
    requires MapWhere(Some(p), tables, nullable).Ok? && ScopeOf(s, tables) && |row| == |tables|
    requires AllFound(s, p, |row|) && NegatedOnce(p) && GroupsTogether(s, p, tables, nullable)
    ensures var f := MapWhere(Some(p), tables, nullable).value;
            && (EvalPred(o, s, row, p) == True ==> TablesAccept(o, row, f, tables))
            && (LeftOversRead(s, row, bare, TopConjuncts(p), tables, nullable) ==>
                  (EvalPred(o, s, row, p) == True <==> TablesAccept(o, row, f, tables) && LeftOversAccept(o, bare, f)))
  {
    var cs := TopConjuncts(p);
    FlattenAndMeaning(o, s, row, p);
    FlattenAndParts(p);
    ConjunctsMeaning(o, s, row, cs, tables, nullable, bare);
    assert EvalPred(o, s, row, p) == True <==> forall c | c in cs :: EvalPred(o, s, row, c) == True;
    assert (forall c | c in cs :: EvalPred(o, s, row, c) == True)
           <==> TrueOf(o, s, row, cs, tables, nullable, true) && TrueOf(o, s, row, cs, tables, nullable, false);
  }
}
