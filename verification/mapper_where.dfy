/** Mapping a WHERE clause to table filters and leftover filters. */
module MapperWhere {
  import opened Prelude
  import opened SqlValues
  import opened SqlQuery
  import opened Draft

  const MAX_OR_GROUPS := 8

  datatype WhereResidue = MultipleOrGroups | OrGroupLimit | UnsupportedPredicate

  function UnwrapParen(p: Pred): Pred {
    match p case Paren(q) => UnwrapParen(q) case _ => p
  }

  function FlattenAnd(p: Pred): seq<Pred> {
    match p
    case Paren(q) => FlattenAnd(q)
    case And(a, b) => FlattenAnd(a) + FlattenAnd(b)
    case _ => [p]
  }

  function FlattenOr(p: Pred): seq<Pred> {
    match p
    case Paren(q) => FlattenOr(q)
    case Or(a, b) => FlattenOr(a) + FlattenOr(b)
    case _ => [p]
  }

  function LiteralText(x: Operand): Option<string> {
    if x.Literal? then Some(x.text) else None
  }

  function LiteralTexts(xs: seq<Operand>): Option<seq<string>> {
    if xs == [] then Some([])
    else
      match (LiteralText(xs[0]), LiteralTexts(xs[1..]))
      case (Some(t), Some(ts)) => Some([t] + ts)
      case _ => None
  }

  /** The comparison under any parentheses and at most one NOT. */
  function Core(p: Pred): Pred {
    var node := UnwrapParen(p);
    if node.Not? then UnwrapParen(node.inner) else node
  }

  predicate Negated(p: Pred) { UnwrapParen(p).Not? }

  /** Maps one comparison of a column with literals to a bare column and an operator. */
  function PredicateCondition(p: Pred): Option<Filter> {
    var negate := Negated(p);
    match Core(p)
    case Is(Column(ref), NullLiteral) => Some(Filter(ref.name, if negate then IsNotNull else IsNull))
    case In(Column(ref), items) =>
      var texts := LiteralTexts(items);
      if texts.None? then None else Some(Filter(ref.name, InList(negate, texts.value)))
    case BetweenP(Column(ref), Literal(low), Literal(high)) => Some(Filter(ref.name, Between(negate, low, high)))
    case LikeP(Column(ref), Literal(pattern), negated) => Some(Filter(ref.name, Like(negate || negated, pattern)))
    case Compare(op, Column(ref), Literal(value)) => if negate then None else Some(Filter(ref.name, Cmp(op, value)))
    case _ => None
  }

  function Qualifiers(refs: seq<Ref>): seq<string> {
    if refs == [] then []
    else (if refs[0].table.Some? then [refs[0].table.value] else []) + Qualifiers(refs[1..])
  }

  /** The one table a predicate is about, if that is known. */
  function PredicateAlias(p: Pred, tables: seq<TableRef>): Option<string> {
    var qs := Distinct(Qualifiers(Refs(p)));
    if |qs| == 0 then (if |tables| == 1 then Some(tables[0].alias) else None)
    else if |qs| == 1 then Some(qs[0])
    else None
  }

  /** A mapped comparison and the table it is about. */
  datatype Placed = Placed(alias: Option<string>, filter: Filter)

  function MapAtom(p: Pred, tables: seq<TableRef>): Option<Placed> {
    var condition := PredicateCondition(p);
    if condition.None? then None else Some(Placed(PredicateAlias(p, tables), condition.value))
  }

  function MapAtoms(ps: seq<Pred>, tables: seq<TableRef>): Option<seq<Placed>> {
    if ps == [] then Some([])
    else
      match (MapAtoms(ps[..|ps| - 1], tables), MapAtom(ps[|ps| - 1], tables))
      case (Some(xs), Some(x)) => Some(xs + [x])
      case _ => None
  }

  function MapBranches(branches: seq<Pred>, tables: seq<TableRef>): Option<seq<seq<Placed>>> {
    if branches == [] then Some([])
    else
      match (MapBranches(branches[..|branches| - 1], tables), MapAtoms(FlattenAnd(branches[|branches| - 1]), tables))
      case (Some(xs), Some(x)) => Some(xs + [x])
      case _ => None
  }

  function FiltersOf(ps: seq<Placed>): (r: seq<Filter>)
    ensures |r| == |ps| && forall i | 0 <= i < |r| :: r[i] == ps[i].filter
  {
    seq(|ps|, i requires 0 <= i < |ps| => ps[i].filter)
  }

  function BranchFilters(bs: seq<seq<Placed>>): (r: seq<seq<Filter>>)
    ensures |r| == |bs| && forall i | 0 <= i < |r| :: r[i] == FiltersOf(bs[i])
  {
    seq(|bs|, i requires 0 <= i < |bs| => FiltersOf(bs[i]))
  }

  /** The known aliases of a branch, in order, repeats included. */
  function SeenIn(ps: seq<Placed>): seq<string> {
    if ps == [] then []
    else SeenIn(ps[..|ps| - 1]) + (if ps[|ps| - 1].alias.Some? then [ps[|ps| - 1].alias.value] else [])
  }

  function Seen(bs: seq<seq<Placed>>): seq<string> {
    if bs == [] then [] else Seen(bs[..|bs| - 1]) + SeenIn(bs[|bs| - 1])
  }

  const NO_FILTERS := Filters([], [], map[], map[])

  /** May a filter on this alias move to the table? */
  predicate Pushable(alias: string, tables: seq<TableRef>, nullable: set<string>) {
    alias in Aliases(tables) && alias !in nullable
  }

  function SoleAlias(bs: seq<seq<Placed>>): Option<string> {
    var seen := Distinct(Seen(bs));
    if |seen| == 1 then Some(seen[0]) else None
  }

  function PlaceGroup(st: Filters, bs: seq<seq<Placed>>, tables: seq<TableRef>, nullable: set<string>): Filters {
    var sole := SoleAlias(bs);
    if sole.Some? && Pushable(sole.value, tables, nullable) then
      st.(tableGroups := st.tableGroups[sole.value := GroupsOn(st, sole.value) + BranchFilters(bs)])
    else
      st.(groups := st.groups + BranchFilters(bs))
  }

  function PlaceFilter(st: Filters, x: Placed, tables: seq<TableRef>, nullable: set<string>): Filters {
    if x.alias.Some? && Pushable(x.alias.value, tables, nullable) then
      st.(tableFilters := st.tableFilters[x.alias.value := FiltersOn(st, x.alias.value) + [x.filter]])
    else
      st.(where := st.where + [x.filter])
  }

  /** The filters so far, and whether the one OR group has been used. */
  datatype Progress = Progress(filters: Filters, orPlaced: bool)

  function MapConjunct(c: Pred, st: Progress, tables: seq<TableRef>, nullable: set<string>): Result<Progress,
                       WhereResidue> {
    if c.Or? then
      if st.orPlaced then Err(MultipleOrGroups)
      else if |FlattenOr(c)| > MAX_OR_GROUPS then Err(OrGroupLimit)
      else
        var bs := MapBranches(FlattenOr(c), tables);
        if bs.None? then Err(UnsupportedPredicate)
        else Ok(Progress(PlaceGroup(st.filters, bs.value, tables, nullable), true))
    else
      var x := MapAtom(c, tables);
      if x.None? then Err(UnsupportedPredicate)
      else Ok(st.(filters := PlaceFilter(st.filters, x.value, tables, nullable)))
  }

  function MapConjuncts(cs: seq<Pred>, tables: seq<TableRef>, nullable: set<string>): Result<Progress, WhereResidue> {
    if cs == [] then Ok(Progress(NO_FILTERS, false))
    else
      var st := MapConjuncts(cs[..|cs| - 1], tables, nullable);
      if st.Err? then st else MapConjunct(cs[|cs| - 1], st.value, tables, nullable)
  }

  function TopConjuncts(p: Pred): seq<Pred> { if p.Or? then [p] else FlattenAnd(p) }

  function MapWhere(where: Option<Pred>, tables: seq<TableRef>, nullable: set<string>): Result<Filters, WhereResidue> {
    if where.None? then Ok(NO_FILTERS)
    else
      var st := MapConjuncts(TopConjuncts(where.value), tables, nullable);
      if st.Err? then Err(st.error) else Ok(st.value.filters)
  }

  // ---- which clauses are accepted, by their syntax alone ----

  /** A comparison of a column with literals; after a NOT only the ones that have a negated operator. */
  predicate IsComparison(p: Pred, negated: bool) {
    match p
    case Is(Column(_), NullLiteral) => true
    case In(Column(_), items) => forall x | x in items :: x.Literal?
    case BetweenP(Column(_), Literal(_), Literal(_)) => true
    case LikeP(Column(_), Literal(_), _) => true
    case Compare(_, Column(_), Literal(_)) => !negated
    case _ => false
  }

  predicate SupportedAfterNot(p: Pred) {
    match p case Paren(q) => SupportedAfterNot(q) case _ => IsComparison(p, true)
  }

  /** A comparison under parentheses and at most one NOT. */
  predicate Supported(p: Pred) {
    match p
    case Paren(q) => Supported(q)
    case Not(q) => SupportedAfterNot(q)
    case _ => IsComparison(p, false)
  }

  /** Every ANDed part is supported. */
  predicate PartsSupported(p: Pred) {
    match p
    case Paren(q) => PartsSupported(q)
    case And(a, b) => PartsSupported(a) && PartsSupported(b)
    case _ => Supported(p)
  }

  /** In every ORed branch, every ANDed part is supported. */
  predicate BranchesSupported(p: Pred) {
    match p
    case Paren(q) => BranchesSupported(q)
    case Or(a, b) => BranchesSupported(a) && BranchesSupported(b)
    case _ => PartsSupported(p)
  }

  /** How many branches an OR has, nested ones included. */
  function Width(p: Pred): nat {
    match p case Paren(q) => Width(q) case Or(a, b) => Width(a) + Width(b) case _ => 1
  }

  /** How many of the top conjuncts are ORs. */
  function OrCount(p: Pred): nat {
    match p
    case Paren(q) => OrCount(q)
    case And(a, b) => OrCount(a) + OrCount(b)
    case Or(_, _) => 1
    case _ => 0
  }

  /** Each top conjunct is supported, or an OR of at most eight supported branches. */
  predicate ConjunctsSupported(p: Pred) {
    match p
    case Paren(q) => ConjunctsSupported(q)
    case And(a, b) => ConjunctsSupported(a) && ConjunctsSupported(b)
    case Or(_, _) => Width(p) <= 8 && BranchesSupported(p)
    case _ => Supported(p)
  }

  /** At most one top conjunct is an OR, and all are supported. */
  predicate ClauseSupported(p: Pred) { OrCount(p) <= 1 && ConjunctsSupported(p) }

  /** What the first top conjunct that is refused is refused for, and whether there has been an OR. */
  function FirstRefusal(p: Pred, afterOr: bool): (Option<WhereResidue>, bool) {
    match p
    case Paren(q) => FirstRefusal(q, afterOr)
    case And(a, b) =>
      var r := FirstRefusal(a, afterOr);
      if r.0.Some? then r else FirstRefusal(b, r.1)
    case Or(_, _) =>
      (if afterOr then Some(MultipleOrGroups)
       else if Width(p) > 8 then Some(OrGroupLimit)
       else if BranchesSupported(p) then None
       else Some(UnsupportedPredicate), true)
    case _ => (if Supported(p) then None else Some(UnsupportedPredicate), afterOr)
  }

  /** Nothing is refused exactly when the clause is supported. */
  lemma {:induction false} NothingRefused(p: Pred, afterOr: bool)
    ensures FirstRefusal(p, afterOr).0.None? <==>
              ConjunctsSupported(p) && OrCount(p) <= if afterOr then 0 else 1
    ensures FirstRefusal(p, afterOr).0.None? ==> (FirstRefusal(p, afterOr).1 <==> afterOr || OrCount(p) > 0)
  {
    match p
    case Paren(q) => NothingRefused(q, afterOr);
    case And(a, b) =>
      NothingRefused(a, afterOr);
      NothingRefused(b, FirstRefusal(a, afterOr).1);
    case _ =>
  }

  lemma {:induction false} AllLiterals(xs: seq<Operand>)
    ensures LiteralTexts(xs).Some? <==> forall x | x in xs :: x.Literal?
  {
    if xs != [] {
      AllLiterals(xs[1..]);
      assert xs == [xs[0]] + xs[1..];
    }
  }

  lemma {:induction false} UnwrapSupported(p: Pred)
    ensures !UnwrapParen(p).Paren? && (SupportedAfterNot(p) <==> IsComparison(UnwrapParen(p), true))
    ensures Supported(p) <==> Supported(UnwrapParen(p))
  {
    if p.Paren? { UnwrapSupported(p.inner); }
  }

  lemma SupportedExactly(p: Pred)
    ensures PredicateCondition(p).Some? <==> Supported(p)
  {
    var node := UnwrapParen(p);
    UnwrapSupported(p);
    if node.Not? { UnwrapSupported(node.inner); }
    if Core(p).In? { AllLiterals(Core(p).items); }
  }

  lemma {:induction false} AtomsSupported(ps: seq<Pred>, tables: seq<TableRef>)
    ensures MapAtoms(ps, tables).Some? <==> forall p | p in ps :: Supported(p)
    decreases |ps|
  {
    if ps != [] {
      var n := |ps| - 1;
      assert ps == ps[..n] + [ps[n]];
      AtomsSupported(ps[..n], tables);
      SupportedExactly(ps[n]);
    }
  }

  lemma {:induction false} PartsAreSupported(p: Pred)
    ensures PartsSupported(p) <==> forall x | x in FlattenAnd(p) :: Supported(x)
  {
    match p
    case Paren(q) => PartsAreSupported(q);
    case And(a, b) =>
      PartsAreSupported(a);
      PartsAreSupported(b);
    case _ => assert p in FlattenAnd(p);
  }

  lemma {:induction false} BranchesMapped(bs: seq<Pred>, tables: seq<TableRef>)
    ensures MapBranches(bs, tables).Some? <==> forall b | b in bs :: PartsSupported(b)
    decreases |bs|
  {
    if bs != [] {
      var n := |bs| - 1;
      assert bs == bs[..n] + [bs[n]];
      BranchesMapped(bs[..n], tables);
      AtomsSupported(FlattenAnd(bs[n]), tables);
      PartsAreSupported(bs[n]);
    }
  }

  lemma {:induction false} BranchesAreSupported(p: Pred)
    ensures |FlattenOr(p)| == Width(p)
    ensures BranchesSupported(p) <==> forall b | b in FlattenOr(p) :: PartsSupported(b)
  {
    match p
    case Paren(q) => BranchesAreSupported(q);
    case Or(a, b) =>
      BranchesAreSupported(a);
      BranchesAreSupported(b);
    case _ => assert p in FlattenOr(p);
  }

  /** One conjunct is mapped unless it is refused. */
  lemma ConjunctRefused(c: Pred, st: Progress, tables: seq<TableRef>, nullable: set<string>)
    requires !c.Paren? && !c.And?
    ensures var r, x := FirstRefusal(c, st.orPlaced), MapConjunct(c, st, tables, nullable);
            if x.Ok? then r == (None, x.value.orPlaced) else r.0 == Some(x.error)
  {
    if c.Or? {
      BranchesAreSupported(c);
      BranchesMapped(FlattenOr(c), tables);
    } else {
      SupportedExactly(c);
    }
  }

  /** The first refusal along a list of conjuncts. */
  function RefusalIn(cs: seq<Pred>, afterOr: bool): (Option<WhereResidue>, bool) {
    if cs == [] then (None, afterOr)
    else
      var r := FirstRefusal(cs[0], afterOr);
      if r.0.Some? then r else RefusalIn(cs[1..], r.1)
  }

  lemma {:induction false} RefusalConcat(a: seq<Pred>, b: seq<Pred>, afterOr: bool)
    ensures var r := RefusalIn(a, afterOr);
            RefusalIn(a + b, afterOr) == if r.0.Some? then r else RefusalIn(b, r.1)
  {
    if a == [] {
      assert a + b == b;
    } else {
      assert (a + b)[1..] == a[1..] + b;
      RefusalConcat(a[1..], b, FirstRefusal(a[0], afterOr).1);
    }
  }

  lemma {:induction false} FlattenedRefusal(p: Pred, afterOr: bool)
    ensures RefusalIn(FlattenAnd(p), afterOr) == FirstRefusal(p, afterOr)
    ensures forall c | c in FlattenAnd(p) :: !c.Paren? && !c.And?
  {
    match p
    case Paren(q) => FlattenedRefusal(q, afterOr);
    case And(a, b) =>
      FlattenedRefusal(a, afterOr);
      FlattenedRefusal(b, FirstRefusal(a, afterOr).1);
      RefusalConcat(FlattenAnd(a), FlattenAnd(b), afterOr);
    case _ =>
  }

  lemma {:induction false} ConjunctsRefused(cs: seq<Pred>, tables: seq<TableRef>, nullable: set<string>)
    requires forall c | c in cs :: !c.Paren? && !c.And?
    ensures var r, x := RefusalIn(cs, false), MapConjuncts(cs, tables, nullable);
            if x.Ok? then r == (None, x.value.orPlaced) else r.0 == Some(x.error)
    decreases |cs|
  {
    if cs != [] {
      var n := |cs| - 1;
      assert cs == cs[..n] + [cs[n]];
      ConjunctsRefused(cs[..n], tables, nullable);
      RefusalConcat(cs[..n], [cs[n]], false);
      var st := MapConjuncts(cs[..n], tables, nullable);
      if st.Ok? { ConjunctRefused(cs[n], st.value, tables, nullable); }
    }
  }

  /**
   * A clause is mapped exactly when it is supported, and otherwise refused for its first
   * conjunct that is not.
   */
  lemma MappedExactly(p: Pred, tables: seq<TableRef>, nullable: set<string>)
    ensures MapWhere(Some(p), tables, nullable).Ok? <==> ClauseSupported(p)
    ensures MapWhere(Some(p), tables, nullable).Err? ==>
              Some(MapWhere(Some(p), tables, nullable).error) == FirstRefusal(p, false).0
  {
    NothingRefused(p, false);
    FlattenedRefusal(p, false);
    ConjunctsRefused(TopConjuncts(p), tables, nullable);
  }

  // ---- the mapper's own loops ----

  method MapBranchAtoms(branch: Pred, tables: seq<TableRef>) returns (r: Option<seq<Placed>>)
    ensures r == MapAtoms(FlattenAnd(branch), tables)
  {
    var atoms := FlattenAnd(branch);
    var placed: seq<Placed> := [];
    for j := 0 to |atoms|
      invariant MapAtoms(atoms[..j], tables) == Some(placed)
    {
      var x := MapAtom(atoms[j], tables);
      assert atoms[..j + 1][..j] == atoms[..j];
      if x.None? {
        FailsLater(atoms, j + 1, tables);
        return None;
      }
      placed := placed + [x.value];
    }
    assert atoms[..|atoms|] == atoms;
    r := Some(placed);
  }

  lemma {:induction false} FailsLater(atoms: seq<Pred>, j: nat, tables: seq<TableRef>)
    requires j <= |atoms| && MapAtoms(atoms[..j], tables).None?
    ensures MapAtoms(atoms, tables).None?
    decreases |atoms|
  {
    if j < |atoms| {
      assert atoms[..|atoms| - 1][..j] == atoms[..j];
      FailsLater(atoms[..|atoms| - 1], j, tables);
    } else {
      assert atoms[..j] == atoms;
    }
  }

  lemma {:induction false} BranchFailsLater(branches: seq<Pred>, j: nat, tables: seq<TableRef>)
    requires j <= |branches| && MapBranches(branches[..j], tables).None?
    ensures MapBranches(branches, tables).None?
    decreases |branches|
  {
    if j < |branches| {
      assert branches[..|branches| - 1][..j] == branches[..j];
      BranchFailsLater(branches[..|branches| - 1], j, tables);
    } else {
      assert branches[..j] == branches;
    }
  }

  lemma {:induction false} ConjunctFailsLater(cs: seq<Pred>, j: nat, tables: seq<TableRef>, nullable: set<string>)
    requires j <= |cs| && MapConjuncts(cs[..j], tables, nullable).Err?
    ensures MapConjuncts(cs, tables, nullable) == MapConjuncts(cs[..j], tables, nullable)
    decreases |cs|
  {
    if j < |cs| {
      assert cs[..|cs| - 1][..j] == cs[..j];
      ConjunctFailsLater(cs[..|cs| - 1], j, tables, nullable);
    } else {
      assert cs[..j] == cs;
    }
  }

  /** The loop over the top conjuncts, with a nested pass over the one OR group. */
  method MapTopConjuncts(top: seq<Pred>, tables: seq<TableRef>, nullable: set<string>)
    returns (r: Result<Filters, WhereResidue>)
    ensures var x := MapConjuncts(top, tables, nullable); r == if x.Ok? then Ok(x.value.filters) else Err(x.error)
  {
    var st := NO_FILTERS;
    var orPlaced := false;
    for i := 0 to |top|
      invariant MapConjuncts(top[..i], tables, nullable) == Ok(Progress(st, orPlaced))
    {
      var c := top[i];
      assert top[..i + 1][..i] == top[..i];
      assert MapConjuncts(top[..i + 1], tables, nullable) == MapConjunct(c, Progress(st, orPlaced), tables, nullable);
      if c.Or? {
        if orPlaced {
          ConjunctFailsLater(top, i + 1, tables, nullable);
          return Err(MultipleOrGroups);
        }
        var branches := FlattenOr(c);
        if |branches| > MAX_OR_GROUPS {
          ConjunctFailsLater(top, i + 1, tables, nullable);
          return Err(OrGroupLimit);
        }
        var mapped: seq<seq<Placed>> := [];
        for j := 0 to |branches|
          invariant MapBranches(branches[..j], tables) == Some(mapped)
        {
          var atoms := MapBranchAtoms(branches[j], tables);
          assert branches[..j + 1][..j] == branches[..j];
          if atoms.None? {
            BranchFailsLater(branches, j + 1, tables);
            ConjunctFailsLater(top, i + 1, tables, nullable);
            return Err(UnsupportedPredicate);
          }
          mapped := mapped + [atoms.value];
        }
        assert branches[..|branches|] == branches;
        st := PlaceGroup(st, mapped, tables, nullable);
        orPlaced := true;
      } else {
        var x := MapAtom(c, tables);
        if x.None? {
          ConjunctFailsLater(top, i + 1, tables, nullable);
          return Err(UnsupportedPredicate);
        }
        st := PlaceFilter(st, x.value, tables, nullable);
      }
    }
    assert top[..|top|] == top;
    r := Ok(st);
  }

  /**
   * Maps exactly the clauses whose top conjuncts are supported comparisons and at most one
   * OR group; any other one is refused for its first conjunct that does not fit.
   */
  method MapWhereClause(where: Option<Pred>, tables: seq<TableRef>, nullable: set<string>)
    returns (r: Result<Filters, WhereResidue>)
    ensures r == MapWhere(where, tables, nullable)
    ensures r.Ok? <==> where.None? || ClauseSupported(where.value)
    ensures r.Err? ==> where.Some? && Some(r.error) == FirstRefusal(where.value, false).0
  {
    if where.None? { return Ok(NO_FILTERS); }
    r := MapTopConjuncts(TopConjuncts(where.value), tables, nullable);
    MappedExactly(where.value, tables, nullable);
  }
}
