/** Mapping FROM and JOIN to the tables, joins and nullable aliases of a draft. */
module MapperFrom {
  import opened Prelude
  import opened SqlQuery
  import opened Joins
  import opened Draft
  import opened MapperWhere

  // ---- default aliases ----

  /** The k-th candidate: the base name itself, then base_1, base_2, ... */
  function Candidate(base: string, k: nat): string {
    if k == 0 then base else base + "_" + Decimal(k)
  }

  lemma CandidateInjective(base: string, j: nat, k: nat)
    requires Candidate(base, j) == Candidate(base, k)
    ensures j == k
  {
    if j != 0 && k != 0 {
      assert Candidate(base, j)[|base| + 1..] == Decimal(j);
      assert Candidate(base, k)[|base| + 1..] == Decimal(k);
      DecimalInjective(j, k);
    }
  }

  /** The taken names that are candidates from the k-th on. */
  ghost function TakenFrom(base: string, k: nat, existing: set<string>): set<string> {
    set a | a in existing && exists j: nat :: j >= k && a == Candidate(base, j)
  }

  lemma TakenShrinks(base: string, k: nat, existing: set<string>)
    requires Candidate(base, k) in existing
    ensures TakenFrom(base, k + 1, existing) < TakenFrom(base, k, existing)
  {
    var c := Candidate(base, k);
    assert c in TakenFrom(base, k, existing);
    if c in TakenFrom(base, k + 1, existing) {
      var j: nat :| j >= k + 1 && c == Candidate(base, j);
      CandidateInjective(base, j, k);
    }
  }

  /** The first candidate from the k-th on that is not taken. */
  function FirstFree(base: string, k: nat, existing: set<string>): (a: string)
    ensures a !in existing
    ensures exists j: nat :: j >= k && a == Candidate(base, j) && forall i: nat | k <= i < j :: Candidate(base, i) in existing
    decreases TakenFrom(base, k, existing)
  {
    if Candidate(base, k) !in existing then Candidate(base, k)
    else
      TakenShrinks(base, k, existing);
      var a := FirstFree(base, k + 1, existing);
      assert exists j: nat :: j >= k && a == Candidate(base, j) && forall i: nat | k <= i < j :: Candidate(base, i) in existing by {
        var j: nat :| j >= k + 1 && a == Candidate(base, j) && forall i: nat | k + 1 <= i < j :: Candidate(base, i) in existing;
        assert forall i: nat | k <= i < j :: Candidate(base, i) in existing;
      }
      a
  }

  /** The part of a qualified name after its last dot. */
  function LastSegment(fqn: string): string {
    if fqn == [] then []
    else if fqn[|fqn| - 1] == '.' then []
    else LastSegment(fqn[..|fqn| - 1]) + [fqn[|fqn| - 1]]
  }

  /** It is what follows the last dot, or all of a name without one. */
  lemma {:induction false} LastSegmentMeaning(fqn: string)
    ensures '.' !in LastSegment(fqn) && |LastSegment(fqn)| <= |fqn|
    ensures var k := |fqn| - |LastSegment(fqn)|;
            fqn[k..] == LastSegment(fqn) && (k > 0 ==> fqn[k - 1] == '.')
    decreases |fqn|
  {
    if fqn != [] && fqn[|fqn| - 1] != '.' {
      var n := |fqn| - 1;
      LastSegmentMeaning(fqn[..n]);
      var k := n - |LastSegment(fqn[..n])|;
      assert fqn[k..] == fqn[..n][k..] + [fqn[n]];
    }
  }

  /** The name itself, or the name with the least number behind it that makes it free. */
  ghost predicate IsFirstFree(base: string, existing: set<string>, alias: string) {
    && alias !in existing
    && (alias == base
        || (base in existing
            && exists i: nat :: i >= 1 && alias == base + "_" + Decimal(i)
                                && forall j: nat | 1 <= j < i :: base + "_" + Decimal(j) in existing))
  }

  lemma FirstFreeMeaning(base: string, existing: set<string>)
    ensures IsFirstFree(base, existing, FirstFree(base, 0, existing))
  {
    var a := FirstFree(base, 0, existing);
    var i: nat :| a == Candidate(base, i) && forall j: nat | j < i :: Candidate(base, j) in existing;
    if i > 0 {
      assert Candidate(base, 0) in existing;
      forall j: nat | 1 <= j < i ensures base + "_" + Decimal(j) in existing { assert Candidate(base, j) in existing; }
    }
  }

  /** Numbered names are tried until one is free; the search ends because the taken ones run out. */
  method DefaultAlias(fqn: string, existing: set<string>) returns (alias: string)
    ensures alias == FirstFree(LastSegment(fqn), 0, existing)
    ensures IsFirstFree(LastSegment(fqn), existing, alias)
  {
    FirstFreeMeaning(LastSegment(fqn), existing);
    var base := LastSegment(fqn);
    alias := base;
    var i := 0;
    while alias in existing
      invariant alias == Candidate(base, i)
      invariant FirstFree(base, 0, existing) == FirstFree(base, i, existing)
      decreases TakenFrom(base, i, existing)
    {
      TakenShrinks(base, i, existing);
      i := i + 1;
      alias := base + "_" + Decimal(i);
    }
  }

  // ---- join conditions and kinds ----

  datatype Side = NoSide | LEFT | RIGHT | FULL

  datatype KindWord = NoKind | INNER | OUTER | CROSS | SEMI | ANTI

  /** The lookup of a join's spelling, with inner as the answer for anything not listed. */
  function JoinType(side: Side, kind: KindWord): Kind {
    match (side, kind)
    case (NoSide, NoKind) => Inner
    case (LEFT, NoKind) => LeftOuter
    case (RIGHT, NoKind) => RightOuter
    case (FULL, OUTER) => FullOuter
    case (FULL, NoKind) => FullOuter
    case (NoSide, CROSS) => Cross
    case (NoSide, SEMI) => LeftSemi
    case (LEFT, SEMI) => LeftSemi
    case (NoSide, ANTI) => LeftAnti
    case (LEFT, ANTI) => LeftAnti
    case _ => Inner
  }

  /** What SQL means by a join's spelling; None where SQL gives it no meaning. */
  function SqlKind(side: Side, kind: KindWord): Option<Kind> {
    match (side, kind)
    case (NoSide, NoKind) => Some(Inner)
    case (NoSide, INNER) => Some(Inner)
    case (LEFT, NoKind) => Some(LeftOuter)
    case (LEFT, OUTER) => Some(LeftOuter)
    case (RIGHT, NoKind) => Some(RightOuter)
    case (RIGHT, OUTER) => Some(RightOuter)
    case (FULL, NoKind) => Some(FullOuter)
    case (FULL, OUTER) => Some(FullOuter)
    case (NoSide, CROSS) => Some(Cross)
    case (NoSide, SEMI) => Some(LeftSemi)
    case (LEFT, SEMI) => Some(LeftSemi)
    case (NoSide, ANTI) => Some(LeftAnti)
    case (LEFT, ANTI) => Some(LeftAnti)
    case _ => None
  }

  /** The lookup keeps the join's meaning unless LEFT or RIGHT is followed by the word OUTER. */
  lemma JoinTypeMeaning(side: Side, kind: KindWord)
    requires SqlKind(side, kind).Some?
    ensures JoinType(side, kind) == SqlKind(side, kind).value <==> !(kind.OUTER? && (side.LEFT? || side.RIGHT?))
  {
  }

  /** The equated columns of an AND of equalities between the two tables. */
  function EquiKeys(cs: seq<Pred>, left: string, right: string): Option<(seq<string>, seq<string>)> {
    if cs == [] then Some(([], []))
    else
      var n := |cs| - 1;
      match (EquiKeys(cs[..n], left, right), cs[n])
      case (Some((ls, rs)), Compare(EQ, Column(a), Column(b))) =>
        if {a.table, b.table} != {Some(left), Some(right)} then None
        else if a.table == Some(left) then Some((ls + [a.name], rs + [b.name]))
        else Some((ls + [b.name], rs + [a.name]))
      case _ => None
  }

  function MapEquiJoin(on: Option<Pred>, left: string, right: string): Option<(seq<string>, seq<string>)> {
    if on.None? then None
    else
      var keys := EquiKeys(FlattenAnd(on.value), left, right);
      if keys.Some? && keys.value.0 == [] then None else keys
  }

  /** An equality between a column of the one table and a column of the other. */
  predicate IsKeyEquality(c: Pred, left: string, right: string) {
    match c
    case Compare(EQ, Column(a), Column(b)) =>
      (a.table == Some(left) && b.table == Some(right)) || (a.table == Some(right) && b.table == Some(left))
    case _ => false
  }

  /** An AND of such equalities, in any parentheses. */
  predicate IsEquiJoin(p: Pred, left: string, right: string) {
    match p
    case Paren(q) => IsEquiJoin(q, left, right)
    case And(a, b) => IsEquiJoin(a, left, right) && IsEquiJoin(b, left, right)
    case _ => IsKeyEquality(p, left, right)
  }

  lemma BothSides(x: Option<string>, y: Option<string>, left: string, right: string)
    ensures {x, y} == {Some(left), Some(right)}
            <==> (x == Some(left) && y == Some(right)) || (x == Some(right) && y == Some(left))
  {
    assert x in {x, y} && y in {x, y};
    assert Some(left) in {Some(left), Some(right)} && Some(right) in {Some(left), Some(right)};
  }

  lemma OneMoreKey(cs: seq<Pred>, c: Pred, left: string, right: string)
    ensures var before, after := EquiKeys(cs, left, right), EquiKeys(cs + [c], left, right);
            && (after.Some? <==> before.Some? && IsKeyEquality(c, left, right))
            && (after.Some? ==> |after.value.0| == |before.value.0| + 1)
  {
    assert (cs + [c])[..|cs|] == cs;
    if c.Compare? && c.subject.Column? && c.other.Column? {
      BothSides(c.subject.ref.table, c.other.ref.table, left, right);
    }
  }

  lemma {:induction false} EquiKeysExactly(cs: seq<Pred>, left: string, right: string)
    ensures EquiKeys(cs, left, right).Some? <==> forall c | c in cs :: IsKeyEquality(c, left, right)
    ensures EquiKeys(cs, left, right).Some? ==> |EquiKeys(cs, left, right).value.0| == |cs|
    decreases |cs|
  {
    if cs != [] {
      var n := |cs| - 1;
      assert cs == cs[..n] + [cs[n]];
      EquiKeysExactly(cs[..n], left, right);
      OneMoreKey(cs[..n], cs[n], left, right);
    }
  }

  lemma {:induction false} EquiJoinParts(p: Pred, left: string, right: string)
    ensures FlattenAnd(p) != []
    ensures IsEquiJoin(p, left, right) <==> forall c | c in FlattenAnd(p) :: IsKeyEquality(c, left, right)
  {
    match p
    case Paren(q) => EquiJoinParts(q, left, right);
    case And(a, b) =>
      EquiJoinParts(a, left, right);
      EquiJoinParts(b, left, right);
    case _ => assert p in FlattenAnd(p);
  }

  /** Keys are found exactly for an ON that is an AND of key equalities. */
  lemma EquiJoinExactly(on: Option<Pred>, left: string, right: string)
    ensures MapEquiJoin(on, left, right).Some? <==> on.Some? && IsEquiJoin(on.value, left, right)
  {
    if on.Some? {
      EquiKeysExactly(FlattenAnd(on.value), left, right);
      EquiJoinParts(on.value, left, right);
    }
  }

  lemma {:induction false} EquiKeysFailLater(cs: seq<Pred>, j: nat, left: string, right: string)
    requires j <= |cs| && EquiKeys(cs[..j], left, right).None?
    ensures EquiKeys(cs, left, right).None?
    decreases |cs|
  {
    if j < |cs| {
      assert cs[..|cs| - 1][..j] == cs[..j];
      EquiKeysFailLater(cs[..|cs| - 1], j, left, right);
    } else {
      assert cs[..j] == cs;
    }
  }

  method MapEquiJoinCondition(on: Option<Pred>, left: string, right: string)
    returns (r: Option<(seq<string>, seq<string>)>)
    ensures r == MapEquiJoin(on, left, right)
    ensures r.Some? <==> on.Some? && IsEquiJoin(on.value, left, right)
  {
    EquiJoinExactly(on, left, right);
    if on.None? { return None; }
    var cs := FlattenAnd(on.value);
    var keysLeft: seq<string>, keysRight: seq<string> := [], [];
    for i := 0 to |cs|
      invariant EquiKeys(cs[..i], left, right) == Some((keysLeft, keysRight))
    {
      assert cs[..i + 1][..i] == cs[..i];
      var c := cs[i];
      if !(c.Compare? && c.op.EQ? && c.subject.Column? && c.other.Column?) ||
         {c.subject.ref.table, c.other.ref.table} != {Some(left), Some(right)} {
        EquiKeysFailLater(cs, i + 1, left, right);
        return None;
      }
      var a, b := c.subject.ref, c.other.ref;
      if a.table == Some(left) {
        keysLeft, keysRight := keysLeft + [a.name], keysRight + [b.name];
      } else {
        keysLeft, keysRight := keysLeft + [b.name], keysRight + [a.name];
      }
    }
    assert cs[..|cs|] == cs;
    if keysLeft == [] { return None; }
    r := Some((keysLeft, keysRight));
  }

  // ---- FROM and JOIN ----

  /** A FROM item: a plain table with its optional alias, or anything else. */
  datatype FromItem = Table(fqn: string, alias: Option<string>) | OtherShape

  datatype JoinNode = JoinNode(right: FromItem, side: Side, kind: KindWord, using: seq<string>, on: Option<Pred>)

  datatype FromResidue = UnsupportedFromShape | UnsupportedJoinShape | NonEquiJoin

  datatype Mapped = Mapped(tables: seq<TableRef>, joins: seq<DraftJoin>, nullable: set<string>)

  /** A dictionary write: an entry under a known alias is replaced in place. */
  function Put(tables: seq<TableRef>, t: TableRef): (r: seq<TableRef>) {
    if tables == [] then [t]
    else if tables[0].alias == t.alias then [t] + tables[1..]
    else [tables[0]] + Put(tables[1..], t)
  }

  function AliasSet(tables: seq<TableRef>): set<string> { set t | t in tables :: t.alias }

  function AliasOf(item: FromItem, tables: seq<TableRef>): string
    requires item.Table?
  {
    if item.alias.Some? && item.alias.value != [] then item.alias.value
    else FirstFree(LastSegment(item.fqn), 0, AliasSet(tables))
  }

  /** The aliases one join makes nullable: only the base alias stands for the left side. */
  function NullableFrom(kind: Kind, base: string, right: string): set<string> {
    match kind
    case LeftOuter => {right}
    case RightOuter => {base}
    case FullOuter => {base, right}
    case _ => {}
  }

  function MapJoin(m: Mapped, base: string, j: JoinNode): Result<Mapped, FromResidue> {
    if j.right.OtherShape? then Err(UnsupportedJoinShape)
    else
      var right := AliasOf(j.right, m.tables);
      var tables := Put(m.tables, TableRef(j.right.fqn, right));
      var kind := JoinType(j.side, j.kind);
      var nullable := m.nullable + NullableFrom(kind, base, right);
      if kind.Cross? then
        Ok(Mapped(tables, m.joins + [DraftJoin(base, ["_cross"], right, ["_cross"], kind)], nullable))
      else if j.using != [] then
        Ok(Mapped(tables, m.joins + [DraftJoin(base, j.using, right, j.using, kind)], nullable))
      else
        match MapEquiJoin(j.on, base, right)
        case None => Err(NonEquiJoin)
        case Some((kl, kr)) => Ok(Mapped(tables, m.joins + [DraftJoin(base, kl, right, kr, kind)], nullable))
  }

  function StartFrom(base: FromItem): Mapped
    requires base.Table?
  {
    Mapped([TableRef(base.fqn, AliasOf(base, []))], [], {})
  }

  function MapJoins(base: FromItem, joins: seq<JoinNode>): Result<Mapped, FromResidue>
    requires base.Table?
  {
    if joins == [] then Ok(StartFrom(base))
    else
      var m := MapJoins(base, joins[..|joins| - 1]);
      if m.Err? then m else MapJoin(m.value, AliasOf(base, []), joins[|joins| - 1])
  }

  function MapFrom(base: FromItem, joins: seq<JoinNode>): Result<Mapped, FromResidue> {
    if base.OtherShape? then Err(UnsupportedFromShape) else MapJoins(base, joins)
  }

  lemma {:induction false} JoinFailsLater(base: FromItem, joins: seq<JoinNode>, i: nat)
    requires base.Table? && i <= |joins| && MapJoins(base, joins[..i]).Err?
    ensures MapJoins(base, joins) == MapJoins(base, joins[..i])
    decreases |joins|
  {
    if i < |joins| {
      assert joins[..|joins| - 1][..i] == joins[..i];
      JoinFailsLater(base, joins[..|joins| - 1], i);
    } else {
      assert joins[..i] == joins;
    }
  }

  // ---- which FROM clauses are accepted ----

  /** The aliases of the base and the joined tables: the given one, else the first free name after the earlier ones. */
  function TableAliases(base: FromItem, joins: seq<JoinNode>): (r: seq<string>)
    ensures |r| == |joins| + 1
  {
    if joins == [] then [NextAlias(base, [])]
    else
      var earlier := TableAliases(base, joins[..|joins| - 1]);
      earlier + [NextAlias(joins[|joins| - 1].right, earlier)]
  }

  function NextAlias(item: FromItem, earlier: seq<string>): string {
    match item
    case Table(fqn, alias) =>
      if alias.Some? && alias.value != [] then alias.value
      else FirstFree(LastSegment(fqn), 0, set a | a in earlier)
    case OtherShape => ""
  }

  /** A plain table, joined by CROSS, USING columns, or equalities with the base. */
  predicate JoinSupported(j: JoinNode, base: string, right: string) {
    && j.right.Table?
    && (|| JoinType(j.side, j.kind).Cross?
        || j.using != []
        || (j.on.Some? && IsEquiJoin(j.on.value, base, right)))
  }

  /** All joins before the n-th are supported. */
  predicate JoinsSupported(base: FromItem, joins: seq<JoinNode>, n: nat)
    requires n <= |joins|
  {
    var aliases := TableAliases(base, joins);
    forall i: nat | i < n :: JoinSupported(joins[i], aliases[0], aliases[i + 1])
  }

  predicate FromSupported(base: FromItem, joins: seq<JoinNode>) {
    base.Table? && JoinsSupported(base, joins, |joins|)
  }

  /** What the n-th join is refused for. */
  function RefusedFor(j: JoinNode): FromResidue { if j.right.OtherShape? then UnsupportedJoinShape else NonEquiJoin }

  lemma {:induction false} AliasesPrefix(base: FromItem, joins: seq<JoinNode>, n: nat)
    requires n <= |joins|
    ensures TableAliases(base, joins[..n]) == TableAliases(base, joins)[..n + 1]
    decreases |joins|
  {
    if n < |joins| {
      var front := joins[..|joins| - 1];
      assert front[..n] == joins[..n];
      AliasesPrefix(base, front, n);
    } else {
      assert joins[..n] == joins;
    }
  }

  lemma JoinsSupportedPrefix(base: FromItem, joins: seq<JoinNode>, n: nat)
    requires n <= |joins|
    ensures JoinsSupported(base, joins[..n], n) <==> JoinsSupported(base, joins, n)
  {
    AliasesPrefix(base, joins, n);
    var a, b := TableAliases(base, joins[..n]), TableAliases(base, joins);
    assert forall i: nat | i <= n :: a[i] == b[i];
    assert forall i: nat | i < n :: joins[..n][i] == joins[i];
  }

  lemma {:induction false} PutAliases(tables: seq<TableRef>, t: TableRef)
    ensures AliasSet(Put(tables, t)) == AliasSet(tables) + {t.alias}
  {
    if tables == [] {
      assert AliasSet([t]) == {t.alias} by { assert t in [t]; }
    } else if tables[0].alias == t.alias {
      AliasesSplit(tables[0], tables[1..]);
      AliasesSplit(t, tables[1..]);
      assert tables == [tables[0]] + tables[1..];
    } else {
      PutAliases(tables[1..], t);
      AliasesSplit(tables[0], tables[1..]);
      AliasesSplit(tables[0], Put(tables[1..], t));
      assert tables == [tables[0]] + tables[1..];
    }
  }

  lemma AliasesSplit(t: TableRef, tables: seq<TableRef>)
    ensures AliasSet([t] + tables) == {t.alias} + AliasSet(tables)
  {
    var all := [t] + tables;
    assert t in all && forall x :: x in all <==> x == t || x in tables;
    forall a ensures a in AliasSet(all) <==> a in {t.alias} + AliasSet(tables) {
      if a in AliasSet(tables) {
        var x :| x in tables && x.alias == a;
        assert x in all;
      }
    }
  }

  lemma SnocSet(s: seq<string>, x: string)
    ensures (set a | a in s + [x]) == (set a | a in s) + {x}
  {
  }

  /** The tables mapped so far go by these aliases. */
  predicate GoBy(tables: seq<TableRef>, aliases: seq<string>) { AliasSet(tables) == set a | a in aliases }

  lemma NextIsAlias(item: FromItem, tables: seq<TableRef>, aliases: seq<string>)
    requires item.Table? && GoBy(tables, aliases)
    ensures AliasOf(item, tables) == NextAlias(item, aliases)
  {
  }

  lemma JoinAccepted(m: Mapped, base: string, j: JoinNode, aliases: seq<string>)
    requires GoBy(m.tables, aliases)
    ensures var right, r := NextAlias(j.right, aliases), MapJoin(m, base, j);
            if JoinSupported(j, base, right) then r.Ok? && GoBy(r.value.tables, aliases + [right])
            else r == Err(RefusedFor(j))
  {
    if j.right.Table? {
      var right := NextAlias(j.right, aliases);
      NextIsAlias(j.right, m.tables, aliases);
      EquiJoinExactly(j.on, base, right);
      PutAliases(m.tables, TableRef(j.right.fqn, right));
      SnocSet(aliases, right);
    }
  }

  lemma BaseAlias(base: FromItem, joins: seq<JoinNode>)
    requires base.Table?
    ensures TableAliases(base, joins)[0] == AliasOf(base, [])
    ensures GoBy(StartFrom(base).tables, TableAliases(base, []))
  {
    AliasesPrefix(base, joins, 0);
    assert joins[..0] == [];
    var none: seq<string> := [];
    assert AliasSet([]) == {} && (set a | a in none) == {};
    AliasesSplit(StartFrom(base).tables[0], []);
    SnocSet(none, AliasOf(base, []));
    assert none + [AliasOf(base, [])] == [AliasOf(base, [])];
    assert StartFrom(base).tables == [StartFrom(base).tables[0]] + [];
  }

  /** The joins are mapped up to the first that is not supported. */
  lemma {:induction false} JoinsAccepted(base: FromItem, joins: seq<JoinNode>)
    requires base.Table?
    ensures var r := MapJoins(base, joins);
            if JoinsSupported(base, joins, |joins|) then r.Ok? && GoBy(r.value.tables, TableAliases(base, joins))
            else exists i: nat | i < |joins| :: RefusesAt(base, joins, i) && r == Err(RefusedFor(joins[i]))
    decreases |joins|
  {
    BaseAlias(base, joins);
    if joins != [] {
      var n := |joins| - 1;
      var front := joins[..n];
      JoinsAccepted(base, front);
      JoinsSupportedPrefix(base, joins, n);
      var aliases := TableAliases(base, front);
      if JoinsSupported(base, front, n) {
        AliasesPrefix(base, joins, n);
        JoinAccepted(MapJoins(base, front).value, AliasOf(base, []), joins[n], aliases);
        assert TableAliases(base, joins)[n + 1] == NextAlias(joins[n].right, aliases);
        if !JoinsSupported(base, joins, |joins|) { assert RefusesAt(base, joins, n); }
      } else {
        var i: nat :| i < n && RefusesAt(base, front, i) && MapJoins(base, front) == Err(RefusedFor(front[i]));
        RefusesLater(base, joins, n, i);
      }
    }
  }

  /** Join i is the first that is not supported. */
  predicate RefusesAt(base: FromItem, joins: seq<JoinNode>, i: nat)
    requires i < |joins|
  {
    JoinsSupported(base, joins, i) && !JoinsSupported(base, joins, i + 1)
  }

  lemma RefusesLater(base: FromItem, joins: seq<JoinNode>, n: nat, i: nat)
    requires i < n <= |joins| && RefusesAt(base, joins[..n], i)
    ensures RefusesAt(base, joins, i) && joins[..n][i] == joins[i]
  {
    JoinsSupportedPrefix(base, joins, i);
    JoinsSupportedPrefix(base, joins, i + 1);
    var front := joins[..n];
    assert front[..i] == joins[..i] && front[..i + 1] == joins[..i + 1];
    JoinsSupportedPrefix(base, front, i);
    JoinsSupportedPrefix(base, front, i + 1);
  }

  method ChooseAlias(item: FromItem, tables: seq<TableRef>) returns (alias: string)
    requires item.Table?
    ensures alias == AliasOf(item, tables)
  {
    if item.alias.Some? && item.alias.value != [] {
      alias := item.alias.value;
    } else {
      alias := DefaultAlias(item.fqn, AliasSet(tables));
    }
  }

  /** The loop over the joins, growing the tables, the joins and the nullable aliases. */
  method MapJoinList(base: FromItem, joins: seq<JoinNode>) returns (r: Result<Mapped, FromResidue>)
    requires base.Table?
    ensures r == MapJoins(base, joins)
  {
    var baseAlias := ChooseAlias(base, []);
    var tables := [TableRef(base.fqn, baseAlias)];
    var mapped: seq<DraftJoin> := [];
    var nullable: set<string> := {};
    for i := 0 to |joins|
      invariant MapJoins(base, joins[..i]) == Ok(Mapped(tables, mapped, nullable))
    {
      var j := joins[i];
      assert joins[..i + 1][..i] == joins[..i];
      if j.right.OtherShape? {
        JoinFailsLater(base, joins, i + 1);
        return Err(UnsupportedJoinShape);
      }
      var right := ChooseAlias(j.right, tables);
      tables := Put(tables, TableRef(j.right.fqn, right));
      var kind := JoinType(j.side, j.kind);
      if kind.LeftOuter? {
        nullable := nullable + {right};
      } else if kind.RightOuter? {
        nullable := nullable + {baseAlias};
      } else if kind.FullOuter? {
        nullable := nullable + {baseAlias};
        nullable := nullable + {right};
      }
      assert nullable == MapJoins(base, joins[..i]).value.nullable + NullableFrom(kind, baseAlias, right);
      if kind.Cross? {
        mapped := mapped + [DraftJoin(baseAlias, ["_cross"], right, ["_cross"], kind)];
      } else if j.using != [] {
        mapped := mapped + [DraftJoin(baseAlias, j.using, right, j.using, kind)];
      } else {
        var pair := MapEquiJoinCondition(j.on, baseAlias, right);
        if pair.None? {
          JoinFailsLater(base, joins, i + 1);
          return Err(NonEquiJoin);
        }
        mapped := mapped + [DraftJoin(baseAlias, pair.value.0, right, pair.value.1, kind)];
      }
    }
    assert joins[..|joins|] == joins;
    r := Ok(Mapped(tables, mapped, nullable));
  }

  /**
   * Maps exactly the FROM clauses of plain tables joined by CROSS, USING or equalities with
   * the base, and otherwise names what the first other item is refused for.
   */
  method MapFromAndJoins(base: FromItem, joins: seq<JoinNode>) returns (r: Result<Mapped, FromResidue>)
    ensures r == MapFrom(base, joins)
    ensures r.Ok? <==> FromSupported(base, joins)
    ensures r == Err(UnsupportedFromShape) <==> base.OtherShape?
    ensures r.Err? && base.Table? ==>
              exists i: nat | i < |joins| :: RefusesAt(base, joins, i) && r.error == RefusedFor(joins[i])
  {
    if base.OtherShape? { return Err(UnsupportedFromShape); }
    r := MapJoinList(base, joins);
    JoinsAccepted(base, joins);
  }
}
