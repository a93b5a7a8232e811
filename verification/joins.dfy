/** Joining a chain of tables against its base table, and filters that move through it. */
module Joins {
  import opened SqlValues
  import opened SqlQuery

  datatype Kind = Inner | LeftOuter | RightOuter | FullOuter | Cross | LeftSemi | LeftAnti

  /**
   * When two rows join: on a predicate; on columns of the joined row, each read from its
   * source cells, the first value that is not NULL; or on the keys of the table a joined
   * row starts with, if that is one of the carriers.
   */
  datatype Condition =
    | OnPred(o: Oracle, scope: Scope, pred: Pred)
    | Columns(sources: seq<seq<nat>>, left: seq<string>, right: seq<string>)
    | Keys(left: seq<string>, right: seq<string>, carriers: set<nat>)

  datatype Step = Step(kind: Kind, cond: Condition)

  predicate KeysMatch(b: Row, r: Row, kl: seq<string>, kr: seq<string>) {
    |kl| == |kr| && forall i | 0 <= i < |kl| :: Get(b, kl[i]).Val? && Get(b, kl[i]) == Get(r, kr[i])
  }

  function CellValue(l: JoinedRow, i: nat, k: string): Value { if i < |l| then Get(RowOf(l[i]), k) else Null }

  /** COALESCE over the source cells. */
  function Coalesced(l: JoinedRow, source: seq<nat>, k: string): Value {
    if source == [] then Null
    else
      var n := |source| - 1;
      var v := Coalesced(l, source[..n], k);
      if v.Val? then v else CellValue(l, source[n], k)
  }

  /** The first table present in a joined row: 0 unless a right or full join has padded the row. */
  function Origin(l: JoinedRow): (x: nat)
    ensures x <= |l|
  {
    if l == [] || l[0].Here? then 0 else 1 + Origin(l[1..])
  }

  predicate ColumnsMatch(l: JoinedRow, r: Row, sources: seq<seq<nat>>, kl: seq<string>, kr: seq<string>) {
    |sources| == |kl| == |kr|
    && forall i | 0 <= i < |kl| ::
         Coalesced(l, sources[i], kl[i]).Val? && Coalesced(l, sources[i], kl[i]) == Get(r, kr[i])
  }

  ghost predicate On(s: Step, l: JoinedRow, r: Row) {
    s.kind.Cross? || match s.cond
                     case OnPred(o, scope, p) => EvalPred(o, scope, l + [Here(r)], p) == True
                     case Columns(sources, kl, kr) => ColumnsMatch(l, r, sources, kl, kr)
                     case Keys(kl, kr, carriers) =>
                       Origin(l) in carriers && Origin(l) < |l| && KeysMatch(RowOf(l[Origin(l)]), r, kl, kr)
  }

  /** l extended with every right row it matches. */
  ghost function Partners(s: Step, l: JoinedRow, rs: seq<Row>): seq<JoinedRow>
  {
    if rs == [] then []
    else (if On(s, l, rs[0]) then [l + [Here(rs[0])]] else []) + Partners(s, l, rs[1..])
  }

  /** The output rows that come from one left row. */
  ghost function Contribution(s: Step, l: JoinedRow, rs: seq<Row>): seq<JoinedRow>
  {
    var ps := Partners(s, l, rs);
    match s.kind
    case Inner => ps
    case RightOuter => ps
    case Cross => ps
    case LeftOuter => if ps == [] then [l + [Gone]] else ps
    case FullOuter => if ps == [] then [l + [Gone]] else ps
    case LeftSemi => if ps == [] then [] else [l + [Gone]]
    case LeftAnti => if ps == [] then [l + [Gone]] else []
  }

  ghost function LeftPart(s: Step, ls: seq<JoinedRow>, rs: seq<Row>): seq<JoinedRow>
  {
    if ls == [] then [] else Contribution(s, ls[0], rs) + LeftPart(s, ls[1..], rs)
  }

  function Padding(width: nat): JoinedRow { seq(width, _ => Gone) }

  ghost predicate Matched(s: Step, ls: seq<JoinedRow>, r: Row)
  {
    exists l | l in ls :: On(s, l, r)
  }

  /** The right rows no left row matches, NULL-extended on the left. */
  ghost function Unmatched(s: Step, ls: seq<JoinedRow>, rs: seq<Row>, width: nat): seq<JoinedRow>
  {
    if rs == [] then []
    else (if Matched(s, ls, rs[0]) then [] else [Padding(width) + [Here(rs[0])]])
         + Unmatched(s, ls, rs[1..], width)
  }

  ghost function RightPart(s: Step, ls: seq<JoinedRow>, rs: seq<Row>, width: nat): seq<JoinedRow>
  {
    if s.kind.RightOuter? || s.kind.FullOuter? then Unmatched(s, ls, rs, width) else []
  }

  function Lifted(rs: seq<Row>): seq<JoinedRow> { seq(|rs|, i requires 0 <= i < |rs| => [Here(rs[i])]) }

  /** The whole FROM clause: tables[0] is the base, tables[i] the right side of join i. */
  ghost function Eval(steps: seq<Step>, tables: seq<seq<Row>>): seq<JoinedRow>
    requires |tables| == |steps| + 1
  {
    if steps == [] then Lifted(tables[0])
    else
      var n := |steps| - 1;
      var left := Eval(steps[..n], tables[..n + 1]);
      LeftPart(steps[n], left, tables[n + 1]) + RightPart(steps[n], left, tables[n + 1], n + 1)
  }

  lemma EvalPrefix(steps: seq<Step>, tables: seq<seq<Row>>, n: nat)
    requires 0 < n <= |steps| && n < |tables|
    ensures var left := Eval(steps[..n - 1], tables[..n]);
            Eval(steps[..n], tables[..n + 1])
            == LeftPart(steps[n - 1], left, tables[n]) + RightPart(steps[n - 1], left, tables[n], n)
  {
    assert steps[..n][..n - 1] == steps[..n - 1] && tables[..n + 1][..n] == tables[..n];
  }

  // ---- filtering rows ----

  function FilterRows(o: Oracle, f: TableFilter, rs: seq<Row>): seq<Row> {
    if rs == [] then []
    else (if Accepts(o, f, rs[0]) then [rs[0]] else []) + FilterRows(o, f, rs[1..])
  }

  /** Every table's filter holds on that table's part of the joined row. */
  predicate Passes(o: Oracle, fs: seq<TableFilter>, l: JoinedRow) {
    forall x | 0 <= x < |fs| && x < |l| :: Accepts(o, fs[x], RowOf(l[x]))
  }

  function FilterJoined(o: Oracle, fs: seq<TableFilter>, ls: seq<JoinedRow>): seq<JoinedRow> {
    if ls == [] then []
    else (if Passes(o, fs, ls[0]) then [ls[0]] else []) + FilterJoined(o, fs, ls[1..])
  }

  function FilterTables(o: Oracle, fs: seq<TableFilter>, tables: seq<seq<Row>>): (r: seq<seq<Row>>)
    requires |fs| == |tables|
    ensures |r| == |tables|
  {
    seq(|tables|, i requires 0 <= i < |tables| => FilterRows(o, fs[i], tables[i]))
  }

  // ---- which filters may move below the joins ----

  /** No filter sits on a table before position i. */
  predicate NoFilterBefore(fs: seq<TableFilter>, i: nat) {
    forall x | 0 <= x < i && x < |fs| :: fs[x] == NO_FILTER
  }

  /** Only the base and the right sides of inner, cross and right joins are filtered. */
  predicate FiltersPlaced(steps: seq<Step>, fs: seq<TableFilter>)
    requires |fs| == |steps| + 1
  {
    forall i | 0 <= i < |steps| ::
      fs[i + 1] != NO_FILTER ==> steps[i].kind.Inner? || steps[i].kind.Cross? || steps[i].kind.RightOuter?
  }

  /** Joins that keep only the left rows they match. */
  predicate Demands(k: Kind) { k.Inner? || k.LeftSemi? || k.RightOuter? }

  /** Joins that keep right rows nothing matches. */
  predicate Pads(k: Kind) { k.RightOuter? || k.FullOuter? }

  // ---- lemmas ----

  predicate AllWidth(ls: seq<JoinedRow>, w: nat) { forall l | l in ls :: |l| == w }

  /** Rows over w tables, each with some table present. */
  predicate Shaped(ls: seq<JoinedRow>, w: nat) { forall l | l in ls :: |l| == w && Origin(l) < w }

  lemma {:induction false} LeftPartAppend(s: Step, a: seq<JoinedRow>, b: seq<JoinedRow>, rs: seq<Row>)
    ensures LeftPart(s, a + b, rs) == LeftPart(s, a, rs) + LeftPart(s, b, rs)
  {
    if a == [] {
      assert a + b == b;
    } else {
      assert (a + b)[1..] == a[1..] + b;
      LeftPartAppend(s, a[1..], b, rs);
    }
  }

  lemma {:induction false} FilterJoinedAppend(o: Oracle, fs: seq<TableFilter>, a: seq<JoinedRow>, b: seq<JoinedRow>)
    ensures FilterJoined(o, fs, a + b) == FilterJoined(o, fs, a) + FilterJoined(o, fs, b)
  {
    if a == [] {
      assert a + b == b;
    } else {
      assert (a + b)[1..] == a[1..] + b;
      FilterJoinedAppend(o, fs, a[1..], b);
    }
  }

  lemma {:induction false} OriginAppend(l: JoinedRow, c: Cell)
    requires Origin(l) < |l|
    ensures Origin(l + [c]) == Origin(l) && (l + [c])[Origin(l)] == l[Origin(l)] && l[Origin(l)].Here?
  {
    if !l[0].Here? {
      assert (l + [c])[1..] == l[1..] + [c];
      OriginAppend(l[1..], c);
    }
  }

  lemma {:induction false} OriginOfPadded(w: nat, r: Row)
    ensures Origin(Padding(w) + [Here(r)]) == w
  {
    if w > 0 {
      assert (Padding(w) + [Here(r)])[1..] == Padding(w - 1) + [Here(r)];
      OriginOfPadded(w - 1, r);
    }
  }

  lemma {:induction false} OriginIsFirst(l: JoinedRow, i: nat)
    requires i < |l|
    ensures i < Origin(l) ==> l[i].Gone?
    ensures l[i].Here? ==> Origin(l) <= i
  {
    if i > 0 && l[0].Gone? { OriginIsFirst(l[1..], i - 1); }
  }

  lemma {:induction false} PartnersShape(s: Step, l: JoinedRow, rs: seq<Row>)
    ensures forall p | p in Partners(s, l, rs) :: exists r | r in rs :: On(s, l, r) && p == l + [Here(r)]
    ensures Partners(s, l, rs) == [] <==> forall r | r in rs :: !On(s, l, r)
  {
    if rs != [] {
      PartnersShape(s, l, rs[1..]);
      assert rs == [rs[0]] + rs[1..];
    }
  }

  /** p continues l: with a row it matches, or with nothing. */
  ghost predicate Continues(s: Step, l: JoinedRow, rs: seq<Row>, p: JoinedRow) {
    (exists r | r in rs :: On(s, l, r) && p == l + [Here(r)]) || p == l + [Gone]
  }

  lemma ContributionContinues(s: Step, l: JoinedRow, rs: seq<Row>, p: JoinedRow)
    requires p in Contribution(s, l, rs)
    ensures Continues(s, l, rs, p)
  {
    PartnersShape(s, l, rs);
    ContributionKinds(s, l, rs);
  }

  lemma ContinuesShape(s: Step, l: JoinedRow, rs: seq<Row>, p: JoinedRow)
    requires Continues(s, l, rs, p)
    ensures |p| == |l| + 1 && p[..|l|] == l && (Origin(l) < |l| ==> Origin(p) == Origin(l))
  {
    assert p == l + [p[|l|]];
    if Origin(l) < |l| { OriginAppend(l, p[|l|]); }
  }

  lemma ContributionShape(s: Step, l: JoinedRow, rs: seq<Row>)
    ensures forall p | p in Contribution(s, l, rs) :: Continues(s, l, rs, p)
    ensures forall p | p in Contribution(s, l, rs) :: |p| == |l| + 1 && p[..|l|] == l
    ensures Origin(l) < |l| ==> forall p | p in Contribution(s, l, rs) :: Origin(p) == Origin(l)
  {
    forall p | p in Contribution(s, l, rs)
      ensures Continues(s, l, rs, p) && |p| == |l| + 1 && p[..|l|] == l && (Origin(l) < |l| ==> Origin(p) == Origin(l))
    {
      ContributionContinues(s, l, rs, p);
      ContinuesShape(s, l, rs, p);
    }
  }

  /** Every row of the left part continues a left row. */
  lemma {:induction false} LeftPartFrom(s: Step, ls: seq<JoinedRow>, rs: seq<Row>, p: JoinedRow) returns (l: JoinedRow)
    requires p in LeftPart(s, ls, rs)
    ensures l in ls && p in Contribution(s, l, rs)
  {
    if p in Contribution(s, ls[0], rs) { l := ls[0]; } else { l := LeftPartFrom(s, ls[1..], rs, p); }
  }

  lemma {:induction false} UnmatchedFrom(s: Step, ls: seq<JoinedRow>, rs: seq<Row>, w: nat, p: JoinedRow)
    requires p in Unmatched(s, ls, rs, w)
    ensures exists r | r in rs :: !Matched(s, ls, r) && p == Padding(w) + [Here(r)]
  {
    if rs != [] && !(!Matched(s, ls, rs[0]) && p == Padding(w) + [Here(rs[0])]) {
      UnmatchedFrom(s, ls, rs[1..], w, p);
    }
  }

  lemma JoinShape(s: Step, ls: seq<JoinedRow>, rs: seq<Row>, w: nat)
    requires Shaped(ls, w)
    ensures Shaped(LeftPart(s, ls, rs) + RightPart(s, ls, rs, w), w + 1)
  {
    forall p | p in LeftPart(s, ls, rs) + RightPart(s, ls, rs, w) ensures |p| == w + 1 && Origin(p) < w + 1 {
      if p in LeftPart(s, ls, rs) {
        var l := LeftPartFrom(s, ls, rs, p);
        ContributionShape(s, l, rs);
      } else {
        UnmatchedFrom(s, ls, rs, w, p);
        var r :| r in rs && p == Padding(w) + [Here(r)];
        OriginOfPadded(w, r);
      }
    }
  }

  lemma FilterJoinedOne(o: Oracle, fs: seq<TableFilter>, l: JoinedRow)
    ensures FilterJoined(o, fs, [l]) == if Passes(o, fs, l) then [l] else []
  {
    assert FilterJoined(o, fs, [l][1..]) == [];
  }

  lemma PartnersCons(s: Step, l: JoinedRow, r: Row, rs: seq<Row>)
    ensures Partners(s, l, [r] + rs) == if On(s, l, r) then [l + [Here(r)]] + Partners(s, l, rs) else Partners(s, l, rs)
  {
    assert ([r] + rs)[1..] == rs;
  }

  lemma {:induction false} NonePass(o: Oracle, fs: seq<TableFilter>, ls: seq<JoinedRow>)
    requires forall l | l in ls :: !Passes(o, fs, l)
    ensures FilterJoined(o, fs, ls) == []
  {
    if ls != [] {
      assert ls[0] in ls;
      NonePass(o, fs, ls[1..]);
    }
  }

  lemma {:induction false} PartnersKept(o: Oracle, s: Step, fs: seq<TableFilter>, l: JoinedRow, rs: seq<Row>)
    requires |fs| > |l| && Passes(o, fs, l)
    ensures FilterJoined(o, fs, Partners(s, l, rs)) == Partners(s, l, FilterRows(o, fs[|l|], rs))
    decreases |rs|
  {
    if rs != [] {
      var r, rest := rs[0], rs[1..];
      PartnersKept(o, s, fs, l, rest);
      FirstPartner(o, s, fs, l, r, rest);
      assert rs == [r] + rest;
    }
  }

  lemma FirstPartner(o: Oracle, s: Step, fs: seq<TableFilter>, l: JoinedRow, r: Row, rest: seq<Row>)
    requires |fs| > |l| && Passes(o, fs, l)
    requires FilterJoined(o, fs, Partners(s, l, rest)) == Partners(s, l, FilterRows(o, fs[|l|], rest))
    ensures FilterJoined(o, fs, Partners(s, l, [r] + rest)) == Partners(s, l, FilterRows(o, fs[|l|], [r] + rest))
  {
    var p := l + [Here(r)];
    PassesExtended(o, fs, l, Here(r));
    FilterJoinedOne(o, fs, p);
    FilterJoinedAppend(o, fs, [p], Partners(s, l, rest));
    assert ([r] + rest)[1..] == rest;
    FilterRowsCons(o, fs[|l|], [r] + rest);
    PartnersCons(s, l, r, rest);
    PartnersCons(s, l, r, FilterRows(o, fs[|l|], rest));
  }

  lemma PartnersDropped(o: Oracle, s: Step, fs: seq<TableFilter>, l: JoinedRow, rs: seq<Row>)
    requires !Passes(o, fs, l)
    ensures FilterJoined(o, fs, Partners(s, l, rs)) == []
  {
    PartnersShape(s, l, rs);
    forall p | p in Partners(s, l, rs) ensures !Passes(o, fs, p) {
      var x :| 0 <= x < |fs| && x < |l| && !Accepts(o, fs[x], RowOf(l[x]));
      assert p[..|l|][x] == p[x];
    }
    NonePass(o, fs, Partners(s, l, rs));
  }

  /** Filtering the right table first filters the partners afterwards. */
  lemma PartnersFiltered(o: Oracle, s: Step, fs: seq<TableFilter>, l: JoinedRow, rs: seq<Row>)
    requires |fs| > |l|
    ensures FilterJoined(o, fs, Partners(s, l, rs))
            == if Passes(o, fs, l) then Partners(s, l, FilterRows(o, fs[|l|], rs)) else []
  {
    if Passes(o, fs, l) { PartnersKept(o, s, fs, l, rs); } else { PartnersDropped(o, s, fs, l, rs); }
  }

  lemma FilterRowsCons(o: Oracle, f: TableFilter, rs: seq<Row>)
    requires rs != []
    ensures var rest := FilterRows(o, f, rs[1..]);
            FilterRows(o, f, rs) == if Accepts(o, f, rs[0]) then [rs[0]] + rest else rest
  {
  }

  lemma PassesExtended(o: Oracle, fs: seq<TableFilter>, l: JoinedRow, c: Cell)
    requires |fs| > |l|
    ensures Passes(o, fs, l + [c]) <==> Passes(o, fs, l) && Accepts(o, fs[|l|], RowOf(c))
  {
    assert (l + [c])[|l|] == c;
    assert forall x | 0 <= x < |l| :: (l + [c])[x] == l[x];
  }

  lemma {:induction false} NoFilterKeepsAll(o: Oracle, rs: seq<Row>)
    ensures FilterRows(o, NO_FILTER, rs) == rs
  {
    if rs != [] { NoFilterKeepsAll(o, rs[1..]); }
  }

  lemma GoneFiltered(o: Oracle, fs: seq<TableFilter>, l: JoinedRow)
    requires |fs| > |l| && fs[|l|] == NO_FILTER
    ensures FilterJoined(o, fs, [l + [Gone]]) == if Passes(o, fs, l) then [l + [Gone]] else []
    ensures FilterJoined(o, fs, []) == []
  {
    PassesExtended(o, fs, l, Gone);
    FilterJoinedOne(o, fs, l + [Gone]);
    assert Accepts(o, NO_FILTER, RowOf(Gone));
  }

  lemma UnfilteredContribution(o: Oracle, s: Step, fs: seq<TableFilter>, l: JoinedRow, rs: seq<Row>)
    requires |fs| > |l| && fs[|l|] == NO_FILTER
    ensures FilterJoined(o, fs, Contribution(s, l, rs)) == if Passes(o, fs, l) then Contribution(s, l, rs) else []
  {
    PartnersFiltered(o, s, fs, l, rs);
    NoFilterKeepsAll(o, rs);
    GoneFiltered(o, fs, l);
    ContributionKinds(s, l, rs);
  }

  lemma ContributionKinds(s: Step, l: JoinedRow, rs: seq<Row>)
    ensures Contribution(s, l, rs) in {Partners(s, l, rs), [l + [Gone]], []}
  {
  }

  lemma ContributionFiltered(o: Oracle, s: Step, fs: seq<TableFilter>, l: JoinedRow, rs: seq<Row>)
    requires |fs| > |l|
    requires fs[|l|] != NO_FILTER ==> s.kind.Inner? || s.kind.Cross? || s.kind.RightOuter?
    ensures FilterJoined(o, fs, Contribution(s, l, rs))
            == if Passes(o, fs, l) then Contribution(s, l, FilterRows(o, fs[|l|], rs)) else []
  {
    if s.kind.Inner? || s.kind.Cross? || s.kind.RightOuter? {
      PartnersFiltered(o, s, fs, l, rs);
    } else {
      NoFilterKeepsAll(o, rs);
      UnfilteredContribution(o, s, fs, l, rs);
    }
  }

  /** Moving the filters below one join leaves the rows that come from the left unchanged. */
  lemma {:induction false} LeftPartFiltered(o: Oracle, s: Step, fs: seq<TableFilter>, ls: seq<JoinedRow>,
                                            rs: seq<Row>, w: nat)
    requires |fs| > w && AllWidth(ls, w)
    requires fs[w] != NO_FILTER ==> s.kind.Inner? || s.kind.Cross? || s.kind.RightOuter?
    ensures FilterJoined(o, fs, LeftPart(s, ls, rs))
            == LeftPart(s, FilterJoined(o, fs, ls), FilterRows(o, fs[w], rs))
  {
    if ls != [] {
      var l := ls[0];
      assert l in ls;
      LeftPartFiltered(o, s, fs, ls[1..], rs, w);
      ContributionFiltered(o, s, fs, l, rs);
      FilterJoinedAppend(o, fs, Contribution(s, l, rs), LeftPart(s, ls[1..], rs));
      var kept := if Passes(o, fs, l) then [l] else [];
      LeftPartAppend(s, kept, FilterJoined(o, fs, ls[1..]), FilterRows(o, fs[w], rs));
      if Passes(o, fs, l) {
        assert LeftPart(s, [l], FilterRows(o, fs[w], rs)) == Contribution(s, l, FilterRows(o, fs[w], rs));
      }
    }
  }

  lemma {:induction false} UnmatchedFiltered(o: Oracle, s: Step, fs: seq<TableFilter>, ls: seq<JoinedRow>,
                                             rs: seq<Row>, w: nat)
    requires |fs| > w && NoFilterBefore(fs, w)
    ensures FilterJoined(o, fs, Unmatched(s, ls, rs, w)) == Unmatched(s, ls, FilterRows(o, fs[w], rs), w)
  {
    if rs != [] {
      UnmatchedFiltered(o, s, fs, ls, rs[1..], w);
      UnmatchedHead(o, s, fs, ls, rs, w);
      FilterRowsCons(o, fs[w], rs);
      UnmatchedCons(s, ls, rs[0], FilterRows(o, fs[w], rs[1..]), w);
    }
  }

  lemma UnmatchedCons(s: Step, ls: seq<JoinedRow>, r: Row, rs: seq<Row>, w: nat)
    ensures Unmatched(s, ls, [r] + rs, w)
            == (if Matched(s, ls, r) then [] else [Padding(w) + [Here(r)]]) + Unmatched(s, ls, rs, w)
  {
    assert ([r] + rs)[1..] == rs;
  }

  lemma UnmatchedHead(o: Oracle, s: Step, fs: seq<TableFilter>, ls: seq<JoinedRow>, rs: seq<Row>, w: nat)
    requires |fs| > w && NoFilterBefore(fs, w) && rs != []
    ensures var head := if Matched(s, ls, rs[0]) || !Accepts(o, fs[w], rs[0]) then [] else [Padding(w) + [Here(rs[0])]];
            FilterJoined(o, fs, Unmatched(s, ls, rs, w)) == head + FilterJoined(o, fs, Unmatched(s, ls, rs[1..], w))
  {
    assert Passes(o, fs, Padding(w));
    PassesExtended(o, fs, Padding(w), Here(rs[0]));
    FilterJoinedOne(o, fs, Padding(w) + [Here(rs[0])]);
    var head := if Matched(s, ls, rs[0]) then [] else [Padding(w) + [Here(rs[0])]];
    FilterJoinedAppend(o, fs, head, Unmatched(s, ls, rs[1..], w));
  }

  lemma {:induction false} NothingFiltered(o: Oracle, fs: seq<TableFilter>, ls: seq<JoinedRow>, w: nat)
    requires NoFilterBefore(fs, w) && AllWidth(ls, w)
    ensures FilterJoined(o, fs, ls) == ls
  {
    if ls != [] {
      assert ls[0] in ls;
      NothingFiltered(o, fs, ls[1..], w);
    }
  }

  lemma {:induction false} LiftedFiltered(o: Oracle, fs: seq<TableFilter>, rs: seq<Row>)
    requires |fs| >= 1
    ensures FilterJoined(o, fs, Lifted(rs)) == Lifted(FilterRows(o, fs[0], rs))
  {
    if rs != [] {
      assert Lifted(rs)[1..] == Lifted(rs[1..]);
      LiftedFiltered(o, fs, rs[1..]);
      assert Lifted(rs)[0] == [Here(rs[0])];
      FilterRowsCons(o, fs[0], rs);
    }
  }
}
