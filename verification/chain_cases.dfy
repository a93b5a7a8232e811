/** Each way a chain is not safe, with tables on which query and draft differ. */
module ChainCases {
  import opened SqlValues
  import opened SqlQuery
  import opened Joins
  import opened Chains
  import opened Pushing
  import opened ChainWitness

  /** From join n on, exactly the right tables of anti joins are empty. */
  predicate AntisEmpty(js: seq<Link>, t: seq<seq<Row>>, n: nat)
    requires |t| == |js| + 1
  {
    forall m: nat | n <= m < |js| :: t[m + 1] == [] <==> js[m].kind.LeftAnti?
  }

  /** The right tables of anti joins. */
  function Antis(js: seq<Link>): set<nat> { set m | 0 <= m < |js| && js[m].kind.LeftAnti? :: m + 1 }

  lemma WitnessTables(js: seq<Link>, cols: seq<set<string>>, first: nat, extra: set<nat>)
    requires |cols| == |js| + 1
    ensures var t := UnitTables(cols, first, Antis(js) + extra);
            && AllUnit(cols, t) && (first > 0 ==> EmptyTo(t, first - 1))
            && (forall i: nat | i <= |js| && i in extra :: t[i] == [])
            && (first == 0 && 0 !in extra ==> t[0] != [])
    ensures var t := UnitTables(cols, first, Antis(js) + extra);
            forall m: nat | first <= m + 1 <= |js| && m + 1 !in extra :: t[m + 1] == [] <==> js[m].kind.LeftAnti?
  {
    forall m: nat | m < |js| ensures m + 1 in Antis(js) <==> js[m].kind.LeftAnti? {}
  }

  /** Same keys, and kinds that differ at most by an outer join that became inner. */
  predicate Joined(la: seq<Link>, lb: seq<Link>) {
    && |la| == |lb| && ValidLinks(la) && ValidLinks(lb)
    && forall i | 0 <= i < |la| ::
         && la[i].left == lb[i].left && la[i].right == lb[i].right
         && (la[i].merges ==> lb[i].merges) && (la[i].bare ==> lb[i].bare)
         && (la[i].kind == lb[i].kind || (lb[i].kind.Inner? && (la[i].kind.LeftOuter? || la[i].kind.RightOuter?)))
  }

  lemma KeyedAlike(la: seq<Link>, lb: seq<Link>, cols: seq<set<string>>)
    requires Joined(la, lb) && Keyed(la, cols)
    ensures Keyed(lb, cols)
  {
    forall m | 0 <= m < |lb| && !lb[m].kind.Cross?
      ensures (forall k | k in lb[m].left :: k in cols[0]) && forall k | k in lb[m].right :: k in cols[m + 1]
    {
      assert la[m].left == lb[m].left;
    }
  }

  lemma NotDoomed(js: seq<Link>, x: nat, m: nat)
    requires 1 <= x <= m < |js| && !Doomed(js, x) && Demands(js[m].kind)
    ensures Carries(js, x, m)
  {
    assert !KillsAt(js, x, m);
  }

  /** A row that occurs in one chain alone. */
  lemma OneHasMore(la: seq<Link>, lb: seq<Link>, t: seq<seq<Row>>, p: JoinedRow)
    requires |la| == |lb| && |t| == |la| + 1 && OccursAfter(lb, t, |lb|, p) && !OccursAfter(la, t, |la|, p)
    ensures Eval(KeySteps(la), t) != Eval(KeySteps(lb), t)
  {
    AfterAll(KeySteps(la), t);
    AfterAll(KeySteps(lb), t);
  }

  /** A row that shows two tables kept apart does not occur. */
  lemma MissedRow(js: seq<Link>, t: seq<seq<Row>>, i: nat, k: nat, p: JoinedRow)
    requires |t| == |js| + 1 && ApartAfter(js, t, |js|, i, k) && ShowsBoth(p, i, k)
    ensures !OccursAfter(js, t, |js|, p)
  {
    if OccursAfter(js, t, |js|, p) { ApartAt(After(KeySteps(js), t, |js|), i, k, p); }
  }

  /** A row of the one chain that shows two tables the other keeps apart. */
  lemma Differs(la: seq<Link>, lb: seq<Link>, t: seq<seq<Row>>, p: JoinedRow, i: nat, k: nat)
    requires |la| == |lb| && |t| == |la| + 1 && i <= |la| && k <= |la|
    requires OccursAfter(lb, t, |lb|, p) && |p| == |lb| + 1 && p[i].Here? && p[k].Here?
    requires ApartAfter(la, t, |la|, i, k)
    ensures Eval(KeySteps(la), t) != Eval(KeySteps(lb), t)
  {
    MissedRow(la, t, i, k, p);
    OneHasMore(la, lb, t, p);
  }

  // ---- a merged key matches more than the query's ----

  /** The tables from join q on, but for those of anti joins. */
  function PaddingTables(js: seq<Link>, cols: seq<set<string>>, q: nat): (t: seq<seq<Row>>)
    ensures |t| == |cols|
  {
    UnitTables(cols, q + 1, Antis(js))
  }

  lemma PaddingFacts(js: seq<Link>, cols: seq<set<string>>, q: nat)
    requires |cols| == |js| + 1
    ensures var t := PaddingTables(js, cols, q); AllUnit(cols, t) && EmptyTo(t, q) && AntisEmpty(js, t, q)
  {
    forall m: nat | m < |js| ensures m + 1 in Antis(js) <==> js[m].kind.LeftAnti? {}
  }

  /** The row that join q pads, over these tables. */
  lemma PaddedShown(js: seq<Link>, cols: seq<set<string>>, q: nat) returns (p: JoinedRow)
    requires ValidLinks(js) && Keyed(js, cols) && q < |js| && Pads(js[q].kind) && !Doomed(js, q + 1)
    ensures OccursAfter(js, PaddingTables(js, cols, q), |js|, p) && |p| == |js| + 1 && p[q + 1].Here?
    ensures forall m: nat | q < m < |js| && Carries(js, q + 1, m) && !js[m].kind.LeftSemi? && !js[m].kind.LeftAnti? ::
              p[m + 1].Here?
  {
    PaddingFacts(js, cols, q);
    p := PaddedLasts(js, cols, PaddingTables(js, cols, q), q);
  }

  /** The row that join q pads shows its partner of join m. */
  lemma LeakRow(lb: seq<Link>, cols: seq<set<string>>, q: nat, m: nat) returns (p: JoinedRow)
    requires ValidLinks(lb) && Keyed(lb, cols) && q < m < |lb| && !lb[m].kind.LeftAnti?
    requires Pads(lb[q].kind) && !Doomed(lb, q + 1) && Carries(lb, q + 1, m)
    ensures OccursAfter(lb, PaddingTables(lb, cols, q), |lb|, p) && |p| == |lb| + 1
    ensures ShowsBoth(p, q + 1, Partner(lb[m], q, m))
  {
    p := PaddedShown(lb, cols, q);
  }

  lemma LeakIsMissed(la: seq<Link>, lb: seq<Link>, cols: seq<set<string>>, q: nat, m: nat, p: JoinedRow)
    requires ValidLinks(la) && Keyed(la, cols) && |la| == |lb| && q < m < |la|
    requires !Carries(la, q + 1, m) && !la[m].kind.Cross? && ShowsBoth(p, q + 1, Partner(la[m], q, m))
    ensures !OccursAfter(la, PaddingTables(lb, cols, q), |la|, p)
  {
    PaddingFacts(lb, cols, q);
    LeakApart(la, cols, PaddingTables(lb, cols, q), q, m);
    MissedRow(la, PaddingTables(lb, cols, q), q + 1, Partner(la[m], q, m), p);
  }

  /** A leak that is no anti join shows. */
  lemma LeakShows(la: seq<Link>, lb: seq<Link>, cols: seq<set<string>>, q: nat, m: nat)
    requires Joined(la, lb) && Keyed(la, cols) && q < m < |la|
    requires Pads(lb[q].kind) && !Doomed(lb, q + 1) && Carries(lb, q + 1, m) && !Carries(la, q + 1, m)
    requires !lb[m].kind.LeftAnti?
    ensures Eval(KeySteps(la), PaddingTables(lb, cols, q)) != Eval(KeySteps(lb), PaddingTables(lb, cols, q))
  {
    KeyedAlike(la, lb, cols);
    SamePartner(la, lb, q, m);
    var p := LeakRow(lb, cols, q, m);
    LeakIsMissed(la, lb, cols, q, m, p);
    OneHasMore(la, lb, PaddingTables(lb, cols, q), p);
  }

  lemma SamePartner(la: seq<Link>, lb: seq<Link>, q: nat, m: nat)
    requires Joined(la, lb) && m < |la| && q < |la| && Carries(lb, q + 1, m)
    ensures Partner(la[m], q, m) == Partner(lb[m], q, m) && !la[m].kind.Cross?
  {
    assert ValidLink(lb[m]);
  }

  lemma StaysApart(js: seq<Link>, t: seq<seq<Row>>, m: nat, q: nat, k: nat)
    requires |t| == |js| + 1 && q < m < |js| && k <= m + 1 && ApartAfter(js, t, m + 1, q + 1, k)
    ensures ApartAfter(js, t, |js|, q + 1, k)
  {
    StayApart(js, t, m + 1, |js|, q + 1, k);
  }

  /** The table that the rows starting with table q + 1 must not show behind join m. */
  function Partner(j: Link, q: nat, m: nat): nat { if j.kind.LeftSemi? then q + 1 else m + 1 }

  lemma LeakApart(la: seq<Link>, cols: seq<set<string>>, t: seq<seq<Row>>, q: nat, m: nat)
    requires ValidLinks(la) && Keyed(la, cols) && AllUnit(cols, t) && q < m < |la|
    requires EmptyTo(t, q) && !Carries(la, q + 1, m) && !la[m].kind.Cross?
    ensures ApartAfter(la, t, |la|, q + 1, Partner(la[m], q, m))
  {
    UnmatchedApart(la, cols, t, q, m);
    StaysApart(la, t, m, q, Partner(la[m], q, m));
  }

  /** The row that join q pads is kept to the end, if no later join demands a partner it does not have. */
  lemma PaddedLasts(js: seq<Link>, cols: seq<set<string>>, t: seq<seq<Row>>, q: nat) returns (p: JoinedRow)
    requires ValidLinks(js) && Keyed(js, cols) && AllUnit(cols, t) && q < |js| && EmptyTo(t, q) && AntisEmpty(js, t, q)
    requires Pads(js[q].kind) && !Doomed(js, q + 1)
    ensures OccursAfter(js, t, |js|, p) && |p| == |js| + 1 && p[q + 1].Here?
    ensures forall m: nat | q < m < |js| && Carries(js, q + 1, m) && !js[m].kind.LeftSemi? && !js[m].kind.LeftAnti? ::
            p[m + 1].Here?
  {
    KeptFrom(js, t, q + 1, q + 1);
    p := PaddedKept(js, cols, t, q);
  }

  lemma KeptFrom(js: seq<Link>, t: seq<seq<Row>>, x: nat, n: nat)
    requires |t| == |js| + 1 && 1 <= x <= n && AntisEmpty(js, t, n) && !Doomed(js, x)
    ensures AllKeep(js, t, x, n)
  {
    forall m: nat | n <= m < |js| ensures KeepsAt(js, t, x, m) {
      if Demands(js[m].kind) { NotDoomed(js, x, m); }
    }
  }

  /** The row that join q pads, with all its later partners, if every later join keeps it. */
  lemma PaddedKept(js: seq<Link>, cols: seq<set<string>>, t: seq<seq<Row>>, q: nat) returns (p: JoinedRow)
    requires ValidLinks(js) && Keyed(js, cols) && AllUnit(cols, t) && q < |js| && Pads(js[q].kind)
    requires t[q + 1] != [] && EmptyTo(t, q) && AllKeep(js, t, q + 1, q + 1)
    ensures OccursAfter(js, t, |js|, p) && |p| == |js| + 1 && p[q + 1].Here?
    ensures forall m: nat | q < m < |js| && Carries(js, q + 1, m) && t[m + 1] != [] && !js[m].kind.LeftSemi? ::
            p[m + 1].Here?
  {
    PadsUnit(js, cols, t, q);
    var d := Padding(q + 1) + [Here(UnitRow(cols[q + 1]))];
    OriginOfPadded(q + 1, UnitRow(cols[q + 1]));
    p := RowLasts(js, cols, t, q + 1, d, |js|);
    assert p[q + 1] == d[q + 1];
  }

  /** If the only leaks are anti joins, the draft drops a row the query keeps. */
  lemma AntiLeakShows(la: seq<Link>, lb: seq<Link>, cols: seq<set<string>>, q: nat, m: nat)
    requires Joined(la, lb) && Keyed(la, cols) && q < m < |la| && Related(la, lb)
    requires Pads(lb[q].kind) && !Doomed(lb, q + 1) && Carries(lb, q + 1, m) && !Carries(la, q + 1, m)
    requires lb[m].kind.LeftAnti? && OnlyAntiLeaks(la, lb, q + 1)
    ensures var t := AntiTables(lb, cols, q, m); Eval(KeySteps(la), t) != Eval(KeySteps(lb), t)
  {
    var t := AntiTables(lb, cols, q, m);
    AntiTablesFacts(lb, cols, q, m);
    KeyedAlike(la, lb, cols);
    assert SameLink(la[q], lb[q]);
    QueryKeeps(la, lb, t, q + 1, m);
    var p := PaddedKept(la, cols, t, q);
    AntiLeakApart(lb, cols, t, q, m);
    Differs(lb, la, t, p, q + 1, q + 1);
  }

  lemma AntiLeakApart(lb: seq<Link>, cols: seq<set<string>>, t: seq<seq<Row>>, q: nat, m: nat)
    requires ValidLinks(lb) && Keyed(lb, cols) && AllUnit(cols, t) && q < m < |lb| && EmptyTo(t, q)
    requires Carries(lb, q + 1, m) && lb[m].kind.LeftAnti? && t[m + 1] != []
    ensures ApartAfter(lb, t, |lb|, q + 1, q + 1)
  {
    AntiApart(lb, cols, t, q, m);
    StaysApart(lb, t, m, q, q + 1);
  }

  predicate OnlyAntiLeaks(la: seq<Link>, lb: seq<Link>, x: nat)
    requires |la| == |lb|
  {
    forall i: nat | x <= i < |la| && Carries(lb, x, i) && !Carries(la, x, i) :: lb[i].kind.LeftAnti?
  }

  /** Like the other tables, but with a row behind anti join m. */
  function AntiTables(js: seq<Link>, cols: seq<set<string>>, q: nat, m: nat): (t: seq<seq<Row>>)
    ensures |t| == |cols|
  {
    UnitTables(cols, q + 1, Antis(js) - {m + 1})
  }

  lemma AntiTablesFacts(js: seq<Link>, cols: seq<set<string>>, q: nat, m: nat)
    requires |cols| == |js| + 1 && q < m < |js|
    ensures var t := AntiTables(js, cols, q, m);
            && AllUnit(cols, t) && EmptyTo(t, q) && t[m + 1] != [] && (!js[q].kind.LeftAnti? ==> t[q + 1] != [])
            && forall i: nat | q < i < |js| && i != m :: t[i + 1] == [] <==> js[i].kind.LeftAnti?
  {
    forall i: nat | i < |js| ensures i + 1 in Antis(js) <==> js[i].kind.LeftAnti? {}
  }

  lemma QueryKeeps(la: seq<Link>, lb: seq<Link>, t: seq<seq<Row>>, x: nat, m: nat)
    requires Related(la, lb) && |t| == |la| + 1 && 1 <= x <= m < |la| && !Doomed(lb, x) && OnlyAntiLeaks(la, lb, x)
    requires !Carries(la, x, m) && t[m + 1] != [] && lb[m].kind.LeftAnti?
    requires forall i: nat | x <= i < |lb| && i != m :: t[i + 1] == [] <==> lb[i].kind.LeftAnti?
    ensures AllKeep(la, t, x, x)
  {
    forall i: nat | x <= i < |la| ensures KeepsAt(la, t, x, i) {
      assert SameLink(la[i], lb[i]);
      if Demands(la[i].kind) { NotDoomed(lb, x, i); }
    }
  }

  // ---- outer joins that became inner ----

  /** A right join that became inner loses the rows it should pad. */
  lemma LostRightShows(la: seq<Link>, lb: seq<Link>, cols: seq<set<string>>, q: nat)
    requires Joined(la, lb) && Keyed(la, cols) && q < |la|
    requires Pads(la[q].kind) && !Pads(lb[q].kind) && !Doomed(la, q + 1)
    ensures Eval(KeySteps(la), PaddingTables(la, cols, q)) != Eval(KeySteps(lb), PaddingTables(la, cols, q))
  {
    var p := PaddedShown(la, cols, q);
    PaddingFacts(la, cols, q);
    NothingPadded(lb, cols, PaddingTables(la, cols, q), q);
    Differs(lb, la, PaddingTables(la, cols, q), p, q + 1, q + 1);
  }

  lemma NothingPadded(lb: seq<Link>, cols: seq<set<string>>, t: seq<seq<Row>>, q: nat)
    requires |cols| == |lb| + 1 && AllUnit(cols, t) && q < |lb| && !Pads(lb[q].kind) && EmptyTo(t, q)
    ensures ApartAfter(lb, t, |lb|, q + 1, q + 1)
  {
    NothingYet(lb, cols, t, q);
    AfterNext(KeySteps(lb), t, q);
    assert After(KeySteps(lb), t, q + 1) == [];
    StayApart(lb, t, q + 1, |lb|, q + 1, q + 1);
  }

  /** A left join that became inner loses the left rows without a partner. */
  lemma LostLeftShows(la: seq<Link>, lb: seq<Link>, cols: seq<set<string>>, m: nat)
    requires Joined(la, lb) && Keyed(la, cols) && m < |la| && la[m].kind.LeftOuter? && lb[m].kind.Inner?
    ensures var t := UnitTables(cols, 0, Antis(la) + {m + 1}); Eval(KeySteps(la), t) != Eval(KeySteps(lb), t)
  {
    var t := UnitTables(cols, 0, Antis(la) + {m + 1});
    WitnessTables(la, cols, 0, {m + 1});
    forall i: nat | i < |la| ensures KeepsAt(la, t, 0, i) {}
    var p := BaseLasts(la, cols, t, |la|);
    BaseGone(lb, t, m, |lb|);
    Differs(lb, la, t, p, 0, 0);
  }

  /** The base row finds a partner wherever it needs one. */
  lemma BaseLasts(js: seq<Link>, cols: seq<set<string>>, t: seq<seq<Row>>, n: nat) returns (p: JoinedRow)
    requires ValidLinks(js) && Keyed(js, cols) && AllUnit(cols, t) && n <= |js| && t[0] != [] && AllKeep(js, t, 0, 0)
    ensures OccursAfter(js, t, n, p) && |p| == n + 1 && p[0].Here?
  {
    var u := UnitRow(cols[0]);
    AfterNone(KeySteps(js), t);
    assert Lifted(t[0])[0] == [Here(u)];
    p := RowLasts(js, cols, t, 0, [Here(u)], n);
  }

  // ---- a filter pushed below a join that pads ----

  /** Tables on which every row of the chain starts with the base. */
  predicate Full(js: seq<Link>, cols: seq<set<string>>, t: seq<seq<Row>>) {
    && ValidLinks(js) && Keyed(js, cols) && AllUnit(cols, t) && t[0] != [] && AntisEmpty(js, t, 0)
  }

  ghost predicate FromBase(js: seq<Link>, t: seq<seq<Row>>, n: nat, p: nat)
    requires |t| == |js| + 1 && n <= |js|
  {
    forall l: JoinedRow | l in After(KeySteps(js), t, n) :: |l| == n + 1 && (p < n ==> l[p + 1].Here?)
  }

  lemma BaseMatches(js: seq<Link>, cols: seq<set<string>>, t: seq<seq<Row>>, n: nat)
    requires Full(js, cols, t) && n < |js|
    ensures Matched(KeyStep(js, n), After(KeySteps(js), t, n), UnitRow(cols[n + 1]))
  {
    forall m: nat | m < |js| ensures KeepsAt(js, t, 0, m) {}
    var p := BaseLasts(js, cols, t, n);
    UnitCellsAfter(js, cols, t, n);
    assert UnitCells(cols, t, p, n + 1);
    OriginIsFirst(p, 0);
    UnitOn(js, cols, t, n, p);
  }

  lemma NoneUnmatched(js: seq<Link>, cols: seq<set<string>>, t: seq<seq<Row>>, n: nat)
    requires Full(js, cols, t) && n < |js|
    ensures RightPart(KeyStep(js, n), After(KeySteps(js), t, n), t[n + 1], n + 1) == []
  {
    BaseMatches(js, cols, t, n);
    var s, ls := KeyStep(js, n), After(KeySteps(js), t, n);
    if t[n + 1] != [] { assert Unmatched(s, ls, t[n + 1][1..], n + 1) == []; }
  }

  lemma FromBaseNext(js: seq<Link>, cols: seq<set<string>>, t: seq<seq<Row>>, n: nat, p: nat)
    requires Full(js, cols, t) && n < |js| && FromBase(js, t, n, p)
    requires n == p ==> js[p].kind.Inner? || js[p].kind.Cross? || js[p].kind.RightOuter?
    ensures FromBase(js, t, n + 1, p)
  {
    var s, ls, rs := KeyStep(js, n), After(KeySteps(js), t, n), t[n + 1];
    AfterNext(KeySteps(js), t, n);
    NoneUnmatched(js, cols, t, n);
    forall l: JoinedRow | l in LeftPart(s, ls, rs) ensures |l| == n + 2 && (p < n + 1 ==> l[p + 1].Here?) {
      var l0 := LeftPartFrom(s, ls, rs, l);
      ShownOnce(s, l0, rs, l, n, p);
    }
  }

  lemma ShownOnce(s: Step, l0: JoinedRow, rs: seq<Row>, l: JoinedRow, n: nat, p: nat)
    requires l in Contribution(s, l0, rs) && |l0| == n + 1 && (p < n ==> l0[p + 1].Here?)
    requires n == p ==> s.kind.Inner? || s.kind.Cross? || s.kind.RightOuter?
    ensures |l| == n + 2 && (p < n + 1 ==> l[p + 1].Here?)
  {
    ContributionShape(s, l0, rs);
    if p < n { assert l[p + 1] == l[..n + 1][p + 1]; }
    if p == n { PartnersShape(s, l0, rs); }
  }

  lemma {:induction false} FromBaseAt(js: seq<Link>, cols: seq<set<string>>, t: seq<seq<Row>>, n: nat, p: nat)
    requires Full(js, cols, t) && n <= |js| && p < |js|
    requires js[p].kind.Inner? || js[p].kind.Cross? || js[p].kind.RightOuter?
    ensures FromBase(js, t, n, p)
  {
    if n == 0 {
      AfterNone(KeySteps(js), t);
    } else {
      FromBaseAt(js, cols, t, n - 1, p);
      FromBaseNext(js, cols, t, n - 1, p);
    }
  }

  /** On full tables every row shows each table that an inner, cross or right join adds. */
  lemma AllShow(js: seq<Link>, cols: seq<set<string>>, t: seq<seq<Row>>, p: nat)
    requires Full(js, cols, t) && p < |js| && (js[p].kind.Inner? || js[p].kind.Cross? || js[p].kind.RightOuter?)
    ensures forall l | l in Eval(KeySteps(js), t) :: |l| == |js| + 1 && l[p + 1] == Here(UnitRow(cols[p + 1]))
  {
    FromBaseAt(js, cols, t, |js|, p);
    AfterAll(KeySteps(js), t);
    UnitCellsAfter(js, cols, t, |js|);
    forall l | l in Eval(KeySteps(js), t) ensures |l| == |js| + 1 && l[p + 1] == Here(UnitRow(cols[p + 1])) {
      assert UnitCells(cols, t, l, |js| + 1);
    }
  }

  /** Without table p + 1 no base row is left, but what join n adds lasts. */
  lemma PushedKeepsRow(lb: seq<Link>, cols: seq<set<string>>, t: seq<seq<Row>>, p: nat, n: nat)
    requires ValidLinks(lb) && Keyed(lb, cols) && AllUnit(cols, t) && p < n < |lb| && t[p + 1] == []
             && AntisEmpty(lb, t, n)
    requires Pads(lb[n].kind) && !Doomed(lb, n + 1)
    requires lb[p].kind.Inner? || lb[p].kind.Cross? || lb[p].kind.RightOuter?
    ensures Eval(KeySteps(lb), t) != []
  {
    BaseGone(lb, t, p, n);
    var d := LastingRow(lb, cols, t, n);
    LastingKept(lb, t, Origin(d), n);
    var r := RowLasts(lb, cols, t, n + 1, d, |lb|);
    AfterAll(KeySteps(lb), t);
  }

  lemma BaseGone(js: seq<Link>, t: seq<seq<Row>>, p: nat, n: nat)
    requires |t| == |js| + 1 && p < n <= |js| && t[p + 1] == [] && NeedsRows(js[p].kind)
    ensures ApartAfter(js, t, n, 0, 0)
  {
    EmptyJoin(js, t, p);
    StayApart(js, t, p + 1, n, 0, 0);
  }

  lemma LastingKept(js: seq<Link>, t: seq<seq<Row>>, x: nat, n: nat)
    requires |t| == |js| + 1 && n < |js| && AntisEmpty(js, t, n) && !Doomed(js, n + 1)
    requires x == n + 1 || (x <= n && Carries(js, x, n))
    ensures AllKeep(js, t, x, n + 1)
  {
    forall m: nat | n + 1 <= m < |js| ensures KeepsAt(js, t, x, m) {
      if Demands(js[m].kind) { StillCarried(js, x, n, m); }
    }
  }

  lemma StillCarried(js: seq<Link>, x: nat, n: nat, m: nat)
    requires n < m < |js| && !Doomed(js, n + 1) && Demands(js[m].kind)
    requires x == n + 1 || (x <= n && Carries(js, x, n))
    ensures Carries(js, x, m)
  {
    NotDoomed(js, n + 1, m);
    if x <= n { CarriesOn(js, x, n, m); }
  }

  /** After a right or full join without base rows: its own padded row, or one that matched its table by merged keys. */
  lemma LastingRow(lb: seq<Link>, cols: seq<set<string>>, t: seq<seq<Row>>, n: nat) returns (d: JoinedRow)
    requires ValidLinks(lb) && Keyed(lb, cols) && AllUnit(cols, t) && n < |lb| && Pads(lb[n].kind) && t[n + 1] != []
    requires ApartAfter(lb, t, n, 0, 0)
    ensures OccursAfter(lb, t, n + 1, d)
    ensures Origin(d) == n + 1 || (1 <= Origin(d) <= n && Carries(lb, Origin(d), n))
  {
    var s, ls, u := KeyStep(lb, n), After(KeySteps(lb), t, n), UnitRow(cols[n + 1]);
    assert t[n + 1] == [u];
    AfterNext(KeySteps(lb), t, n);
    if Matched(s, ls, u) {
      var l :| l in ls && On(s, l, u);
      d := MatchedRow(lb, cols, t, n, l);
    } else {
      d := Padding(n + 1) + [Here(u)];
      OriginOfPadded(n + 1, u);
      assert Unmatched(s, ls, [u], n + 1) == [d] + Unmatched(s, ls, [u][1..], n + 1);
    }
  }

  lemma MatchedRow(lb: seq<Link>, cols: seq<set<string>>, t: seq<seq<Row>>, n: nat, l: JoinedRow) returns (d: JoinedRow)
    requires ValidLinks(lb) && Keyed(lb, cols) && AllUnit(cols, t) && n < |lb| && Pads(lb[n].kind) && t[n + 1] != []
    requires ApartAfter(lb, t, n, 0, 0) && OccursAfter(lb, t, n, l) && On(KeyStep(lb, n), l, UnitRow(cols[n + 1]))
    ensures OccursAfter(lb, t, n + 1, d) && Origin(d) == Origin(l) && 1 <= Origin(d) <= n && Carries(lb, Origin(d), n)
  {
    UnitCellsAfter(lb, cols, t, n);
    assert UnitCells(cols, t, l, n + 1);
    UnitOn(lb, cols, t, n, l);
    OriginPresent(l);
    ApartAt(After(KeySteps(lb), t, n), 0, 0, l);
    d := RowStays(lb, cols, t, n, l);
  }

  // ---- every table matters ----

  /** On these tables every join keeps the base row. */
  predicate Keeping(js: seq<Link>, cols: seq<set<string>>, t: seq<seq<Row>>) {
    ValidLinks(js) && Keyed(js, cols) && AllUnit(cols, t) && t[0] != [] && AllKeep(js, t, 0, 0)
  }

  /** The base row with all its partners. */
  lemma BaseShows(js: seq<Link>, cols: seq<set<string>>, t: seq<seq<Row>>, m: nat) returns (p: JoinedRow)
    requires Keeping(js, cols, t) && m < |js| && t[m + 1] != [] && !js[m].kind.LeftSemi?
    ensures OccursAfter(js, t, |js|, p) && |p| == |js| + 1 && p[0].Here? && p[m + 1].Here?
  {
    var u := UnitRow(cols[0]);
    AfterNone(KeySteps(js), t);
    assert Lifted(t[0])[0] == [Here(u)];
    p := RowLasts(js, cols, t, 0, [Here(u)], |js|);
    assert Carries(js, 0, m);
  }

  /** The tables with all rows but those of table i and of anti joins, and with table i as well. */
  function Without(js: seq<Link>, cols: seq<set<string>>, i: nat): (t: seq<seq<Row>>)
    ensures |t| == |cols|
  {
    UnitTables(cols, 0, Antis(js) + {i})
  }

  function Including(js: seq<Link>, cols: seq<set<string>>, i: nat): (t: seq<seq<Row>>)
    ensures |t| == |cols|
  {
    UnitTables(cols, 0, Antis(js) - {i})
  }

  lemma WithoutFacts(js: seq<Link>, cols: seq<set<string>>, i: nat)
    requires |cols| == |js| + 1 && 0 < i <= |js|
    ensures var t := Without(js, cols, i);
            && AllUnit(cols, t) && t[0] != [] && t[i] == []
            && forall m: nat | m < |js| && m + 1 != i :: t[m + 1] == [] <==> js[m].kind.LeftAnti?
  {
    forall m: nat | m < |js| ensures m + 1 in Antis(js) <==> js[m].kind.LeftAnti? {}
  }

  lemma IncludingFacts(js: seq<Link>, cols: seq<set<string>>, i: nat)
    requires |cols| == |js| + 1 && 0 < i <= |js|
    ensures var t := Including(js, cols, i);
            && AllUnit(cols, t) && t[0] != [] && t[i] != []
            && forall m: nat | m < |js| && m + 1 != i :: t[m + 1] == [] <==> js[m].kind.LeftAnti?
  {
    forall m: nat | m < |js| ensures m + 1 in Antis(js) <==> js[m].kind.LeftAnti? {}
  }

  lemma WithoutKeeps(js: seq<Link>, cols: seq<set<string>>, i: nat)
    requires ValidLinks(js) && Keyed(js, cols) && 0 < i <= |js| && !NeedsRows(js[i - 1].kind)
    ensures Keeping(js, cols, Without(js, cols, i))
  {
    WithoutFacts(js, cols, i);
    var t := Without(js, cols, i);
    forall m: nat | m < |js| ensures KeepsAt(js, t, 0, m) {}
  }

  lemma IncludingKeeps(js: seq<Link>, cols: seq<set<string>>, i: nat)
    requires ValidLinks(js) && Keyed(js, cols) && 0 < i <= |js| && !js[i - 1].kind.LeftAnti?
    ensures Keeping(js, cols, Including(js, cols, i))
  {
    IncludingFacts(js, cols, i);
    var t := Including(js, cols, i);
    forall m: nat | m < |js| ensures KeepsAt(js, t, 0, m) {}
  }

  /** An anti join whose table has a row drops the base row. */
  lemma AntiDropsBase(js: seq<Link>, cols: seq<set<string>>, t: seq<seq<Row>>, m: nat)
    requires ValidLinks(js) && Keyed(js, cols) && AllUnit(cols, t) && m < |js| && js[m].kind.LeftAnti? && t[m + 1] != []
    ensures ApartAfter(js, t, |js|, 0, 0)
  {
    var s, ls, rs := KeyStep(js, m), After(KeySteps(js), t, m), t[m + 1];
    AfterNext(KeySteps(js), t, m);
    var ps := LeftPart(s, ls, rs) + RightPart(s, ls, rs, m + 1);
    forall p: JoinedRow | p in ps ensures !ShowsBoth(p, 0, 0) {
      var l := LeftPartFrom(s, ls, rs, p);
      BaseDropped(js, cols, t, m, l, p);
    }
    ApartFor(ps, 0, 0);
    StayApart(js, t, m + 1, |js|, 0, 0);
  }

  lemma BaseDropped(js: seq<Link>, cols: seq<set<string>>, t: seq<seq<Row>>, m: nat, l: JoinedRow, p: JoinedRow)
    requires ValidLinks(js) && Keyed(js, cols) && AllUnit(cols, t) && m < |js| && js[m].kind.LeftAnti? && t[m + 1] != []
    requires OccursAfter(js, t, m, l) && p in Contribution(KeyStep(js, m), l, t[m + 1])
    ensures !ShowsTable(p, 0)
  {
    RowIsUnit(js, cols, t, m, l);
    ContributionShape(KeyStep(js, m), l, t[m + 1]);
    if ShowsTable(p, 0) {
      assert p[0] == p[..m + 1][0];
      OriginIsFirst(l, 0);
      AntiDrops(js, cols, t, m, l);
    }
  }

  lemma RowIsUnit(js: seq<Link>, cols: seq<set<string>>, t: seq<seq<Row>>, n: nat, l: JoinedRow)
    requires |cols| == |js| + 1 && AllUnit(cols, t) && n <= |js| && OccursAfter(js, t, n, l)
    ensures UnitCells(cols, t, l, n + 1)
  {
    UnitCellsAfter(js, cols, t, n);
  }

  /** A table without rows is not shown. */
  lemma EmptyIsApart(js: seq<Link>, cols: seq<set<string>>, t: seq<seq<Row>>, i: nat)
    requires |cols| == |js| + 1 && AllUnit(cols, t) && i <= |js| && t[i] == []
    ensures ApartAfter(js, t, |js|, 0, i)
  {
    forall l | l in After(KeySteps(js), t, |js|) ensures !ShowsBoth(l, 0, i) { RowIsUnit(js, cols, t, |js|, l); }
    ApartFor(After(KeySteps(js), t, |js|), 0, i);
  }

  /** A row over the one database that shows two tables which are apart over the other. */
  lemma TablesDiffer(js: seq<Link>, t: seq<seq<Row>>, t': seq<seq<Row>>, p: JoinedRow, i: nat, k: nat)
    requires |t| == |js| + 1 == |t'| && i <= |js| && k <= |js|
    requires OccursAfter(js, t, |js|, p) && |p| == |js| + 1 && p[i].Here? && p[k].Here?
    requires ApartAfter(js, t', |js|, i, k)
    ensures Eval(KeySteps(js), t) != Eval(KeySteps(js), t')
  {
    AfterAll(KeySteps(js), t);
    AfterAll(KeySteps(js), t');
    if p in Eval(KeySteps(js), t') { ApartAt(Eval(KeySteps(js), t'), i, k, p); }
  }

  /** Whatever kind of join adds table i, its one row makes a difference. */
  lemma TableMatters(js: seq<Link>, cols: seq<set<string>>, i: nat)
    requires ValidLinks(js) && Keyed(js, cols) && 0 < i <= |js|
    ensures Eval(KeySteps(js), Without(js, cols, i)) != Eval(KeySteps(js), Including(js, cols, i))
  {
    var t, t' := Without(js, cols, i), Including(js, cols, i);
    WithoutFacts(js, cols, i);
    IncludingFacts(js, cols, i);
    if js[i - 1].kind.LeftAnti? {
      WithoutKeeps(js, cols, i);
      var p := BaseLasts(js, cols, t, |js|);
      AntiDropsBase(js, cols, t', i - 1);
      TablesDiffer(js, t, t', p, 0, 0);
    } else {
      IncludingKeeps(js, cols, i);
      LivelyTableMatters(js, cols, i, t, t');
    }
  }

  lemma LivelyTableMatters(js: seq<Link>, cols: seq<set<string>>, i: nat, t: seq<seq<Row>>, t': seq<seq<Row>>)
    requires 0 < i <= |js| && !js[i - 1].kind.LeftAnti? && Keeping(js, cols, t') && t'[i] != []
    requires AllUnit(cols, t) && t[i] == []
    ensures Eval(KeySteps(js), t) != Eval(KeySteps(js), t')
  {
    if NeedsRows(js[i - 1].kind) {
      var p := BaseLasts(js, cols, t', |js|);
      BaseGone(js, t, i - 1, |js|);
      TablesDiffer(js, t', t, p, 0, 0);
    } else {
      var p := BaseShows(js, cols, t', i - 1);
      EmptyIsApart(js, cols, t, i);
      TablesDiffer(js, t', t, p, 0, i);
    }
  }
}
