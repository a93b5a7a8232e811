/** Tables of at most one row that tell a query's chain and its draft's apart. */
module ChainWitness {
  import opened SqlValues
  import opened SqlQuery
  import opened Joins
  import opened Chains

  // ---- tables of one row ----

  /** The row that holds the same value in every column. */
  function UnitRow(cols: set<string>): (r: Row)
    ensures r.Keys == cols
  {
    map c | c in cols :: Val("1")
  }

  /** One row per table from the first on, but for the empty ones. */
  function UnitTables(cols: seq<set<string>>, first: nat, empty: set<nat>): (r: seq<seq<Row>>)
    ensures |r| == |cols|
    ensures forall i | 0 <= i < |r| :: r[i] == if i < first || i in empty then [] else [UnitRow(cols[i])]
  {
    seq(|cols|, i requires 0 <= i < |cols| => if i < first || i in empty then [] else [UnitRow(cols[i])])
  }

  /** Every key is a column of its table. */
  predicate Keyed(js: seq<Link>, cols: seq<set<string>>) {
    && |cols| == |js| + 1
    && forall m | 0 <= m < |js| && !js[m].kind.Cross? ::
         (forall k | k in js[m].left :: k in cols[0]) && forall k | k in js[m].right :: k in cols[m + 1]
  }

  /** Tables with at most their unit row. */
  predicate AllUnit(cols: seq<set<string>>, tables: seq<seq<Row>>) {
    |cols| == |tables| && forall i | 0 <= i < |tables| :: tables[i] == [] || tables[i] == [UnitRow(cols[i])]
  }

  /** The tables up to q are empty. */
  predicate EmptyTo(t: seq<seq<Row>>, q: nat) { forall i | 0 <= i <= q && i < |t| :: t[i] == [] }

  /** The tables present in a joined row of w tables are not empty, and show their unit rows. */
  predicate UnitCells(cols: seq<set<string>>, tables: seq<seq<Row>>, l: JoinedRow, w: nat)
    requires w <= |cols| == |tables|
  {
    && |l| == w && Origin(l) < w
    && forall i | 0 <= i < w && l[i].Here? :: l[i].row == UnitRow(cols[i]) && tables[i] != []
  }

  ghost predicate AllUnitCells(cols: seq<set<string>>, tables: seq<seq<Row>>, ls: seq<JoinedRow>, w: nat)
    requires w <= |cols| == |tables|
  {
    forall l | l in ls :: UnitCells(cols, tables, l, w)
  }

  lemma UnitMatch(b: set<string>, c: set<string>, kl: seq<string>, kr: seq<string>)
    requires |kl| == |kr| && (forall k | k in kl :: k in b) && forall k | k in kr :: k in c
    ensures KeysMatch(UnitRow(b), UnitRow(c), kl, kr)
  {
    forall i | 0 <= i < |kl| ensures Get(UnitRow(b), kl[i]) == Val("1") == Get(UnitRow(c), kr[i]) {
      assert kl[i] in kl && kr[i] in kr;
    }
  }

  /** Unit rows match exactly when the joined row carries the keys. */
  lemma UnitOn(js: seq<Link>, cols: seq<set<string>>, tables: seq<seq<Row>>, n: nat, l: JoinedRow)
    requires ValidLinks(js) && Keyed(js, cols) && |tables| == |cols| && n < |js| && UnitCells(cols, tables, l, n + 1)
    ensures On(KeyStep(js, n), l, UnitRow(cols[n + 1])) <==> js[n].kind.Cross? || Carries(js, Origin(l), n)
  {
    var x := Origin(l);
    assert x in Carriers(js, n) <==> Carries(js, x, n);
    if !js[n].kind.Cross? && Carries(js, x, n) {
      OriginPresent(l);
      assert forall k | k in js[n].left :: k in cols[x] by {
        if x > 0 { MergedColumns(js, cols, x); }
      }
      UnitMatch(cols[x], cols[n + 1], js[n].left, js[n].right);
    }
  }

  lemma {:induction false} OriginPresent(l: JoinedRow)
    requires Origin(l) < |l|
    ensures l[Origin(l)].Here?
  {
    if l[0].Gone? { OriginPresent(l[1..]); }
  }

  lemma MergedColumns(js: seq<Link>, cols: seq<set<string>>, x: nat)
    requires ValidLinks(js) && Keyed(js, cols) && 1 <= x <= |js| && js[x - 1].merges
    ensures forall k | k in js[x - 1].left :: k in cols[x]
  {
    assert ValidLink(js[x - 1]);
  }

  lemma ContinuedUnitCells(cols: seq<set<string>>, tables: seq<seq<Row>>, s: Step, n: nat, l: JoinedRow, p: JoinedRow)
    requires n + 1 < |cols| && AllUnit(cols, tables) && UnitCells(cols, tables, l, n + 1)
    requires p in Contribution(s, l, tables[n + 1])
    ensures UnitCells(cols, tables, p, n + 2)
  {
    ContributionShape(s, l, tables[n + 1]);
    assert p == l + [p[n + 1]] by { assert p[..n + 1] == l; }
    assert Continues(s, l, tables[n + 1], p);
  }

  lemma NextUnitCells(js: seq<Link>, cols: seq<set<string>>, tables: seq<seq<Row>>, n: nat, ls: seq<JoinedRow>)
    requires |cols| == |js| + 1 && AllUnit(cols, tables) && n < |js| && AllUnitCells(cols, tables, ls, n + 1)
    ensures var s := KeyStep(js, n);
            AllUnitCells(cols, tables, LeftPart(s, ls, tables[n + 1]) + RightPart(s, ls, tables[n + 1], n + 1), n + 2)
  {
    var s, rs := KeyStep(js, n), tables[n + 1];
    var ps := LeftPart(s, ls, rs) + RightPart(s, ls, rs, n + 1);
    forall p: JoinedRow | p in ps ensures UnitCells(cols, tables, p, n + 2) {
      if p in LeftPart(s, ls, rs) {
        var l := LeftPartFrom(s, ls, rs, p);
        assert UnitCells(cols, tables, l, n + 1);
        ContinuedUnitCells(cols, tables, s, n, l, p);
      } else {
        UnmatchedFrom(s, ls, rs, n + 1, p);
        var r :| r in rs && p == Padding(n + 1) + [Here(r)];
        OriginOfPadded(n + 1, r);
      }
    }
  }

  lemma {:induction false} UnitCellsAfter(js: seq<Link>, cols: seq<set<string>>, tables: seq<seq<Row>>, n: nat)
    requires |cols| == |js| + 1 && AllUnit(cols, tables) && n <= |js|
    ensures AllUnitCells(cols, tables, After(KeySteps(js), tables, n), n + 1)
  {
    if n == 0 {
      AfterNone(KeySteps(js), tables);
    } else {
      UnitCellsAfter(js, cols, tables, n - 1);
      AfterNext(KeySteps(js), tables, n - 1);
      NextUnitCells(js, cols, tables, n - 1, After(KeySteps(js), tables, n - 1));
    }
  }

  // ---- a row that lasts ----

  /** Join m keeps the rows that start with table x: it finds a partner where it needs one, and none where it must not. */
  predicate KeepsAt(js: seq<Link>, tables: seq<seq<Row>>, x: nat, m: nat)
    requires m < |js| && |tables| == |js| + 1
  {
    && (js[m].kind.Cross? ==> tables[m + 1] != [])
    && (Demands(js[m].kind) ==> Carries(js, x, m) && tables[m + 1] != [])
    && (js[m].kind.LeftAnti? ==> tables[m + 1] == [] || !Carries(js, x, m))
  }

  /** Every later join keeps the rows that start with table x. */
  predicate AllKeep(js: seq<Link>, t: seq<seq<Row>>, x: nat, n: nat)
    requires |t| == |js| + 1
  {
    forall m: nat | n <= m < |js| :: KeepsAt(js, t, x, m)
  }

  /** The row after one more join: with its partner, if it has one and the join shows it. */
  lemma RowGoesOn(js: seq<Link>, cols: seq<set<string>>, tables: seq<seq<Row>>, n: nat, l: JoinedRow)
                  returns (p: JoinedRow)
    requires ValidLinks(js) && Keyed(js, cols) && AllUnit(cols, tables) && n < |js|
    requires UnitCells(cols, tables, l, n + 1) && KeepsAt(js, tables, Origin(l), n)
    ensures p in Contribution(KeyStep(js, n), l, tables[n + 1]) && |p| == n + 2 && p[..n + 1] == l
            && Origin(p) == Origin(l)
    ensures Carries(js, Origin(l), n) && tables[n + 1] != [] && !js[n].kind.LeftSemi? ==> p[n + 1].Here?
  {
    var s, rs := KeyStep(js, n), tables[n + 1];
    UnitOn(js, cols, tables, n, l);
    PartnersShape(s, l, rs);
    var ps := Contribution(s, l, rs);
    OneOrNone(s, l, rs);
    assert ps != [];
    p := ps[0];
    ContributionShape(s, l, rs);
    assert p in ps && Continues(s, l, rs, p);
  }

  lemma OneOrNone(s: Step, l: JoinedRow, rs: seq<Row>)
    requires |rs| <= 1
    ensures Partners(s, l, rs) == if rs != [] && On(s, l, rs[0]) then [l + [Here(rs[0])]] else []
  {
    if rs != [] { assert Partners(s, l, rs[1..]) == []; }
  }

  lemma {:induction false} LeftPartHas(s: Step, ls: seq<JoinedRow>, rs: seq<Row>, l: JoinedRow, p: JoinedRow)
    requires l in ls && p in Contribution(s, l, rs)
    ensures p in LeftPart(s, ls, rs)
  {
    if l != ls[0] { LeftPartHas(s, ls[1..], rs, l, p); }
  }

  lemma RowStays(js: seq<Link>, cols: seq<set<string>>, tables: seq<seq<Row>>, n: nat, l: JoinedRow)
    returns (p: JoinedRow)
    requires ValidLinks(js) && Keyed(js, cols) && AllUnit(cols, tables) && n < |js|
    requires OccursAfter(js, tables, n, l) && KeepsAt(js, tables, Origin(l), n)
    ensures OccursAfter(js, tables, n + 1, p) && |p| == n + 2 && p[..n + 1] == l && Origin(p) == Origin(l)
    ensures Origin(l) <= n
    ensures Carries(js, Origin(l), n) && tables[n + 1] != [] && !js[n].kind.LeftSemi? ==> p[n + 1].Here?
  {
    UnitCellsAfter(js, cols, tables, n);
    assert UnitCells(cols, tables, l, n + 1);
    p := RowGoesOn(js, cols, tables, n, l);
    AfterNext(KeySteps(js), tables, n);
    LeftPartHas(KeyStep(js, n), After(KeySteps(js), tables, n), tables[n + 1], l, p);
  }

  /** p is the row l after the joins from n on, with every partner they show. */
  predicate GrownFrom(js: seq<Link>, tables: seq<seq<Row>>, n: nat, l: JoinedRow, last: nat, p: JoinedRow)
    requires n <= last <= |js| && |tables| == |js| + 1
  {
    && |l| == n + 1 && |p| == last + 1 && Origin(p) == Origin(l)
    && (forall i | 0 <= i <= n :: p[i] == l[i])
    && forall m: nat | n <= m < last && Carries(js, Origin(l), m) && tables[m + 1] != [] && !js[m].kind.LeftSemi? ::
         p[m + 1].Here?
  }

  lemma GrownOnce(js: seq<Link>, tables: seq<seq<Row>>, n: nat, l: JoinedRow, last: nat, p0: JoinedRow, p: JoinedRow)
    requires n < last <= |js| && |tables| == |js| + 1 && GrownFrom(js, tables, n, l, last - 1, p0)
    requires |p| == last + 1 && p[..last] == p0 && Origin(p) == Origin(p0)
    requires Carries(js, Origin(l), last - 1) && tables[last] != [] && !js[last - 1].kind.LeftSemi? ==> p[last].Here?
    ensures GrownFrom(js, tables, n, l, last, p)
  {
    forall i | 0 <= i < last ensures p[i] == p0[i] { assert p[i] == p[..last][i]; }
  }

  ghost predicate OccursAfter(js: seq<Link>, tables: seq<seq<Row>>, n: nat, l: JoinedRow)
    requires |tables| == |js| + 1 && n <= |js|
  {
    l in After(KeySteps(js), tables, n)
  }

  /** A row kept by all later joins is in the result, its later partners behind it. */
  lemma {:induction false} RowLasts(js: seq<Link>, cols: seq<set<string>>, tables: seq<seq<Row>>, n: nat, l: JoinedRow,
                                    last: nat)
    returns (p: JoinedRow)
    requires ValidLinks(js) && Keyed(js, cols) && AllUnit(cols, tables) && n <= last <= |js|
    requires OccursAfter(js, tables, n, l)
    requires AllKeep(js, tables, Origin(l), n)
    ensures OccursAfter(js, tables, last, p) && GrownFrom(js, tables, n, l, last, p)
    decreases last
  {
    if n == last {
      p := l;
      RowWidth(js, cols, tables, n, l);
    } else {
      var p0 := RowLasts(js, cols, tables, n, l, last - 1);
      p := RowStays(js, cols, tables, last - 1, p0);
      GrownOnce(js, tables, n, l, last, p0, p);
    }
  }

  lemma RowWidth(js: seq<Link>, cols: seq<set<string>>, tables: seq<seq<Row>>, n: nat, l: JoinedRow)
    requires |cols| == |js| + 1 && AllUnit(cols, tables) && n <= |js| && OccursAfter(js, tables, n, l)
    ensures |l| == n + 1 && Origin(l) <= n
  {
    UnitCellsAfter(js, cols, tables, n);
    assert UnitCells(cols, tables, l, n + 1);
  }

  /** A padded row of a table that nothing before it can match. */
  lemma PadsUnit(js: seq<Link>, cols: seq<set<string>>, tables: seq<seq<Row>>, q: nat)
    requires AllUnit(cols, tables) && |cols| == |js| + 1 && q < |js| && Pads(js[q].kind) && tables[q + 1] != []
    requires EmptyTo(tables, q)
    ensures Padding(q + 1) + [Here(UnitRow(cols[q + 1]))] in After(KeySteps(js), tables, q + 1)
  {
    var s, left := KeyStep(js, q), After(KeySteps(js), tables, q);
    NothingYet(js, cols, tables, q);
    AfterNext(KeySteps(js), tables, q);
    var u := UnitRow(cols[q + 1]);
    assert tables[q + 1] == [u];
    assert !Matched(s, left, u);
    assert Unmatched(s, left, [u], q + 1) == [Padding(q + 1) + [Here(u)]] + Unmatched(s, left, [u][1..], q + 1);
  }

  lemma NothingYet(js: seq<Link>, cols: seq<set<string>>, tables: seq<seq<Row>>, n: nat)
    requires AllUnit(cols, tables) && |cols| == |js| + 1 && n <= |js| && EmptyTo(tables, n)
    ensures After(KeySteps(js), tables, n) == []
  {
    UnitCellsAfter(js, cols, tables, n);
    var ls := After(KeySteps(js), tables, n);
    if ls != [] {
      assert ls[0] in ls && UnitCells(cols, tables, ls[0], n + 1);
      OriginPresent(ls[0]);
    }
  }

  // ---- rows that do not occur ----

  /** No row shows both tables. */
  predicate Apart(ls: seq<JoinedRow>, i: nat, k: nat) {
    ls == [] || (!ShowsBoth(ls[0], i, k) && Apart(ls[1..], i, k))
  }

  predicate ShowsBoth(l: JoinedRow, i: nat, k: nat) { ShowsTable(l, i) && ShowsTable(l, k) }

  lemma {:induction false} ApartFor(ls: seq<JoinedRow>, i: nat, k: nat)
    requires forall l | l in ls :: !ShowsBoth(l, i, k)
    ensures Apart(ls, i, k)
  {
    if ls != [] {
      assert ls[0] in ls && forall l | l in ls[1..] :: l in ls;
      ApartFor(ls[1..], i, k);
    }
  }

  lemma {:induction false} ApartAt(ls: seq<JoinedRow>, i: nat, k: nat, l: JoinedRow)
    requires Apart(ls, i, k) && l in ls
    ensures !ShowsBoth(l, i, k)
  {
    if l != ls[0] { ApartAt(ls[1..], i, k, l); }
  }

  predicate ShowsTable(l: JoinedRow, i: nat) { i < |l| && l[i].Here? }

  ghost predicate ApartAfter(js: seq<Link>, tables: seq<seq<Row>>, n: nat, i: nat, k: nat)
    requires |tables| == |js| + 1 && n <= |js|
  {
    Apart(After(KeySteps(js), tables, n), i, k)
  }

  lemma ApartOnce(js: seq<Link>, tables: seq<seq<Row>>, n: nat, i: nat, k: nat)
    requires |tables| == |js| + 1 && n < |js| && i <= n && k <= n && ApartAfter(js, tables, n, i, k)
    ensures ApartAfter(js, tables, n + 1, i, k)
  {
    AfterNext(KeySteps(js), tables, n);
    AfterShaped(KeySteps(js), tables, n);
    NextApart(KeyStep(js, n), After(KeySteps(js), tables, n), tables[n + 1], n + 1, i, k);
  }

  lemma {:induction false} StayApart(js: seq<Link>, tables: seq<seq<Row>>, n: nat, last: nat, i: nat, k: nat)
    requires |tables| == |js| + 1 && n <= last <= |js| && i <= n && k <= n
    requires ApartAfter(js, tables, n, i, k)
    ensures ApartAfter(js, tables, last, i, k)
    decreases last
  {
    if n < last {
      StayApart(js, tables, n, last - 1, i, k);
      ApartOnce(js, tables, last - 1, i, k);
    }
  }

  lemma NextApart(s: Step, ls: seq<JoinedRow>, rs: seq<Row>, w: nat, i: nat, k: nat)
    requires Shaped(ls, w) && Apart(ls, i, k) && i < w && k < w
    ensures Apart(LeftPart(s, ls, rs) + RightPart(s, ls, rs, w), i, k)
  {
    var ps := LeftPart(s, ls, rs) + RightPart(s, ls, rs, w);
    forall p: JoinedRow | p in ps ensures !ShowsBoth(p, i, k) {
      if p in LeftPart(s, ls, rs) {
        var l := LeftPartFrom(s, ls, rs, p);
        ApartAt(ls, i, k, l);
        ContributionShape(s, l, rs);
        assert p[i] == p[..w][i] && p[k] == p[..w][k];
      } else {
        UnmatchedFrom(s, ls, rs, w, p);
      }
    }
    ApartFor(ps, i, k);
  }

  /** Before table q + 1 there is nothing, so a row that shows it starts with it. */
  lemma StartsThere(js: seq<Link>, cols: seq<set<string>>, tables: seq<seq<Row>>, n: nat, q: nat, l: JoinedRow)
    requires |cols| == |js| + 1 && AllUnit(cols, tables) && q < n <= |js| && EmptyTo(tables, q)
    requires OccursAfter(js, tables, n, l)
    ensures UnitCells(cols, tables, l, n + 1) && (l[q + 1].Here? ==> Origin(l) == q + 1)
  {
    UnitCellsAfter(js, cols, tables, n);
    assert UnitCells(cols, tables, l, n + 1);
    OriginPresent(l);
    OriginIsFirst(l, q + 1);
  }

  /** A row that goes on shows table q + 1 if it did, and then starts with it. */
  lemma GoesOnShowing(js: seq<Link>, cols: seq<set<string>>, tables: seq<seq<Row>>, q: nat, m: nat, l: JoinedRow,
                      p: JoinedRow)
    requires |cols| == |js| + 1 && AllUnit(cols, tables) && q < m < |js| && EmptyTo(tables, q)
    requires OccursAfter(js, tables, m, l) && p in Contribution(KeyStep(js, m), l, tables[m + 1])
    ensures UnitCells(cols, tables, l, m + 1) && |p| == m + 2 && p[q + 1] == l[q + 1]
    ensures p[q + 1].Here? ==> Origin(l) == q + 1
  {
    StartsThere(js, cols, tables, m, q, l);
    ContributionShape(KeyStep(js, m), l, tables[m + 1]);
    assert p[q + 1] == p[..m + 1][q + 1];
  }

  lemma UnmatchedRowApart(js: seq<Link>, cols: seq<set<string>>, tables: seq<seq<Row>>, q: nat, m: nat, l: JoinedRow,
                          p: JoinedRow)
    requires ValidLinks(js) && Keyed(js, cols) && AllUnit(cols, tables) && q < m < |js|
    requires EmptyTo(tables, q) && !Carries(js, q + 1, m) && !js[m].kind.Cross?
    requires OccursAfter(js, tables, m, l) && p in Contribution(KeyStep(js, m), l, tables[m + 1])
    ensures |p| == m + 2 && (p[q + 1].Here? ==> p[m + 1].Gone? && !Demands(js[m].kind))
  {
    GoesOnShowing(js, cols, tables, q, m, l, p);
    if p[q + 1].Here? { NoPartner(js, cols, tables, m, l, p); }
  }

  /** A join the rows that start with table q + 1 do not match leaves that table and the joined one apart. */
  lemma UnmatchedApart(js: seq<Link>, cols: seq<set<string>>, tables: seq<seq<Row>>, q: nat, m: nat)
    requires ValidLinks(js) && Keyed(js, cols) && AllUnit(cols, tables) && q < m < |js|
    requires EmptyTo(tables, q) && !Carries(js, q + 1, m) && !js[m].kind.Cross?
    ensures ApartAfter(js, tables, m + 1, q + 1, m + 1)
    ensures Demands(js[m].kind) ==> ApartAfter(js, tables, m + 1, q + 1, q + 1)
  {
    var s, ls, rs := KeyStep(js, m), After(KeySteps(js), tables, m), tables[m + 1];
    AfterNext(KeySteps(js), tables, m);
    var ps := LeftPart(s, ls, rs) + RightPart(s, ls, rs, m + 1);
    forall p: JoinedRow | p in ps ensures LeavesOff(p, q, m, Demands(js[m].kind)) {
      if p in LeftPart(s, ls, rs) {
        var l := LeftPartFrom(s, ls, rs, p);
        UnmatchedRowApart(js, cols, tables, q, m, l, p);
      } else {
        UnmatchedFrom(s, ls, rs, m + 1, p);
      }
    }
    LeftOff(ps, q, m, Demands(js[m].kind));
  }

  /** If the row shows table q + 1, it does not show table m + 1, and the join demands no partner. */
  predicate LeavesOff(p: JoinedRow, q: nat, m: nat, demands: bool) {
    q < m && |p| == m + 2 && (p[q + 1].Here? ==> p[m + 1].Gone? && !demands)
  }

  lemma LeftOff(ps: seq<JoinedRow>, q: nat, m: nat, demands: bool)
    requires forall p | p in ps :: LeavesOff(p, q, m, demands)
    ensures Apart(ps, q + 1, m + 1) && (demands ==> Apart(ps, q + 1, q + 1))
  {
    forall p | p in ps ensures !ShowsBoth(p, q + 1, m + 1) && (demands ==> !ShowsBoth(p, q + 1, q + 1)) {
      assert LeavesOff(p, q, m, demands);
    }
    ApartFor(ps, q + 1, m + 1);
    if demands { ApartFor(ps, q + 1, q + 1); }
  }

  /** A row has at most one partner. */
  lemma UnitPartners(js: seq<Link>, cols: seq<set<string>>, tables: seq<seq<Row>>, m: nat, l: JoinedRow)
    requires ValidLinks(js) && Keyed(js, cols) && AllUnit(cols, tables) && m < |js| && UnitCells(cols, tables, l, m + 1)
    requires !js[m].kind.Cross?
    ensures Partners(KeyStep(js, m), l, tables[m + 1])
            == if tables[m + 1] != [] && Carries(js, Origin(l), m) then [l + [Here(UnitRow(cols[m + 1]))]] else []
  {
    UnitOn(js, cols, tables, m, l);
    OneOrNone(KeyStep(js, m), l, tables[m + 1]);
  }

  lemma NoPartner(js: seq<Link>, cols: seq<set<string>>, tables: seq<seq<Row>>, m: nat, l: JoinedRow, p: JoinedRow)
    requires ValidLinks(js) && Keyed(js, cols) && AllUnit(cols, tables) && m < |js|
    requires UnitCells(cols, tables, l, m + 1) && p in Contribution(KeyStep(js, m), l, tables[m + 1])
    requires !Carries(js, Origin(l), m) && !js[m].kind.Cross?
    ensures p == l + [Gone] && !Demands(js[m].kind)
  {
    UnitPartners(js, cols, tables, m, l);
  }

  lemma AntiDrops(js: seq<Link>, cols: seq<set<string>>, tables: seq<seq<Row>>, m: nat, l: JoinedRow)
    requires ValidLinks(js) && Keyed(js, cols) && AllUnit(cols, tables) && m < |js|
    requires UnitCells(cols, tables, l, m + 1) && Carries(js, Origin(l), m)
    requires js[m].kind.LeftAnti? && tables[m + 1] != []
    ensures Contribution(KeyStep(js, m), l, tables[m + 1]) == []
  {
    UnitPartners(js, cols, tables, m, l);
  }

  /** An anti join drops the rows that start with table q + 1 when they match. */
  lemma AntiApart(js: seq<Link>, cols: seq<set<string>>, tables: seq<seq<Row>>, q: nat, m: nat)
    requires ValidLinks(js) && Keyed(js, cols) && AllUnit(cols, tables) && q < m < |js|
    requires EmptyTo(tables, q) && Carries(js, q + 1, m)
    requires js[m].kind.LeftAnti? && tables[m + 1] != []
    ensures ApartAfter(js, tables, m + 1, q + 1, q + 1)
  {
    var s, ls, rs := KeyStep(js, m), After(KeySteps(js), tables, m), tables[m + 1];
    AfterNext(KeySteps(js), tables, m);
    var ps := LeftPart(s, ls, rs) + RightPart(s, ls, rs, m + 1);
    forall p: JoinedRow | p in ps ensures |p| == m + 2 && p[q + 1].Gone? {
      var l := LeftPartFrom(s, ls, rs, p);
      GoesOnShowing(js, cols, tables, q, m, l, p);
      if p[q + 1].Here? { AntiDrops(js, cols, tables, m, l); }
    }
    ApartFor(ps, q + 1, q + 1);
  }

  /** Joins that leave nothing when their table is empty. */
  predicate NeedsRows(k: Kind) { k.Inner? || k.Cross? || k.RightOuter? || k.LeftSemi? }

  /** An inner, cross, right or semi join with an empty table leaves nothing. */
  lemma EmptyJoin(js: seq<Link>, tables: seq<seq<Row>>, m: nat)
    requires |tables| == |js| + 1 && m < |js| && tables[m + 1] == [] && NeedsRows(js[m].kind)
    ensures After(KeySteps(js), tables, m + 1) == []
  {
    AfterNext(KeySteps(js), tables, m);
    NoLeftRows(KeyStep(js, m), After(KeySteps(js), tables, m));
  }

  lemma {:induction false} NoLeftRows(s: Step, ls: seq<JoinedRow>)
    requires NeedsRows(s.kind)
    ensures LeftPart(s, ls, []) == []
  {
    if ls != [] { NoLeftRows(s, ls[1..]); }
  }
}
