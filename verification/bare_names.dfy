/** Columns read by bare name after the joins, where merged keys are one column. */
module BareNames {
  import opened SqlValues
  import opened SqlQuery
  import opened Joins
  import opened Chains
  import opened Pushing
  import opened Loading
  import opened WhereMeaning

  /** A joined table whose columns stay visible. */
  predicate Shows(k: Kind) { !k.LeftSemi? && !k.LeftAnti? }

  /** Data frames drop the right key columns of a join on differently named keys. */
  predicate Drops(e: Engine, j: Link, column: string) {
    e.DataFrames? && !j.kind.Cross? && !j.merges && Shows(j.kind) && column in j.right
  }

  /** Before join m there is one column named k: every joined table that shows one has merged it. */
  predicate OneColumn(e: Engine, js: seq<Link>, cols: seq<set<string>>, m: nat, k: string)
    requires m < |js| && |cols| == |js| + 1
  {
    forall i: nat | i < m && Shows(js[i].kind) && k in cols[i + 1] && !Drops(e, js[i], k) :: k in Merged(js[i])
  }

  /** After the joins, table i has a column c that is not merged into the base's. */
  predicate OwnColumn(e: Engine, js: seq<Link>, cols: seq<set<string>>, c: string, i: nat)
    requires i < |cols| == |js| + 1
  {
    c in cols[i] && (i > 0 ==> Shows(js[i - 1].kind) && !Drops(e, js[i - 1], c) && c !in Merged(js[i - 1]))
  }

  /** The one column named c after the joins is that of table i. */
  ghost predicate BareOwner(e: Engine, js: seq<Link>, cols: seq<set<string>>, c: string, i: nat) {
    && i < |cols| == |js| + 1 && OwnColumn(e, js, cols, c, i)
    && forall j: nat | j < |cols| && j != i :: !OwnColumn(e, js, cols, c, j)
  }

  /** The column of table i; the base's is merged with those of the tables that were joined USING it. */
  function ColumnValue(js: seq<Link>, row: JoinedRow, c: string, i: nat): Value {
    if i == 0 then Coalesced(row, Source(js, |js|, c), c) else CellValue(row, i, c)
  }

  ghost function BareValue(e: Engine, js: seq<Link>, cols: seq<set<string>>, row: JoinedRow, c: string): Value {
    if exists i: nat :: BareOwner(e, js, cols, c, i) then
      var i: nat :| BareOwner(e, js, cols, c, i);
      ColumnValue(js, row, c, i)
    else Null
  }

  /** What a filter after the joins reads. */
  ghost function BareReader(e: Engine, js: seq<Link>, cols: seq<set<string>>, row: JoinedRow): Reader {
    c => BareValue(e, js, cols, row, c)
  }

  lemma BareValueAt(e: Engine, js: seq<Link>, cols: seq<set<string>>, row: JoinedRow, c: string, i: nat)
    requires BareOwner(e, js, cols, c, i)
    ensures BareReader(e, js, cols, row)(c) == ColumnValue(js, row, c, i)
  {
  }

  // ---- a merged column and the tables it stands for ----

  /**
   * On every row the merged column k has the value it has in table i: table i is the base,
   * or was joined by an inner or right join that merged k, and what later joins that merge k
   * pad is dropped again.
   */
  predicate ReadsAs(js: seq<Link>, k: string, i: nat) {
    && i <= |js|
    && (i == 0 || (k in Merged(js[i - 1]) && (js[i - 1].kind.Inner? || js[i - 1].kind.RightOuter?)))
    && forall x: nat | i < x <= |js| && Pads(js[x - 1].kind) && k in Merged(js[x - 1]) :: Doomed(js, x)
  }

  /** Rows that start with table i or one before it hold the merged value in table i. */
  ghost predicate HoldsAt(js: seq<Link>, n: nat, l: JoinedRow, k: string, i: nat)
    requires i <= n <= |js|
  {
    |l| == n + 1 && Origin(l) <= n && (Origin(l) <= i ==> OriginValue(js, l, k) == CellValue(l, i, k))
  }

  ghost predicate AllHoldAt(js: seq<Link>, n: nat, ls: seq<JoinedRow>, k: string, i: nat)
    requires i <= n <= |js|
  {
    forall l | l in ls :: HoldsAt(js, n, l, k, i)
  }

  /** Extending a row by a cell leaves its origin and the origin's value. */
  lemma OriginValueStays(js: seq<Link>, l: JoinedRow, c: Cell, k: string)
    requires Origin(l) < |l| <= |js|
    ensures Origin(l + [c]) == Origin(l) && OriginValue(js, l + [c], k) == OriginValue(js, l, k)
  {
    OriginAppend(l, c);
  }

  lemma PartnerOf(s: Step, l: JoinedRow, rs: seq<Row>, p: JoinedRow) returns (r: Row)
    requires (s.kind.Inner? || s.kind.RightOuter?) && p in Contribution(s, l, rs)
    ensures On(s, l, r) && p == l + [Here(r)]
  {
    PartnersShape(s, l, rs);
    r :| r in rs && On(s, l, r) && p == l + [Here(r)];
  }

  lemma MatchedHolds(js: seq<Link>, i: nat, l: JoinedRow, r: Row, k: string)
    requires 1 <= i <= |js| && Consistent(js, i - 1, l) && Coalesced(l, Source(js, i - 1, k), k) == Get(r, k)
    ensures HoldsAt(js, i, l + [Here(r)], k, i)
  {
    OriginValueStays(js, l, Here(r), k);
  }

  /** The join that merges k with table i. */
  lemma MergedHolds(js: seq<Link>, i: nat, l: JoinedRow, rs: seq<Row>, p: JoinedRow, k: string)
    requires 1 <= i <= |js| && ValidLinks(js) && Consistent(js, i - 1, l) && k in Merged(js[i - 1])
    requires js[i - 1].kind.Inner? || js[i - 1].kind.RightOuter?
    requires p in Contribution(ColumnStep(js, i - 1), l, rs)
    ensures HoldsAt(js, i, p, k, i)
  {
    var r := PartnerOf(ColumnStep(js, i - 1), l, rs, p);
    MatchedKey(js, i - 1, l, r, k);
    MatchedHolds(js, i, l, r, k);
  }

  lemma PaddedHolds(js: seq<Link>, i: nat, r: Row, k: string)
    requires 1 <= i <= |js| && k in Merged(js[i - 1])
    ensures HoldsAt(js, i, Padding(i) + [Here(r)], k, i)
  {
    OriginOfPadded(i, r);
  }

  lemma JoinHolds(js: seq<Link>, i: nat, ls: seq<JoinedRow>, rs: seq<Row>, k: string)
    requires 1 <= i <= |js| && ValidLinks(js) && AllConsistent(js, i - 1, ls) && k in Merged(js[i - 1])
    requires js[i - 1].kind.Inner? || js[i - 1].kind.RightOuter?
    ensures var s := ColumnStep(js, i - 1); AllHoldAt(js, i, LeftPart(s, ls, rs) + RightPart(s, ls, rs, i), k, i)
  {
    var s := ColumnStep(js, i - 1);
    var ps := LeftPart(s, ls, rs) + RightPart(s, ls, rs, i);
    forall p: JoinedRow | p in ps ensures HoldsAt(js, i, p, k, i) {
      if p in LeftPart(s, ls, rs) {
        var l := LeftPartFrom(s, ls, rs, p);
        MergedHolds(js, i, l, rs, p, k);
      } else {
        UnmatchedFrom(s, ls, rs, i, p);
        var r :| r in rs && p == Padding(i) + [Here(r)];
        PaddedHolds(js, i, r, k);
      }
    }
  }

  /** Later joins leave the two values as they are. */
  lemma StaysHeld(js: seq<Link>, n: nat, s: Step, l: JoinedRow, rs: seq<Row>, p: JoinedRow, k: string, i: nat)
    requires i <= n < |js| && HoldsAt(js, n, l, k, i) && p in Contribution(s, l, rs)
    ensures HoldsAt(js, n + 1, p, k, i)
  {
    ContributionContinues(s, l, rs, p);
    ContinuesShape(s, l, rs, p);
    assert p == l + [p[n + 1]];
    OriginAppend(l, p[n + 1]);
    assert p[i] == l[i] && p[Origin(l)] == l[Origin(l)];
  }

  lemma LaterHolds(js: seq<Link>, n: nat, ls: seq<JoinedRow>, rs: seq<Row>, k: string, i: nat)
    requires i <= n < |js| && AllHoldAt(js, n, ls, k, i)
    ensures var s := ColumnStep(js, n); AllHoldAt(js, n + 1, LeftPart(s, ls, rs) + RightPart(s, ls, rs, n + 1), k, i)
  {
    var s := ColumnStep(js, n);
    var ps := LeftPart(s, ls, rs) + RightPart(s, ls, rs, n + 1);
    forall p: JoinedRow | p in ps ensures HoldsAt(js, n + 1, p, k, i) {
      if p in LeftPart(s, ls, rs) {
        var l := LeftPartFrom(s, ls, rs, p);
        StaysHeld(js, n, s, l, rs, p, k, i);
      } else {
        UnmatchedFrom(s, ls, rs, n + 1, p);
        var r :| r in rs && p == Padding(n + 1) + [Here(r)];
        OriginOfPadded(n + 1, r);
      }
    }
  }

  lemma BaseHolds(js: seq<Link>, rs: seq<Row>, k: string)
    ensures AllHoldAt(js, 0, Lifted(rs), k, 0)
  {
  }

  ghost predicate HeldAfter(js: seq<Link>, tables: seq<seq<Row>>, n: nat, k: string, i: nat)
    requires |tables| == |js| + 1 && i <= n <= |js|
  {
    AllHoldAt(js, n, After(ColumnSteps(js), tables, n), k, i)
  }

  lemma HeldAtOnce(js: seq<Link>, tables: seq<seq<Row>>, k: string, i: nat)
    requires ValidLinks(js) && |tables| == |js| + 1 && i <= |js|
    requires i == 0 || (k in Merged(js[i - 1]) && (js[i - 1].kind.Inner? || js[i - 1].kind.RightOuter?))
    ensures HeldAfter(js, tables, i, k, i)
  {
    if i == 0 {
      AfterNone(ColumnSteps(js), tables);
      BaseHolds(js, tables[0], k);
    } else {
      AfterNext(ColumnSteps(js), tables, i - 1);
      ExecutedAfter(js, tables, i - 1);
      JoinHolds(js, i, After(ColumnSteps(js), tables, i - 1), tables[i], k);
    }
  }

  lemma HeldNext(js: seq<Link>, tables: seq<seq<Row>>, n: nat, k: string, i: nat)
    requires |tables| == |js| + 1 && i <= n < |js| && HeldAfter(js, tables, n, k, i)
    ensures HeldAfter(js, tables, n + 1, k, i)
  {
    AfterNext(ColumnSteps(js), tables, n);
    LaterHolds(js, n, After(ColumnSteps(js), tables, n), tables[n + 1], k, i);
  }

  lemma {:induction false} HeldFrom(js: seq<Link>, tables: seq<seq<Row>>, n: nat, k: string, i: nat)
    requires ValidLinks(js) && |tables| == |js| + 1 && i <= n <= |js|
    requires i == 0 || (k in Merged(js[i - 1]) && (js[i - 1].kind.Inner? || js[i - 1].kind.RightOuter?))
    ensures HeldAfter(js, tables, n, k, i)
    decreases n
  {
    if n == i {
      HeldAtOnce(js, tables, k, i);
    } else {
      HeldFrom(js, tables, n - 1, k, i);
      HeldNext(js, tables, n - 1, k, i);
    }
  }

  lemma HeldRowReads(js: seq<Link>, l: JoinedRow, k: string, i: nat)
    requires ReadsAs(js, k, i) && HoldsAt(js, |js|, l, k, i)
    requires Origin(l) > 0 ==> Pads(js[Origin(l) - 1].kind) && !Doomed(js, Origin(l))
    ensures OriginValue(js, l, k) == CellValue(l, i, k)
  {
    var x := Origin(l);
    if x > i {
      OriginIsFirst(l, i);
      LaterIsDoomed(js, k, i, x);
    }
  }

  lemma NotDoomedRow(js: seq<Link>, l: JoinedRow)
    requires NotKilled(js, |js|, l)
    ensures |l| == |js| + 1 && Origin(l) <= |js|
    ensures Origin(l) > 0 ==> Pads(js[Origin(l) - 1].kind) && !Doomed(js, Origin(l))
  {
  }

  lemma LaterIsDoomed(js: seq<Link>, k: string, i: nat, x: nat)
    requires ReadsAs(js, k, i) && i < x <= |js| && Pads(js[x - 1].kind)
    ensures k in Merged(js[x - 1]) ==> Doomed(js, x)
  {
  }

  /** The merged column has the value of table i on every row of the chain. */
  lemma MergedReads(js: seq<Link>, tables: seq<seq<Row>>, k: string, i: nat, l: JoinedRow)
    requires ValidLinks(js) && |tables| == |js| + 1 && ReadsAs(js, k, i) && l in Eval(KeySteps(js), tables)
    ensures Coalesced(l, Source(js, |js|, k), k) == CellValue(l, i, k)
  {
    AfterAll(KeySteps(js), tables);
    ExecutedAfter(js, tables, |js|);
    HeldFrom(js, tables, |js|, k, i);
    RowsNotKilled(js, tables, |js|);
    NotDoomedRow(js, l);
    HeldRowReads(js, l, k, i);
  }

  /** The bare name c means the column of table i. */
  ghost predicate BareMeans(e: Engine, js: seq<Link>, cols: seq<set<string>>, c: string, i: nat) {
    exists w: nat :: BareOwner(e, js, cols, c, w) && ((w == i && i > 0) || (w == 0 && ReadsAs(js, c, i)))
  }

  lemma BareReads(e: Engine, js: seq<Link>, cols: seq<set<string>>, tables: seq<seq<Row>>, c: string, i: nat,
                  l: JoinedRow)
    requires ValidLinks(js) && |tables| == |js| + 1 && BareMeans(e, js, cols, c, i) && l in Eval(KeySteps(js), tables)
    ensures BareReader(e, js, cols, l)(c) == CellValue(l, i, c)
  {
    var w: nat :| BareOwner(e, js, cols, c, w) && ((w == i && i > 0) || (w == 0 && ReadsAs(js, c, i)));
    BareValueAt(e, js, cols, l, c, w);
    if w == 0 { MergedReads(js, tables, c, i, l); }
  }
}
