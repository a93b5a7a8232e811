/** Exactly when a column read by bare name after the joins still means the table it was qualified with. */
module BareExact {
  import opened SqlValues
  import opened SqlQuery
  import opened Joins
  import opened Chains
  import opened Pushing
  import opened ChainWitness
  import opened ChainCases
  import opened BareNames
  import opened PushDownWitness

  /** Over any tables, the merged column k has the value of table i on every row. */
  ghost predicate AlwaysReads(js: seq<Link>, k: string, i: nat) {
    forall t: seq<seq<Row>>, l | |t| == |js| + 1 && l in Eval(ColumnSteps(js), t) ::
      Coalesced(l, Source(js, |js|, k), k) == CellValue(l, i, k)
  }

  /** k is a key that table i, or if that is the base some visible table, is merged on. */
  ghost predicate MergesKey(js: seq<Link>, k: string, i: nat) {
    && i <= |js|
    && (if i == 0 then exists m :: 0 <= m < |js| && k in Merged(js[m])
        else k in Merged(js[i - 1]) && Shows(js[i - 1].kind))
  }

  lemma ReadsAlways(js: seq<Link>, k: string, i: nat)
    requires ValidLinks(js) && ReadsAs(js, k, i)
    ensures AlwaysReads(js, k, i)
  {
    forall t: seq<seq<Row>>, l | |t| == |js| + 1 && l in Eval(ColumnSteps(js), t)
      ensures Coalesced(l, Source(js, |js|, k), k) == CellValue(l, i, k)
    {
      ExecutedChain(js, t);
      MergedReads(js, t, k, i, l);
    }
  }

  lemma KeyIsBaseColumn(js: seq<Link>, cols: seq<set<string>>, k: string, m: nat)
    requires Keyed(js, cols) && ValidLinks(js) && m < |js| && k in Merged(js[m])
    ensures k in cols[0] && k in cols[m + 1]
  {
  }

  /** A row of the chain, what its merged column holds, and what its table i does. */
  lemma RowReads(js: seq<Link>, cols: seq<set<string>>, t: seq<seq<Row>>, k: string, l: JoinedRow)
    requires ValidLinks(js) && |cols| == |js| + 1 && AllUnit(cols, t) && OccursAfter(js, t, |js|, l)
    ensures |l| == |js| + 1 && Origin(l) <= |js| && l in Eval(ColumnSteps(js), t)
    ensures Coalesced(l, Source(js, |js|, k), k) == OriginValue(js, l, k)
    ensures UnitCells(cols, t, l, |js| + 1)
  {
    RowIsUnit(js, cols, t, |js|, l);
    ExecutedAfter(js, t, |js|);
    AfterAll(KeySteps(js), t);
    AfterAll(ColumnSteps(js), t);
    assert Consistent(js, |js|, l);
  }

  /** A row that starts with a table holding k, and does not show table i, reads otherwise. */
  lemma ReadsOtherwise(js: seq<Link>, cols: seq<set<string>>, t: seq<seq<Row>>, k: string, i: nat, l: JoinedRow)
    requires ValidLinks(js) && |cols| == |js| + 1 && AllUnit(cols, t) && OccursAfter(js, t, |js|, l) && i <= |js|
    requires t[i] == [] && Origin(l) <= |js| && k in cols[Origin(l)]
    requires Origin(l) == 0 || k in Merged(js[Origin(l) - 1])
    ensures !AlwaysReads(js, k, i)
  {
    RowDiffers(js, cols, t, k, i, l);
    ReadOnce(js, t, k, i, l);
  }

  lemma RowDiffers(js: seq<Link>, cols: seq<set<string>>, t: seq<seq<Row>>, k: string, i: nat, l: JoinedRow)
    requires ValidLinks(js) && |cols| == |js| + 1 && AllUnit(cols, t) && OccursAfter(js, t, |js|, l) && i <= |js|
    requires t[i] == [] && Origin(l) <= |js| && k in cols[Origin(l)]
    requires Origin(l) == 0 || k in Merged(js[Origin(l) - 1])
    ensures l in Eval(ColumnSteps(js), t) && Coalesced(l, Source(js, |js|, k), k) != CellValue(l, i, k)
  {
    RowReads(js, cols, t, k, l);
    CellsDiffer(cols, t, k, i, l);
  }

  lemma CellsDiffer(cols: seq<set<string>>, t: seq<seq<Row>>, k: string, i: nat, l: JoinedRow)
    requires |l| == |cols| == |t| && UnitCells(cols, t, l, |l|) && i < |l| && Origin(l) < |l|
    requires t[i] == [] && k in cols[Origin(l)]
    ensures CellValue(l, i, k) == Null && CellValue(l, Origin(l), k) == Val("1")
  {
    OriginPresent(l);
    assert l[i].Gone?;
  }

  /** One row on which they differ is enough. */
  lemma ReadOnce(js: seq<Link>, t: seq<seq<Row>>, k: string, i: nat, l: JoinedRow)
    requires |t| == |js| + 1 && l in Eval(ColumnSteps(js), t)
    requires Coalesced(l, Source(js, |js|, k), k) != CellValue(l, i, k)
    ensures !AlwaysReads(js, k, i)
  {
  }

  /** The base row without a partner in table i. */
  lemma UnmatchedRow(js: seq<Link>, cols: seq<set<string>>, i: nat) returns (t: seq<seq<Row>>, l: JoinedRow)
    requires ValidLinks(js) && Keyed(js, cols) && 1 <= i <= |js| && !NeedsRows(js[i - 1].kind)
    ensures AllUnit(cols, t) && t[i] == [] && OccursAfter(js, t, |js|, l) && Origin(l) == 0
  {
    t := Without(js, cols, i);
    WithoutKeeps(js, cols, i);
    WithoutFacts(js, cols, i);
    l := BaseLasts(js, cols, t, |js|);
    OriginIsFirst(l, 0);
  }

  /** The row that join q pads and no later join drops. */
  lemma PaddedRow(js: seq<Link>, cols: seq<set<string>>, q: nat) returns (t: seq<seq<Row>>, l: JoinedRow)
    requires ValidLinks(js) && Keyed(js, cols) && q < |js| && Pads(js[q].kind) && !Doomed(js, q + 1)
    ensures AllUnit(cols, t) && EmptyTo(t, q) && OccursAfter(js, t, |js|, l) && Origin(l) == q + 1
  {
    t := PaddingTables(js, cols, q);
    PaddingFacts(js, cols, q);
    l := PaddedShown(js, cols, q);
    PaddedOriginIs(js, cols, t, q, l);
  }

  /** After a left or full join the base row without a partner holds k, and table i does not. */
  lemma UnmatchedReadsOtherwise(js: seq<Link>, k: string, i: nat)
    requires ValidLinks(js) && 1 <= i <= |js| && k in Merged(js[i - 1]) && !NeedsRows(js[i - 1].kind)
    ensures !AlwaysReads(js, k, i)
  {
    var cols := WitnessCols(js, |js| + 1, "");
    KeyedCols(js, |js| + 1, "");
    KeyIsBaseColumn(js, cols, k, i - 1);
    UnmatchedHolds(js, cols, k, i);
  }

  lemma UnmatchedHolds(js: seq<Link>, cols: seq<set<string>>, k: string, i: nat)
    requires ValidLinks(js) && Keyed(js, cols) && k in cols[0] && 1 <= i <= |js| && !NeedsRows(js[i - 1].kind)
    ensures !AlwaysReads(js, k, i)
  {
    var t, l := UnmatchedRow(js, cols, i);
    ReadsOtherwise(js, cols, t, k, i, l);
  }

  /** The rows that a later join pads hold k if it merged k, and table i does not. */
  lemma PaddedReadsOtherwise(js: seq<Link>, k: string, i: nat, x: nat)
    requires ValidLinks(js) && i < x <= |js| && Pads(js[x - 1].kind) && k in Merged(js[x - 1]) && !Doomed(js, x)
    ensures !AlwaysReads(js, k, i)
  {
    var cols := WitnessCols(js, |js| + 1, "");
    KeyedCols(js, |js| + 1, "");
    KeyIsBaseColumn(js, cols, k, x - 1);
    PaddedHolds(js, cols, k, i, x - 1);
  }

  lemma PaddedHolds(js: seq<Link>, cols: seq<set<string>>, k: string, i: nat, q: nat)
    requires ValidLinks(js) && Keyed(js, cols) && i <= q < |js| && Pads(js[q].kind) && !Doomed(js, q + 1)
    requires k in cols[q + 1] && k in Merged(js[q])
    ensures !AlwaysReads(js, k, i)
  {
    var t, l := PaddedRow(js, cols, q);
    ReadsOtherwise(js, cols, t, k, i, l);
  }

  lemma PaddedOriginIs(js: seq<Link>, cols: seq<set<string>>, t: seq<seq<Row>>, q: nat, l: JoinedRow)
    requires |cols| == |js| + 1 && AllUnit(cols, t) && q < |js| && EmptyTo(t, q) && OccursAfter(js, t, |js|, l)
    requires |l| == |js| + 1 && l[q + 1].Here?
    ensures Origin(l) == q + 1
  {
    StartsThere(js, cols, t, |js|, q, l);
  }

  /**
   * The merged column means table i on every row, over any tables, exactly when table i is
   * the base or was joined by an inner or right join, and whatever a later right or full
   * join on k pads is dropped again.
   */
  lemma MergedReadsExactly(js: seq<Link>, k: string, i: nat)
    requires ValidLinks(js) && MergesKey(js, k, i)
    ensures AlwaysReads(js, k, i) <==> ReadsAs(js, k, i)
  {
    if ReadsAs(js, k, i) {
      ReadsAlways(js, k, i);
    } else if i > 0 && !NeedsRows(js[i - 1].kind) {
      UnmatchedReadsOtherwise(js, k, i);
    } else {
      var x: nat :| i < x <= |js| && Pads(js[x - 1].kind) && k in Merged(js[x - 1]) && !Doomed(js, x);
      PaddedReadsOtherwise(js, k, i, x);
    }
  }
}
