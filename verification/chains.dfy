/** Chains of equality joins against one base table, and the tables whose keys a joined row carries on. */
module Chains {
  import opened SqlValues
  import opened SqlQuery
  import opened Joins

  /**
   * One equality join of a chain. A merging join is a join USING its keys: the two key
   * columns become one. A bare join looks its left keys up by name, among all columns
   * joined so far, and not in the base table alone.
   */
  datatype Link = Link(kind: Kind, left: seq<string>, right: seq<string>, merges: bool, bare: bool)

  predicate ValidLink(j: Link) {
    && (j.kind.Cross? ==> !j.merges && !j.bare)
    && (!j.kind.Cross? ==> j.left != [] && |j.left| == |j.right|)
    && (j.merges ==> j.bare && j.left == j.right)
  }

  predicate ValidLinks(js: seq<Link>) { forall i | 0 <= i < |js| :: ValidLink(js[i]) }

  /** The keys join i merges. */
  function Merged(j: Link): seq<string> { if j.merges then j.left else [] }

  // ---- the columns of the executed joins ----

  /** The cells the one column named k is read from after n joins: the base's, unless a right or full join merged k. */
  function Source(js: seq<Link>, n: nat, k: string): seq<nat>
    requires n <= |js|
  {
    if n == 0 then [0]
    else if k !in Merged(js[n - 1]) then Source(js, n - 1, k)
    else
      match js[n - 1].kind
      case RightOuter => [n]
      case FullOuter => Source(js, n - 1, k) + [n]
      case _ => Source(js, n - 1, k)
  }

  function Sources(js: seq<Link>, n: nat, ks: seq<string>): (r: seq<seq<nat>>)
    requires n < |js|
    ensures |r| == |ks|
    ensures forall i | 0 <= i < |ks| :: r[i] == if js[n].bare then Source(js, n, ks[i]) else [0]
  {
    seq(|ks|, i requires 0 <= i < |ks| => if js[n].bare then Source(js, n, ks[i]) else [0])
  }

  /** Join n as it is executed. */
  function ColumnStep(js: seq<Link>, n: nat): Step
    requires n < |js|
  {
    Step(js[n].kind, Columns(Sources(js, n, js[n].left), js[n].left, js[n].right))
  }

  function ColumnSteps(js: seq<Link>): (r: seq<Step>)
    ensures |r| == |js| && forall i | 0 <= i < |r| :: r[i] == ColumnStep(js, i)
  {
    seq(|js|, i requires 0 <= i < |js| => ColumnStep(js, i))
  }

  // ---- carriers ----

  /**
   * Rows that start with table x match join n by their own keys: the base's always do, others
   * if their join merged all of them.
   */
  predicate Carries(js: seq<Link>, x: nat, n: nat)
    requires n < |js|
  {
    x == 0 || (x <= n && js[n].bare && js[x - 1].merges && forall k | k in js[n].left :: k in js[x - 1].left)
  }

  function Carriers(js: seq<Link>, n: nat): set<nat>
    requires n < |js|
  {
    set x: nat | 0 <= x <= n && Carries(js, x, n)
  }

  function KeyStep(js: seq<Link>, n: nat): Step
    requires n < |js|
  {
    Step(js[n].kind, Keys(js[n].left, js[n].right, Carriers(js, n)))
  }

  function KeySteps(js: seq<Link>): (r: seq<Step>)
    ensures |r| == |js| && forall i | 0 <= i < |r| :: r[i] == KeyStep(js, i)
  {
    seq(|js|, i requires 0 <= i < |js| => KeyStep(js, i))
  }

  /** The chain after n joins. */
  ghost function After(steps: seq<Step>, tables: seq<seq<Row>>, n: nat): seq<JoinedRow>
    requires n <= |steps| && |tables| == |steps| + 1
  {
    Eval(steps[..n], tables[..n + 1])
  }

  lemma AfterNext(steps: seq<Step>, tables: seq<seq<Row>>, n: nat)
    requires n < |steps| && |tables| == |steps| + 1
    ensures var left := After(steps, tables, n);
            After(steps, tables, n + 1)
            == LeftPart(steps[n], left, tables[n + 1]) + RightPart(steps[n], left, tables[n + 1], n + 1)
  {
    EvalPrefix(steps, tables, n + 1);
  }

  lemma AfterNone(steps: seq<Step>, tables: seq<seq<Row>>)
    requires |tables| == |steps| + 1
    ensures After(steps, tables, 0) == Lifted(tables[0])
  {
  }

  lemma AfterAll(steps: seq<Step>, tables: seq<seq<Row>>)
    requires |tables| == |steps| + 1
    ensures After(steps, tables, |steps|) == Eval(steps, tables)
  {
    assert steps[..|steps|] == steps && tables[..|steps| + 1] == tables;
  }

  lemma {:induction false} AfterShaped(steps: seq<Step>, tables: seq<seq<Row>>, n: nat)
    requires n <= |steps| && |tables| == |steps| + 1
    ensures Shaped(After(steps, tables, n), n + 1)
  {
    if n == 0 {
      AfterNone(steps, tables);
    } else {
      AfterShaped(steps, tables, n - 1);
      AfterNext(steps, tables, n - 1);
      JoinShape(steps[n - 1], After(steps, tables, n - 1), tables[n], n);
    }
  }

  // ---- steps that match the same pairs ----

  ghost predicate SameOnRow(a: Step, b: Step, l: JoinedRow) { forall r: Row :: On(a, l, r) == On(b, l, r) }

  ghost predicate SameMatches(a: Step, b: Step, ls: seq<JoinedRow>) { forall l | l in ls :: SameOnRow(a, b, l) }

  lemma {:induction false} PartnersSame(a: Step, b: Step, l: JoinedRow, rs: seq<Row>)
    requires SameOnRow(a, b, l)
    ensures Partners(a, l, rs) == Partners(b, l, rs)
  {
    if rs != [] { PartnersSame(a, b, l, rs[1..]); }
  }

  /** Inner and right joins treat the left rows alike. */
  predicate SameOnLeft(a: Kind, b: Kind) { a == b || (a.RightOuter? && b.Inner?) }

  lemma {:induction false} LeftPartSame(a: Step, b: Step, ls: seq<JoinedRow>, rs: seq<Row>)
    requires SameOnLeft(a.kind, b.kind) && SameMatches(a, b, ls)
    ensures LeftPart(a, ls, rs) == LeftPart(b, ls, rs)
  {
    if ls != [] {
      assert ls[0] in ls;
      PartnersSame(a, b, ls[0], rs);
      assert forall l | l in ls[1..] :: l in ls;
      LeftPartSame(a, b, ls[1..], rs);
    }
  }

  lemma {:induction false} UnmatchedSame(a: Step, als: seq<JoinedRow>, b: Step, bls: seq<JoinedRow>, rs: seq<Row>, w: nat)
    requires forall r: Row :: Matched(a, als, r) == Matched(b, bls, r)
    ensures Unmatched(a, als, rs, w) == Unmatched(b, bls, rs, w)
  {
    if rs != [] { UnmatchedSame(a, als, b, bls, rs[1..], w); }
  }

  lemma JoinSame(a: Step, b: Step, ls: seq<JoinedRow>, rs: seq<Row>, w: nat)
    requires a.kind == b.kind && SameMatches(a, b, ls)
    ensures LeftPart(a, ls, rs) + RightPart(a, ls, rs, w) == LeftPart(b, ls, rs) + RightPart(b, ls, rs, w)
  {
    LeftPartSame(a, b, ls, rs);
    forall r: Row ensures Matched(a, ls, r) == Matched(b, ls, r) {}
    UnmatchedSame(a, ls, b, ls, rs, w);
  }

  // ---- the executed chain in terms of carriers ----

  /** What the column named k holds: the base's value, or the padding table's if its join merged k. */
  function OriginValue(js: seq<Link>, l: JoinedRow, k: string): Value
    requires Origin(l) < |l| && |l| <= |js| + 1
  {
    var x := Origin(l);
    if x == 0 || k in Merged(js[x - 1]) then CellValue(l, x, k) else Null
  }

  ghost predicate Consistent(js: seq<Link>, n: nat, l: JoinedRow)
    requires n <= |js|
  {
    |l| == n + 1 && Origin(l) <= n && forall k: string :: Coalesced(l, Source(js, n, k), k) == OriginValue(js, l, k)
  }

  lemma {:induction false} SourceBound(js: seq<Link>, n: nat, k: string)
    requires n <= |js|
    ensures forall i | i in Source(js, n, k) :: i <= n
  {
    if n > 0 { SourceBound(js, n - 1, k); }
  }

  lemma {:induction false} CoalescedPrefix(l: JoinedRow, c: Cell, source: seq<nat>, k: string)
    requires forall i | i in source :: i < |l|
    ensures Coalesced(l + [c], source, k) == Coalesced(l, source, k)
    decreases |source|
  {
    if source != [] {
      var n := |source| - 1;
      assert forall i | i in source[..n] :: i in source;
      CoalescedPrefix(l, c, source[..n], k);
      assert source[n] in source;
      assert (l + [c])[source[n]] == l[source[n]];
    }
  }

  lemma {:induction false} CoalescedGone(l: JoinedRow, source: seq<nat>, k: string)
    requires forall i | i in source && i < |l| :: l[i].Gone?
    ensures Coalesced(l, source, k) == Null
    decreases |source|
  {
    if source != [] {
      var n := |source| - 1;
      assert forall i | i in source[..n] :: i in source;
      CoalescedGone(l, source[..n], k);
      assert source[n] in source;
    }
  }

  lemma CoalescedSnoc(l: JoinedRow, source: seq<nat>, i: nat, k: string)
    ensures Coalesced(l, source + [i], k)
            == if Coalesced(l, source, k).Val? then Coalesced(l, source, k) else CellValue(l, i, k)
  {
    assert (source + [i])[..|source|] == source;
  }

  lemma OneSource(l: JoinedRow, i: nat, k: string)
    ensures Coalesced(l, [i], k) == CellValue(l, i, k)
  {
    assert [i][..0] == [];
  }

  /** What join n reads for its left key k. */
  function LeftKey(js: seq<Link>, n: nat, l: JoinedRow, k: string): Value
    requires n < |js| && |l| == n + 1 && Origin(l) <= n
  {
    var x := Origin(l);
    if x == 0 || (js[n].bare && k in Merged(js[x - 1])) then CellValue(l, x, k) else Null
  }

  lemma LeftKeyRead(js: seq<Link>, n: nat, l: JoinedRow, i: nat)
    requires n < |js| && Consistent(js, n, l) && i < |js[n].left|
    ensures Coalesced(l, Sources(js, n, js[n].left)[i], js[n].left[i]) == LeftKey(js, n, l, js[n].left[i])
  {
    if !js[n].bare {
      OneSource(l, 0, js[n].left[i]);
      OriginIsFirst(l, 0);
    }
  }

  lemma SomeKeyMissing(js: seq<Link>, n: nat, l: JoinedRow) returns (i: nat)
    requires n < |js| && ValidLinks(js) && !js[n].kind.Cross? && |l| == n + 1 && Origin(l) <= n
    requires !Carries(js, Origin(l), n)
    ensures i < |js[n].left| && LeftKey(js, n, l, js[n].left[i]) == Null
  {
    var j, x := js[n], Origin(l);
    if j.bare && js[x - 1].merges {
      var k :| k in j.left && k !in js[x - 1].left;
      i :| 0 <= i < |j.left| && j.left[i] == k;
    } else {
      i := 0;
    }
  }

  ghost predicate LeftKeysMatch(js: seq<Link>, n: nat, l: JoinedRow, r: Row)
    requires n < |js| && ValidLinks(js) && !js[n].kind.Cross? && |l| == n + 1 && Origin(l) <= n
  {
    forall i | 0 <= i < |js[n].left| ::
      LeftKey(js, n, l, js[n].left[i]).Val? && LeftKey(js, n, l, js[n].left[i]) == Get(r, js[n].right[i])
  }

  lemma CarriedKeysMatch(js: seq<Link>, n: nat, l: JoinedRow, r: Row)
    requires n < |js| && ValidLinks(js) && !js[n].kind.Cross? && |l| == n + 1 && Origin(l) <= n
    ensures LeftKeysMatch(js, n, l, r)
            <==> Carries(js, Origin(l), n) && KeysMatch(RowOf(l[Origin(l)]), r, js[n].left, js[n].right)
  {
    var j, x := js[n], Origin(l);
    if Carries(js, x, n) {
      forall i | 0 <= i < |j.left| ensures LeftKey(js, n, l, j.left[i]) == Get(RowOf(l[x]), j.left[i]) {
        assert j.left[i] in j.left;
      }
    } else {
      var i := SomeKeyMissing(js, n, l);
    }
  }

  /** On a consistent row the executed join matches by the carried keys. */
  lemma StepCarries(js: seq<Link>, n: nat, l: JoinedRow, r: Row)
    requires n < |js| && ValidLinks(js) && Consistent(js, n, l)
    ensures On(ColumnStep(js, n), l, r) == On(KeyStep(js, n), l, r)
  {
    var j := js[n];
    if !j.kind.Cross? {
      forall i | 0 <= i < |j.left|
        ensures Coalesced(l, Sources(js, n, j.left)[i], j.left[i]) == LeftKey(js, n, l, j.left[i])
      {
        LeftKeyRead(js, n, l, i);
      }
      assert On(ColumnStep(js, n), l, r) == LeftKeysMatch(js, n, l, r);
      CarriedKeysMatch(js, n, l, r);
      assert Origin(l) in Carriers(js, n) <==> Carries(js, Origin(l), n);
    }
  }

  /** A row that goes on from a consistent one is consistent. */
  lemma ContinuedIsConsistent(js: seq<Link>, n: nat, l: JoinedRow, rs: seq<Row>, p: JoinedRow)
    requires n < |js| && ValidLinks(js) && Consistent(js, n, l)
    requires p in Contribution(ColumnStep(js, n), l, rs)
    ensures Consistent(js, n + 1, p)
  {
    var s := ColumnStep(js, n);
    ContributionContinues(s, l, rs, p);
    ContinuesShape(s, l, rs, p);
    assert p == l + [p[n + 1]];
    OriginAppend(l, p[n + 1]);
    forall k: string ensures Coalesced(p, Source(js, n + 1, k), k) == OriginValue(js, p, k) {
      SourceBound(js, n, k);
      CoalescedPrefix(l, p[n + 1], Source(js, n, k), k);
      if k in Merged(js[n]) { MergedValue(js, n, l, rs, p, k); }
    }
  }

  /** A merged key of two rows that match is the same on both sides. */
  lemma MatchedKey(js: seq<Link>, n: nat, l: JoinedRow, r: Row, k: string)
    requires n < |js| && ValidLinks(js) && k in Merged(js[n]) && On(ColumnStep(js, n), l, r)
    ensures Coalesced(l, Source(js, n, k), k).Val? && Coalesced(l, Source(js, n, k), k) == Get(r, k)
  {
    var j := js[n];
    var i :| 0 <= i < |j.left| && j.left[i] == k;
    assert ColumnsMatch(l, r, Sources(js, n, j.left), j.left, j.right);
  }

  /** The value of a key that join n merges. */
  lemma MergedValue(js: seq<Link>, n: nat, l: JoinedRow, rs: seq<Row>, p: JoinedRow, k: string)
    requires n < |js| && ValidLinks(js) && Consistent(js, n, l) && k in Merged(js[n])
    requires p in Contribution(ColumnStep(js, n), l, rs) && |p| == n + 2 && p == l + [p[n + 1]]
    requires Coalesced(p, Source(js, n, k), k) == Coalesced(l, Source(js, n, k), k)
    ensures Coalesced(p, Source(js, n + 1, k), k) == Coalesced(l, Source(js, n, k), k)
  {
    OneSource(p, n + 1, k);
    CoalescedSnoc(p, Source(js, n, k), n + 1, k);
    PadsMerged(js, n, l, rs, p, k);
  }

  lemma PadsMerged(js: seq<Link>, n: nat, l: JoinedRow, rs: seq<Row>, p: JoinedRow, k: string)
    requires n < |js| && ValidLinks(js) && k in Merged(js[n]) && |l| == n + 1
    requires p in Contribution(ColumnStep(js, n), l, rs)
    ensures |p| == n + 2
    ensures js[n].kind.RightOuter? ==> CellValue(p, n + 1, k) == Coalesced(l, Source(js, n, k), k)
    ensures js[n].kind.FullOuter? && !Coalesced(l, Source(js, n, k), k).Val? ==>
              CellValue(p, n + 1, k) == Null && Coalesced(l, Source(js, n, k), k) == Null
  {
    var s := ColumnStep(js, n);
    ContributionShape(s, l, rs);
    PartnersShape(s, l, rs);
    ContributionKinds(s, l, rs);
    if p in Partners(s, l, rs) {
      var r :| r in rs && On(s, l, r) && p == l + [Here(r)];
      MatchedKey(js, n, l, r, k);
    }
  }

  lemma PaddedIsConsistent(js: seq<Link>, n: nat, r: Row)
    requires n < |js| && ValidLinks(js) && Pads(js[n].kind)
    ensures Consistent(js, n + 1, Padding(n + 1) + [Here(r)])
  {
    var p := Padding(n + 1) + [Here(r)];
    OriginOfPadded(n + 1, r);
    forall k: string ensures Coalesced(p, Source(js, n + 1, k), k) == OriginValue(js, p, k) {
      SourceBound(js, n, k);
      assert forall i | i in Source(js, n, k) && i < |p| :: p[i].Gone?;
      CoalescedGone(p, Source(js, n, k), k);
      OneSource(p, n + 1, k);
      CoalescedSnoc(p, Source(js, n, k), n + 1, k);
    }
  }

  ghost predicate AllConsistent(js: seq<Link>, n: nat, ls: seq<JoinedRow>)
    requires n <= |js|
  {
    forall l | l in ls :: Consistent(js, n, l)
  }

  lemma JoinIsConsistent(js: seq<Link>, n: nat, ls: seq<JoinedRow>, rs: seq<Row>)
    requires n < |js| && ValidLinks(js) && AllConsistent(js, n, ls)
    ensures var s := ColumnStep(js, n);
            AllConsistent(js, n + 1, LeftPart(s, ls, rs) + RightPart(s, ls, rs, n + 1))
  {
    var s := ColumnStep(js, n);
    var ps := LeftPart(s, ls, rs) + RightPart(s, ls, rs, n + 1);
    forall p | p in ps ensures Consistent(js, n + 1, p) {
      if p in LeftPart(s, ls, rs) {
        var l := LeftPartFrom(s, ls, rs, p);
        ContinuedIsConsistent(js, n, l, rs, p);
      } else {
        UnmatchedFrom(s, ls, rs, n + 1, p);
        var r :| r in rs && p == Padding(n + 1) + [Here(r)];
        PaddedIsConsistent(js, n, r);
      }
    }
  }

  lemma StepsCarry(js: seq<Link>, n: nat, ls: seq<JoinedRow>)
    requires n < |js| && ValidLinks(js) && AllConsistent(js, n, ls)
    ensures SameMatches(ColumnStep(js, n), KeyStep(js, n), ls)
  {
    var s, t := ColumnStep(js, n), KeyStep(js, n);
    forall l | l in ls ensures SameOnRow(s, t, l) {
      forall r: Row ensures On(s, l, r) == On(t, l, r) { StepCarries(js, n, l, r); }
    }
  }

  lemma BaseIsConsistent(js: seq<Link>, rs: seq<Row>)
    ensures AllConsistent(js, 0, Lifted(rs))
  {
    forall l | l in Lifted(rs) ensures Consistent(js, 0, l) {
      forall k: string ensures Coalesced(l, Source(js, 0, k), k) == OriginValue(js, l, k) { OneSource(l, 0, k); }
    }
  }

  lemma ExecutedStep(js: seq<Link>, tables: seq<seq<Row>>, n: nat)
    requires ValidLinks(js) && |tables| == |js| + 1 && n < |js|
    requires After(ColumnSteps(js), tables, n) == After(KeySteps(js), tables, n)
    requires AllConsistent(js, n, After(ColumnSteps(js), tables, n))
    ensures After(ColumnSteps(js), tables, n + 1) == After(KeySteps(js), tables, n + 1)
    ensures AllConsistent(js, n + 1, After(ColumnSteps(js), tables, n + 1))
  {
    var left := After(ColumnSteps(js), tables, n);
    AfterNext(ColumnSteps(js), tables, n);
    AfterNext(KeySteps(js), tables, n);
    StepsCarry(js, n, left);
    JoinSame(ColumnStep(js, n), KeyStep(js, n), left, tables[n + 1], n + 1);
    JoinIsConsistent(js, n, left, tables[n + 1]);
  }

  lemma {:induction false} ExecutedAfter(js: seq<Link>, tables: seq<seq<Row>>, n: nat)
    requires ValidLinks(js) && |tables| == |js| + 1 && n <= |js|
    ensures After(ColumnSteps(js), tables, n) == After(KeySteps(js), tables, n)
    ensures AllConsistent(js, n, After(ColumnSteps(js), tables, n))
  {
    if n == 0 {
      AfterNone(ColumnSteps(js), tables);
      AfterNone(KeySteps(js), tables);
      BaseIsConsistent(js, tables[0]);
    } else {
      ExecutedAfter(js, tables, n - 1);
      ExecutedStep(js, tables, n - 1);
    }
  }

  /** The executed chain joins by the keys its rows carry, whatever the tables hold. */
  lemma ExecutedChain(js: seq<Link>, tables: seq<seq<Row>>)
    requires ValidLinks(js) && |tables| == |js| + 1
    ensures Eval(ColumnSteps(js), tables) == Eval(KeySteps(js), tables)
  {
    ExecutedAfter(js, tables, |js|);
    AfterAll(ColumnSteps(js), tables);
    AfterAll(KeySteps(js), tables);
  }
}
