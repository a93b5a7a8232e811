/** When filtering the tables first, and merging keys, leaves the rows of a chain of joins as they are. */
module Pushing {
  import Sequences
  import opened SqlValues
  import opened SqlQuery
  import opened Joins
  import opened Chains

  // ---- rows that later joins drop ----

  /** Join m drops every row that starts with table x. */
  predicate KillsAt(js: seq<Link>, x: nat, m: nat) {
    1 <= x <= m < |js| && Demands(js[m].kind) && !Carries(js, x, m)
  }

  predicate Doomed(js: seq<Link>, x: nat) { exists m: nat :: m < |js| && KillsAt(js, x, m) }

  function SparedBy(js: seq<Link>): JoinedRow -> bool { l => !Doomed(js, Origin(l)) }

  /** What rows starts with a table after the base tells about the joins so far. */
  ghost predicate NotKilled(js: seq<Link>, n: nat, l: JoinedRow)
    requires n <= |js|
  {
    && |l| == n + 1 && Origin(l) <= n
    && (Origin(l) > 0 ==> Pads(js[Origin(l) - 1].kind))
    && forall m: nat | m < n :: !KillsAt(js, Origin(l), m)
  }

  ghost predicate NoneKilled(js: seq<Link>, n: nat, ls: seq<JoinedRow>)
    requires n <= |js|
  {
    forall l | l in ls :: NotKilled(js, n, l)
  }

  lemma DemandIsMet(s: Step, l: JoinedRow, rs: seq<Row>, p: JoinedRow)
    requires Demands(s.kind) && p in Contribution(s, l, rs)
    ensures exists r | r in rs :: On(s, l, r)
  {
    PartnersShape(s, l, rs);
  }

  lemma JoinKillsNone(js: seq<Link>, n: nat, ls: seq<JoinedRow>, rs: seq<Row>)
    requires n < |js| && NoneKilled(js, n, ls)
    ensures var s := KeyStep(js, n); NoneKilled(js, n + 1, LeftPart(s, ls, rs) + RightPart(s, ls, rs, n + 1))
  {
    var s := KeyStep(js, n);
    var ps := LeftPart(s, ls, rs) + RightPart(s, ls, rs, n + 1);
    forall p | p in ps ensures NotKilled(js, n + 1, p) {
      if p in LeftPart(s, ls, rs) {
        var l := LeftPartFrom(s, ls, rs, p);
        ContinuedNotKilled(js, n, l, rs, p);
      } else {
        UnmatchedFrom(s, ls, rs, n + 1, p);
        var r :| r in rs && p == Padding(n + 1) + [Here(r)];
        OriginOfPadded(n + 1, r);
      }
    }
  }

  lemma ContinuedNotKilled(js: seq<Link>, n: nat, l: JoinedRow, rs: seq<Row>, p: JoinedRow)
    requires n < |js| && NotKilled(js, n, l) && p in Contribution(KeyStep(js, n), l, rs)
    ensures NotKilled(js, n + 1, p)
  {
    ContributionShape(KeyStep(js, n), l, rs);
    if KillsAt(js, Origin(l), n) { DemandIsMet(KeyStep(js, n), l, rs, p); }
  }

  lemma NextNotKilled(js: seq<Link>, tables: seq<seq<Row>>, n: nat)
    requires |tables| == |js| + 1 && n < |js| && NoneKilled(js, n, After(KeySteps(js), tables, n))
    ensures NoneKilled(js, n + 1, After(KeySteps(js), tables, n + 1))
  {
    AfterNext(KeySteps(js), tables, n);
    JoinKillsNone(js, n, After(KeySteps(js), tables, n), tables[n + 1]);
  }

  lemma {:induction false} RowsNotKilled(js: seq<Link>, tables: seq<seq<Row>>, n: nat)
    requires |tables| == |js| + 1 && n <= |js|
    ensures NoneKilled(js, n, After(KeySteps(js), tables, n))
  {
    if n == 0 {
      AfterNone(KeySteps(js), tables);
    } else {
      RowsNotKilled(js, tables, n - 1);
      NextNotKilled(js, tables, n - 1);
    }
  }

  /** Rows that match a merging join are dropped later only if the rows it pads are dropped too. */
  lemma CarriesOn(js: seq<Link>, x: nat, n: nat, m: nat)
    requires x <= n < m < |js| && Carries(js, x, n) && Carries(js, n + 1, m)
    ensures Carries(js, x, m)
  {
    if x > 0 {
      forall k | k in js[m].left ensures k in js[x - 1].left { assert k in js[n].left; }
    }
  }

  // ---- a query's chain and its draft's ----

  /** The draft joins on the same keys; it may merge more, and may keep a right join's left part only. */
  predicate SameLink(a: Link, b: Link) {
    && a.left == b.left && a.right == b.right && SameOnLeft(a.kind, b.kind)
    && (a.merges ==> b.merges) && (a.bare ==> b.bare)
  }

  predicate Related(la: seq<Link>, lb: seq<Link>) {
    |la| == |lb| && forall i | 0 <= i < |la| :: SameLink(la[i], lb[i])
  }

  /** No join matches the draft's rows that start with x but not the query's. */
  predicate NoLeak(la: seq<Link>, lb: seq<Link>, x: nat)
    requires |la| == |lb|
  {
    forall m: nat | x <= m < |la| && Carries(lb, x, m) :: Carries(la, x, m)
  }

  /** What the draft pads is dropped again, or joins as in the query with no filter below it. */
  predicate PadsAlike(la: seq<Link>, lb: seq<Link>, fs: seq<TableFilter>, x: nat)
    requires |la| == |lb| && 1 <= x <= |la|
  {
    && (Pads(lb[x - 1].kind) ==> Doomed(lb, x) || (NoLeak(la, lb, x) && NoFilterBefore(fs, x)))
    && (Pads(la[x - 1].kind) && !Pads(lb[x - 1].kind) ==> Doomed(la, x))
  }

  predicate Sound(la: seq<Link>, lb: seq<Link>, fs: seq<TableFilter>) {
    && Related(la, lb) && |fs| == |lb| + 1
    && FiltersPlaced(KeySteps(lb), fs)
    && forall x: nat | 1 <= x <= |la| :: PadsAlike(la, lb, fs, x)
  }

  lemma CarriesMore(la: seq<Link>, lb: seq<Link>, x: nat, m: nat)
    requires Related(la, lb) && x <= m < |la| && Carries(la, x, m)
    ensures Carries(lb, x, m)
  {
    assert SameLink(la[m], lb[m]);
    if x > 0 { assert SameLink(la[x - 1], lb[x - 1]); }
  }

  lemma DoomedInBoth(la: seq<Link>, lb: seq<Link>, x: nat)
    requires Related(la, lb)
    ensures Doomed(lb, x) ==> Doomed(la, x)
    ensures Doomed(la, x) && NoLeak(la, lb, x) ==> Doomed(lb, x)
  {
    if Doomed(lb, x) {
      var m: nat :| m < |lb| && KillsAt(lb, x, m);
      assert SameLink(la[m], lb[m]);
      if Carries(la, x, m) { CarriesMore(la, lb, x, m); }
      assert KillsAt(la, x, m);
    }
    if Doomed(la, x) && NoLeak(la, lb, x) {
      var m: nat :| m < |la| && KillsAt(la, x, m);
      assert SameLink(la[m], lb[m]);
      assert KillsAt(lb, x, m);
    }
  }

  /** A spared row of the draft's chain matches the same rows in both. */
  lemma SparedMatches(la: seq<Link>, lb: seq<Link>, fs: seq<TableFilter>, n: nat, l: JoinedRow)
    requires Sound(la, lb, fs) && n < |la| && NotKilled(lb, n, l) && SparedBy(la)(l)
    ensures SameOnRow(KeyStep(la, n), KeyStep(lb, n), l)
  {
    var x := Origin(l);
    assert SameLink(la[n], lb[n]);
    DoomedInBoth(la, lb, x);
    if x > 0 { assert PadsAlike(la, lb, fs, x); }
    assert Carries(la, x, n) <==> Carries(lb, x, n) by {
      if Carries(la, x, n) { CarriesMore(la, lb, x, n); }
    }
    assert x in Carriers(la, n) <==> x in Carriers(lb, n);
  }

  // ---- filtering by origin ----

  lemma {:induction false} SparedLeft(js: seq<Link>, s: Step, ls: seq<JoinedRow>, rs: seq<Row>, w: nat)
    requires Shaped(ls, w)
    ensures Sequences.Filter(LeftPart(s, ls, rs), SparedBy(js)) == LeftPart(s, Sequences.Filter(ls, SparedBy(js)), rs)
    decreases |ls|
  {
    var t := SparedBy(js);
    if ls != [] {
      var l := ls[0];
      assert l in ls;
      assert forall x | x in ls[1..] :: x in ls;
      SparedLeft(js, s, ls[1..], rs, w);
      Sequences.FilterAppend(Contribution(s, l, rs), LeftPart(s, ls[1..], rs), t);
      ContributionShape(s, l, rs);
      AllOrNone(Contribution(s, l, rs), t, t(l));
      LeftPartAppend(s, if t(l) then [l] else [], Sequences.Filter(ls[1..], t), rs);
      OneLeft(s, l, rs);
    }
  }

  lemma OneLeft(s: Step, l: JoinedRow, rs: seq<Row>)
    ensures LeftPart(s, [l], rs) == Contribution(s, l, rs) && LeftPart(s, [], rs) == []
  {
    assert [l][1..] == [];
  }

  lemma {:induction false} AllOrNone<T(!new)>(s: seq<T>, t: T -> bool, b: bool)
    requires forall x | x in s :: t(x) == b
    ensures Sequences.Filter(s, t) == if b then s else []
  {
    if s != [] {
      assert forall x | x in s[1..] :: x in s;
      AllOrNone(s[1..], t, b);
    }
  }

  lemma PaddedOrigin(s: Step, ls: seq<JoinedRow>, rs: seq<Row>, w: nat)
    ensures forall p | p in RightPart(s, ls, rs, w) :: Origin(p) == w
  {
    forall p | p in RightPart(s, ls, rs, w) ensures Origin(p) == w {
      UnmatchedFrom(s, ls, rs, w, p);
      var r :| r in rs && p == Padding(w) + [Here(r)];
      OriginOfPadded(w, r);
    }
  }

  lemma {:induction false} FilterJoinedWithin(o: Oracle, fs: seq<TableFilter>, ls: seq<JoinedRow>)
    ensures forall l | l in FilterJoined(o, fs, ls) :: l in ls
  {
    if ls != [] { FilterJoinedWithin(o, fs, ls[1..]); }
  }

  // ---- the simulation ----

  /** After n joins the filtered rows of the query and the rows of the draft agree, but for doomed ones. */
  ghost predicate Agree(o: Oracle, la: seq<Link>, lb: seq<Link>, fs: seq<TableFilter>, tables: seq<seq<Row>>, n: nat)
    requires |la| == |lb| && |tables| == |la| + 1 == |fs| && n <= |la|
  {
    Sequences.Filter(FilterJoined(o, fs, After(KeySteps(la), tables, n)), SparedBy(la))
    == Sequences.Filter(After(KeySteps(lb), FilterTables(o, fs, tables), n), SparedBy(la))
  }

  lemma AllSparedMatch(la: seq<Link>, lb: seq<Link>, fs: seq<TableFilter>, n: nat, bls: seq<JoinedRow>)
    requires Sound(la, lb, fs) && n < |la| && NoneKilled(lb, n, bls)
    ensures SameMatches(KeyStep(la, n), KeyStep(lb, n), Sequences.Filter(bls, SparedBy(la)))
  {
    forall l | l in Sequences.Filter(bls, SparedBy(la)) ensures SameOnRow(KeyStep(la, n), KeyStep(lb, n), l) {
      SparedMatches(la, lb, fs, n, l);
    }
  }

  lemma LeftFiltered(o: Oracle, la: seq<Link>, a: Step, fs: seq<TableFilter>, als: seq<JoinedRow>, rs: seq<Row>, w: nat)
    requires |fs| > w && Shaped(als, w) && (fs[w] != NO_FILTER ==> a.kind.Inner? || a.kind.Cross? || a.kind.RightOuter?)
    ensures Sequences.Filter(FilterJoined(o, fs, LeftPart(a, als, rs)), SparedBy(la))
            == LeftPart(a, Sequences.Filter(FilterJoined(o, fs, als), SparedBy(la)), FilterRows(o, fs[w], rs))
  {
    LeftPartFiltered(o, a, fs, als, rs, w);
    FilterJoinedWithin(o, fs, als);
    SparedLeft(la, a, FilterJoined(o, fs, als), FilterRows(o, fs[w], rs), w);
  }

  lemma NotKilledShaped(js: seq<Link>, n: nat, ls: seq<JoinedRow>)
    requires n <= |js| && NoneKilled(js, n, ls)
    ensures Shaped(ls, n + 1)
  {
    forall l | l in ls ensures |l| == n + 1 && Origin(l) < n + 1 { assert NotKilled(js, n, l); }
  }

  lemma FilteredKind(la: seq<Link>, lb: seq<Link>, fs: seq<TableFilter>, n: nat)
    requires Sound(la, lb, fs) && n < |la|
    ensures fs[n + 1] != NO_FILTER ==> la[n].kind.Inner? || la[n].kind.Cross? || la[n].kind.RightOuter?
    ensures SameOnLeft(la[n].kind, lb[n].kind)
  {
    assert SameLink(la[n], lb[n]) && KeySteps(lb)[n].kind == lb[n].kind;
  }

  lemma SameLeft(o: Oracle, la: seq<Link>, a: Step, b: Step, fs: seq<TableFilter>, als: seq<JoinedRow>,
                 bls: seq<JoinedRow>, rs: seq<Row>, w: nat)
    requires |fs| > w && Shaped(als, w) && Shaped(bls, w) && SameOnLeft(a.kind, b.kind)
    requires fs[w] != NO_FILTER ==> a.kind.Inner? || a.kind.Cross? || a.kind.RightOuter?
    requires SameMatches(a, b, Sequences.Filter(bls, SparedBy(la)))
    requires Sequences.Filter(FilterJoined(o, fs, als), SparedBy(la)) == Sequences.Filter(bls, SparedBy(la))
    ensures Sequences.Filter(FilterJoined(o, fs, LeftPart(a, als, rs)), SparedBy(la))
            == Sequences.Filter(LeftPart(b, bls, FilterRows(o, fs[w], rs)), SparedBy(la))
  {
    var rs' := FilterRows(o, fs[w], rs);
    LeftFiltered(o, la, a, fs, als, rs, w);
    SparedLeft(la, b, bls, rs', w);
    LeftPartSame(a, b, Sequences.Filter(bls, SparedBy(la)), rs');
  }

  lemma DoomSpreads(js: seq<Link>, x: nat, n: nat, m: nat)
    requires x <= n < m < |js| && Carries(js, x, n) && KillsAt(js, x, m)
    ensures KillsAt(js, n + 1, m)
  {
    if Carries(js, n + 1, m) { CarriesOn(js, x, n, m); }
  }

  /** A row that matches join n is spared, if the rows join n pads are. */
  lemma MatchingIsSpared(la: seq<Link>, n: nat, l: JoinedRow, r: Row)
    requires n < |la| && NotKilled(la, n, l) && On(KeyStep(la, n), l, r) && !la[n].kind.Cross? && !Doomed(la, n + 1)
    ensures SparedBy(la)(l)
  {
    var x := Origin(l);
    assert Carries(la, x, n);
    forall m: nat | m < |la| ensures !KillsAt(la, x, m) {
      if n < m && KillsAt(la, x, m) { DoomSpreads(la, x, n, m); }
    }
  }

  lemma SparedInBoth(la: seq<Link>, lb: seq<Link>, fs: seq<TableFilter>, n: nat, l: JoinedRow)
    requires Sound(la, lb, fs) && n <= |la| && NotKilled(lb, n, l)
    ensures SparedBy(lb)(l) ==> SparedBy(la)(l)
  {
    var x := Origin(l);
    DoomedInBoth(la, lb, x);
    if x > 0 { assert PadsAlike(la, lb, fs, x); }
  }

  lemma MatchedInDraft(la: seq<Link>, lb: seq<Link>, fs: seq<TableFilter>, n: nat, als: seq<JoinedRow>,
                       bls: seq<JoinedRow>, r: Row)
    requires Sound(la, lb, fs) && n < |la| && NoneKilled(la, n, als) && NoneKilled(lb, n, bls)
    requires Sequences.Filter(als, SparedBy(la)) == Sequences.Filter(bls, SparedBy(la))
    requires Pads(lb[n].kind) && !Doomed(la, n + 1) && Matched(KeyStep(la, n), als, r)
    ensures Matched(KeyStep(lb, n), bls, r)
  {
    assert SameLink(la[n], lb[n]);
    var l :| l in als && On(KeyStep(la, n), l, r);
    MatchingIsSpared(la, n, l, r);
    assert l in Sequences.Filter(als, SparedBy(la));
    SparedMatches(la, lb, fs, n, l);
  }

  lemma MatchedInQuery(la: seq<Link>, lb: seq<Link>, fs: seq<TableFilter>, n: nat, als: seq<JoinedRow>,
                       bls: seq<JoinedRow>, r: Row)
    requires Sound(la, lb, fs) && n < |la| && NoneKilled(lb, n, bls)
    requires Sequences.Filter(als, SparedBy(la)) == Sequences.Filter(bls, SparedBy(la))
    requires Pads(lb[n].kind) && !Doomed(la, n + 1) && Matched(KeyStep(lb, n), bls, r)
    ensures Matched(KeyStep(la, n), als, r)
  {
    var l :| l in bls && On(KeyStep(lb, n), l, r);
    DoomedInBoth(la, lb, n + 1);
    MatchingIsSpared(lb, n, l, r);
    SparedInBoth(la, lb, fs, n, l);
    assert l in Sequences.Filter(bls, SparedBy(la));
    SparedMatches(la, lb, fs, n, l);
  }

  /** A join whose rows are all dropped later adds nothing that counts. */
  lemma DoomedRight(o: Oracle, la: seq<Link>, s: Step, fs: seq<TableFilter>, n: nat, ls: seq<JoinedRow>, rs: seq<Row>)
    requires Doomed(la, n + 1)
    ensures Sequences.Filter(RightPart(s, ls, rs, n + 1), SparedBy(la)) == []
    ensures Sequences.Filter(FilterJoined(o, fs, RightPart(s, ls, rs, n + 1)), SparedBy(la)) == []
  {
    var ps := RightPart(s, ls, rs, n + 1);
    FilterJoinedWithin(o, fs, ps);
    PaddedOrigin(s, ls, rs, n + 1);
    AllOrNone(FilterJoined(o, fs, ps), SparedBy(la), false);
    AllOrNone(ps, SparedBy(la), false);
  }

  /** A join whose rows last has no filter below it, and pads the same rows in both. */
  lemma LastingRight(o: Oracle, la: seq<Link>, lb: seq<Link>, fs: seq<TableFilter>, n: nat, als: seq<JoinedRow>,
                     bls: seq<JoinedRow>, rs: seq<Row>)
    requires Sound(la, lb, fs) && n < |la| && NoneKilled(la, n, als) && NoneKilled(lb, n, bls)
    requires Sequences.Filter(FilterJoined(o, fs, als), SparedBy(la)) == Sequences.Filter(bls, SparedBy(la))
    requires Pads(lb[n].kind) && !Doomed(la, n + 1)
    ensures FilterJoined(o, fs, RightPart(KeyStep(la, n), als, rs, n + 1))
            == RightPart(KeyStep(lb, n), bls, FilterRows(o, fs[n + 1], rs), n + 1)
  {
    var a, b := KeyStep(la, n), KeyStep(lb, n);
    assert SameLink(la[n], lb[n]) && PadsAlike(la, lb, fs, n + 1);
    DoomedInBoth(la, lb, n + 1);
    NothingFiltered(o, fs, als, n + 1);
    UnmatchedFiltered(o, a, fs, als, rs, n + 1);
    forall r: Row ensures Matched(a, als, r) == Matched(b, bls, r) {
      if Matched(a, als, r) { MatchedInDraft(la, lb, fs, n, als, bls, r); }
      if Matched(b, bls, r) { MatchedInQuery(la, lb, fs, n, als, bls, r); }
    }
    UnmatchedSame(a, als, b, bls, FilterRows(o, fs[n + 1], rs), n + 1);
  }

  lemma RightAgrees(o: Oracle, la: seq<Link>, lb: seq<Link>, fs: seq<TableFilter>, n: nat, als: seq<JoinedRow>,
                    bls: seq<JoinedRow>, rs: seq<Row>)
    requires Sound(la, lb, fs) && n < |la| && NoneKilled(la, n, als) && NoneKilled(lb, n, bls)
    requires Sequences.Filter(FilterJoined(o, fs, als), SparedBy(la)) == Sequences.Filter(bls, SparedBy(la))
    ensures Sequences.Filter(FilterJoined(o, fs, RightPart(KeyStep(la, n), als, rs, n + 1)), SparedBy(la))
            == Sequences.Filter(RightPart(KeyStep(lb, n), bls, FilterRows(o, fs[n + 1], rs), n + 1), SparedBy(la))
  {
    var a, b := KeyStep(la, n), KeyStep(lb, n);
    assert SameLink(la[n], lb[n]) && PadsAlike(la, lb, fs, n + 1);
    if Doomed(la, n + 1) {
      DoomedRight(o, la, a, fs, n, als, rs);
      DoomedRight(o, la, b, fs, n, bls, FilterRows(o, fs[n + 1], rs));
    } else if Pads(lb[n].kind) {
      LastingRight(o, la, lb, fs, n, als, bls, rs);
    } else {
      assert RightPart(a, als, rs, n + 1) == [];
    }
  }

  lemma AgreeNext(o: Oracle, la: seq<Link>, lb: seq<Link>, fs: seq<TableFilter>, tables: seq<seq<Row>>, n: nat)
    requires Sound(la, lb, fs) && |tables| == |la| + 1 && n < |la| && Agree(o, la, lb, fs, tables, n)
    ensures Agree(o, la, lb, fs, tables, n + 1)
  {
    var ft, t := FilterTables(o, fs, tables), SparedBy(la);
    var als, bls := After(KeySteps(la), tables, n), After(KeySteps(lb), ft, n);
    var a, b := KeyStep(la, n), KeyStep(lb, n);
    var rs, rs' := tables[n + 1], ft[n + 1];
    AfterShaped(KeySteps(la), tables, n);
    RowsNotKilled(la, tables, n);
    RowsNotKilled(lb, ft, n);
    AfterNext(KeySteps(la), tables, n);
    AfterNext(KeySteps(lb), ft, n);
    FilteredKind(la, lb, fs, n);
    AllSparedMatch(la, lb, fs, n, bls);
    NotKilledShaped(lb, n, bls);
    SameLeft(o, la, a, b, fs, als, bls, rs, n + 1);
    RightAgrees(o, la, lb, fs, n, als, bls, rs);
    FilterJoinedAppend(o, fs, LeftPart(a, als, rs), RightPart(a, als, rs, n + 1));
    Sequences.FilterAppend(FilterJoined(o, fs, LeftPart(a, als, rs)), FilterJoined(o, fs, RightPart(a, als, rs, n + 1)), t);
    Sequences.FilterAppend(LeftPart(b, bls, rs'), RightPart(b, bls, rs', n + 1), t);
  }

  lemma {:induction false} AgreeAt(o: Oracle, la: seq<Link>, lb: seq<Link>, fs: seq<TableFilter>,
                                   tables: seq<seq<Row>>, n: nat)
    requires Sound(la, lb, fs) && |tables| == |la| + 1 && n <= |la|
    ensures Agree(o, la, lb, fs, tables, n)
  {
    if n == 0 {
      AfterNone(KeySteps(la), tables);
      AfterNone(KeySteps(lb), FilterTables(o, fs, tables));
      LiftedFiltered(o, fs, tables[0]);
    } else {
      AgreeAt(o, la, lb, fs, tables, n - 1);
      AgreeNext(o, la, lb, fs, tables, n - 1);
    }
  }

  lemma NoneDoomedAtEnd(js: seq<Link>, tables: seq<seq<Row>>)
    requires |tables| == |js| + 1
    ensures forall l | l in After(KeySteps(js), tables, |js|) :: SparedBy(js)(l)
  {
    RowsNotKilled(js, tables, |js|);
  }

  /**
   * Under a sound chain, filtering the tables first, merging keys and joining gives the
   * rows of joining the whole tables and filtering afterwards, in the same order.
   */
  lemma PushBelowJoins(o: Oracle, la: seq<Link>, lb: seq<Link>, fs: seq<TableFilter>, tables: seq<seq<Row>>)
    requires Sound(la, lb, fs) && |tables| == |la| + 1
    ensures Eval(KeySteps(lb), FilterTables(o, fs, tables)) == FilterJoined(o, fs, Eval(KeySteps(la), tables))
  {
    var ft, t, n := FilterTables(o, fs, tables), SparedBy(la), |la|;
    AfterAll(KeySteps(la), tables);
    AfterAll(KeySteps(lb), ft);
    AgreeAt(o, la, lb, fs, tables, n);
    NoneDoomedAtEnd(la, tables);
    NoneDoomedAtEnd(lb, ft);
    RowsNotKilled(lb, ft, n);
    var als, bls := FilterJoined(o, fs, After(KeySteps(la), tables, n)), After(KeySteps(lb), ft, n);
    FilterJoinedWithin(o, fs, After(KeySteps(la), tables, n));
    forall l | l in bls ensures t(l) { SparedInBoth(la, lb, fs, n, l); }
    Sequences.FilterAll(als, t);
    Sequences.FilterAll(bls, t);
  }
}
