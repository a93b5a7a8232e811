/** The nearest-rank percentile, over exact arithmetic. */
module Percentile {
  import opened Ordering

  predicate NatLe(a: nat, b: nat) { a <= b }

  function Ceil(x: real): int { -((-x).Floor) }

  /** The one-based rank max(1, ceil(p / 100 * n)). */
  function Rank(p: real, n: nat): int {
    var r := Ceil(p / 100.0 * n as real);
    if r > 1 then r else 1
  }

  lemma NatRanks()
    ensures TotalOrder(NatLe)
  {
  }

  predicate ValidPercentile(p: real) { 0.0 <= p <= 100.0 }

  lemma ScaleUp(f: real, g: real, x: real)
    requires f <= g && x >= 0.0
    ensures f * x <= g * x
  {
  }

  lemma CeilGrows(x: real, y: real)
    requires x <= y
    ensures Ceil(x) <= Ceil(y)
  {
    assert (-y).Floor as real <= -y <= -x;
    assert -x < (-x).Floor as real + 1.0;
  }

  lemma CeilWhole(n: nat)
    ensures Ceil(n as real) == n
  {
    var k: int := n;
    assert -(k as real) == (-k) as real;
  }

  /** The rank is a position, and it grows with p. */
  lemma RankInRange(p: real, q: real, n: nat)
    requires ValidPercentile(p) && ValidPercentile(q) && p <= q && n > 0
    ensures 1 <= Rank(p, n) <= Rank(q, n) <= n
    ensures Rank(0.0, n) == 1 && Rank(100.0, n) == n
  {
    var x := n as real;
    ScaleUp(p / 100.0, q / 100.0, x);
    ScaleUp(q / 100.0, 1.0, x);
    CeilGrows(p / 100.0 * x, q / 100.0 * x);
    CeilGrows(q / 100.0 * x, x);
    CeilWhole(n);
    assert 0.0 / 100.0 * x == 0.0 && 100.0 / 100.0 * x == x;
  }

  lemma CeilExactly(x: real, k: int)
    ensures k as real >= x <==> k >= Ceil(x)
  {
    var f := (-x).Floor;
    assert f as real <= -x < f as real + 1.0;
    assert -(k as real) == (-k) as real;
  }

  /** The rank is the least position k of at least 1 with k in a hundred of n at or above p. */
  lemma RankIsLeast(p: real, n: nat, k: int)
    requires ValidPercentile(p) && k >= 1
    ensures Rank(p, n) >= 1 && (100.0 * k as real >= p * n as real <==> k >= Rank(p, n))
  {
    var x := p / 100.0 * n as real;
    assert 100.0 * x == p * n as real;
    CeilExactly(x, k);
  }

  function NearestRank(values: seq<nat>, p: real): (v: nat)
    requires values != [] && ValidPercentile(p)
    ensures v in Sort(NatLe, values)
  {
    RankInRange(p, p, |values|);
    Sort(NatLe, values)[Rank(p, |values|) - 1]
  }

  // ---- counting ----

  function CountAtMost(s: seq<nat>, x: int): nat {
    if s == [] then 0 else (if s[0] <= x then 1 else 0) + CountAtMost(s[1..], x)
  }

  lemma {:induction false} CountInsert(y: nat, s: seq<nat>, x: int)
    ensures CountAtMost(Insert(NatLe, y, s), x) == CountAtMost([y] + s, x)
  {
    assert ([y] + s)[1..] == s;
    if s != [] && !NatLe(y, s[0]) {
      CountInsert(y, s[1..], x);
      assert ([y] + s[1..])[1..] == s[1..];
      assert Insert(NatLe, y, s)[1..] == Insert(NatLe, y, s[1..]);
    }
  }

  lemma {:induction false} CountSort(s: seq<nat>, x: int)
    ensures CountAtMost(Sort(NatLe, s), x) == CountAtMost(s, x)
  {
    if s != [] {
      CountSort(s[1..], x);
      CountInsert(s[0], Sort(NatLe, s[1..]), x);
      assert ([s[0]] + Sort(NatLe, s[1..]))[1..] == Sort(NatLe, s[1..]);
    }
  }

  /** In sorted order, position k is at most x exactly when more than k elements are. */
  lemma {:induction false} SortedCount(s: seq<nat>, k: nat, x: int)
    requires Sorted(NatLe, s) && k < |s|
    ensures s[k] <= x <==> CountAtMost(s, x) > k
    decreases |s|
  {
    if s[0] > x {
      NoneAtMost(s, x);
      assert k > 0 ==> NatLe(s[0], s[k]);
    } else if k > 0 {
      SortedCount(s[1..], k - 1, x);
    }
  }

  lemma {:induction false} NoneAtMost(s: seq<nat>, x: int)
    requires Sorted(NatLe, s) && (s != [] ==> s[0] > x)
    ensures CountAtMost(s, x) == 0
  {
    if s != [] {
      if |s| > 1 { assert NatLe(s[0], s[1]); }
      NoneAtMost(s[1..], x);
    }
  }

  /** The value is at most x exactly when at least rank values are. */
  lemma AtMostByCount(values: seq<nat>, p: real, x: int)
    requires values != [] && ValidPercentile(p)
    ensures NearestRank(values, p) <= x <==> CountAtMost(values, x) >= Rank(p, |values|)
  {
    NatRanks();
    RankInRange(p, p, |values|);
    SortSorts(NatLe, values);
    SortedCount(Sort(NatLe, values), Rank(p, |values|) - 1, x);
    CountSort(values, x);
  }

  /**
   * The nearest-rank value is the observed value that at least rank values do not
   * exceed and fewer than rank values are below; there is only one such value.
   */
  lemma NearestRankMeaning(values: seq<nat>, p: real, v: nat)
    requires values != [] && ValidPercentile(p)
    ensures NearestRank(values, p) in values
    ensures v == NearestRank(values, p) <==>
              CountAtMost(values, v) >= Rank(p, |values|) && CountAtMost(values, v - 1) < Rank(p, |values|)
  {
    AtMostByCount(values, p, v);
    AtMostByCount(values, p, v - 1);
    NatRanks();
    SortSorts(NatLe, values);
    assert NearestRank(values, p) in multiset(Sort(NatLe, values));
  }

  /** In sorted order every value lies between the first and the last. */
  lemma SortedEnds(values: seq<nat>, v: nat)
    requires v in values
    ensures var s := Sort(NatLe, values); s[0] <= v <= s[|s| - 1]
  {
    NatRanks();
    SortSorts(NatLe, values);
    var s := Sort(NatLe, values);
    assert v in multiset(s);
    var i :| 0 <= i < |s| && s[i] == v;
    if i > 0 { assert NatLe(s[0], s[i]); }
    if i < |s| - 1 { assert NatLe(s[i], s[|s| - 1]); }
  }

  /** Higher percentiles give higher values, from the minimum at 0 to the maximum at 100. */
  lemma NearestRankBounds(values: seq<nat>, p: real, q: real)
    requires values != [] && ValidPercentile(p) && ValidPercentile(q) && p <= q
    ensures NearestRank(values, p) <= NearestRank(values, q)
    ensures forall v | v in values :: NearestRank(values, 0.0) <= v <= NearestRank(values, 100.0)
  {
    NatRanks();
    SortSorts(NatLe, values);
    var s := Sort(NatLe, values);
    RankInRange(p, q, |values|);
    if Rank(p, |values|) < Rank(q, |values|) { assert NatLe(s[Rank(p, |values|) - 1], s[Rank(q, |values|) - 1]); }
    RankInRange(0.0, 100.0, |values|);
    forall v | v in values ensures s[0] <= v <= s[|s| - 1] { SortedEnds(values, v); }
  }

  /** The order of the values does not matter. */
  lemma NearestRankForgetsOrder(a: seq<nat>, b: seq<nat>, p: real)
    requires a != [] && multiset(a) == multiset(b) && ValidPercentile(p)
    ensures |a| == |b| && b != [] && NearestRank(a, p) == NearestRank(b, p)
  {
    NatRanks();
    SortForgetsOrder(NatLe, a, b);
  }

  /** Each value at least as large. */
  predicate Pointwise(a: seq<nat>, b: seq<nat>) { |a| == |b| && forall i | 0 <= i < |a| :: a[i] <= b[i] }

  lemma {:induction false} PointwiseCount(a: seq<nat>, b: seq<nat>, x: int)
    requires Pointwise(a, b)
    ensures CountAtMost(b, x) <= CountAtMost(a, x)
  {
    if a != [] {
      assert forall i | 0 <= i < |a[1..]| :: a[1..][i] == a[i + 1] && b[1..][i] == b[i + 1];
      PointwiseCount(a[1..], b[1..], x);
    }
  }

  /** Raising values never lowers the percentile. */
  lemma NearestRankMonotone(a: seq<nat>, b: seq<nat>, p: real)
    requires Pointwise(a, b) && a != [] && ValidPercentile(p)
    ensures NearestRank(a, p) <= NearestRank(b, p)
  {
    var v := NearestRank(b, p);
    AtMostByCount(b, p, v);
    AtMostByCount(a, p, v);
    PointwiseCount(a, b, v);
  }
}
