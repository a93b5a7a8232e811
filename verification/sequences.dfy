/** Filtering and mapping sequences, and what that does to their elements. */
module Sequences {

  function Filter<T(!new)>(s: seq<T>, keep: T -> bool): (r: seq<T>)
    ensures |r| <= |s| && forall x :: x in r <==> x in s && keep(x)
  {
    if s == [] then []
    else
      assert s == [s[0]] + s[1..];
      (if keep(s[0]) then [s[0]] else []) + Filter(s[1..], keep)
  }

  function Map<S, T>(s: seq<S>, f: S -> T): (r: seq<T>)
    ensures |r| == |s| && forall i | 0 <= i < |s| :: r[i] == f(s[i])
  {
    seq(|s|, i requires 0 <= i < |s| => f(s[i]))
  }

  lemma {:induction false} FilterAppend<T(!new)>(a: seq<T>, b: seq<T>, keep: T -> bool)
    ensures Filter(a + b, keep) == Filter(a, keep) + Filter(b, keep)
  {
    if a == [] {
      assert a + b == b;
    } else {
      assert (a + b)[1..] == a[1..] + b;
      FilterAppend(a[1..], b, keep);
    }
  }

  /** One more element at the end. */
  lemma FilterSnoc<T(!new)>(s: seq<T>, x: T, keep: T -> bool)
    ensures Filter(s + [x], keep) == if keep(x) then Filter(s, keep) + [x] else Filter(s, keep)
  {
    FilterAppend(s, [x], keep);
    assert Filter([x][1..], keep) == [];
  }

  /** Filtering keeps all copies of what it keeps. */
  lemma {:induction false} FilterCounts<T(!new)>(s: seq<T>, keep: T -> bool, x: T)
    ensures multiset(Filter(s, keep))[x] == if keep(x) then multiset(s)[x] else 0
  {
    if s != [] {
      FilterCounts(s[1..], keep, x);
      assert s == [s[0]] + s[1..];
    }
  }

  lemma FilterForgetsOrder<T(!new)>(a: seq<T>, b: seq<T>, keep: T -> bool)
    requires multiset(a) == multiset(b)
    ensures multiset(Filter(a, keep)) == multiset(Filter(b, keep))
  {
    forall x ensures multiset(Filter(a, keep))[x] == multiset(Filter(b, keep))[x] {
      FilterCounts(a, keep, x);
      FilterCounts(b, keep, x);
    }
  }

  /** Filtering by a weaker condition first changes nothing. */
  lemma {:induction false} FilterTwice<T(!new)>(s: seq<T>, weak: T -> bool, strong: T -> bool)
    requires forall x | x in s && strong(x) :: weak(x)
    ensures Filter(Filter(s, weak), strong) == Filter(s, strong)
  {
    if s != [] {
      assert forall x | x in s[1..] :: x in s;
      FilterTwice(s[1..], weak, strong);
      FilterAppend(if weak(s[0]) then [s[0]] else [], Filter(s[1..], weak), strong);
      assert Filter([], strong) == [];
      FilterSnoc([], s[0], strong);
      assert [] + [s[0]] == [s[0]];
    }
  }

  /** Two sequences with related elements at each position. */
  predicate Related<T>(a: seq<T>, b: seq<T>, r: (T, T) -> bool) {
    |a| == |b| && forall i | 0 <= i < |a| :: r(a[i], b[i])
  }

  /** Filtering by a test that does not tell related elements apart leaves related ones. */
  lemma {:induction false} FilterRelated<T(!new)>(a: seq<T>, b: seq<T>, r: (T, T) -> bool, keep: T -> bool)
    requires Related(a, b, r) && forall x, y | r(x, y) :: keep(x) == keep(y)
    ensures Related(Filter(a, keep), Filter(b, keep), r)
  {
    if a != [] {
      forall i | 0 <= i < |a| - 1 ensures r(a[1..][i], b[1..][i]) { assert r(a[i + 1], b[i + 1]); }
      FilterRelated(a[1..], b[1..], r, keep);
      assert r(a[0], b[0]);
    }
  }

  lemma {:induction false} FilterSame<T(!new)>(s: seq<T>, p: T -> bool, q: T -> bool)
    requires forall x | x in s :: p(x) == q(x)
    ensures Filter(s, p) == Filter(s, q)
  {
    if s != [] {
      assert forall x | x in s[1..] :: x in s;
      FilterSame(s[1..], p, q);
    }
  }

  function Both<T>(p: T -> bool, q: T -> bool): T -> bool { x => p(x) && q(x) }

  lemma {:induction false} FilterBoth<T(!new)>(s: seq<T>, p: T -> bool, q: T -> bool)
    ensures Filter(Filter(s, p), q) == Filter(s, Both(p, q))
  {
    if s != [] {
      var n := |s| - 1;
      assert s == s[..n] + [s[n]];
      FilterBoth(s[..n], p, q);
      FilterSnoc(s[..n], s[n], p);
      FilterSnoc(s[..n], s[n], Both(p, q));
      FilterSnoc(Filter(s[..n], p), s[n], q);
    }
  }

  /** Two filters may be applied in either order. */
  lemma FilterSwap<T(!new)>(s: seq<T>, p: T -> bool, q: T -> bool)
    ensures Filter(Filter(s, p), q) == Filter(Filter(s, q), p)
  {
    FilterBoth(s, p, q);
    FilterBoth(s, q, p);
    FilterSame(s, Both(p, q), Both(q, p));
  }

  lemma {:induction false} FilterAll<T(!new)>(s: seq<T>, keep: T -> bool)
    requires forall x | x in s :: keep(x)
    ensures Filter(s, keep) == s
  {
    if s != [] {
      assert forall x | x in s[1..] :: x in s;
      FilterAll(s[1..], keep);
    }
  }

  lemma MapAppend<S, T>(a: seq<S>, b: seq<S>, f: S -> T)
    ensures Map(a + b, f) == Map(a, f) + Map(b, f)
  {
  }

  function Without<T>(s: seq<T>, i: nat): seq<T>
    requires i < |s|
  {
    s[..i] + s[i + 1..]
  }

  lemma TakeOut<T>(s: seq<T>, i: nat)
    requires i < |s|
    ensures multiset(s) == multiset{s[i]} + multiset(Without(s, i))
  {
    assert s == s[..i] + ([s[i]] + s[i + 1..]);
  }

  lemma Cancel<T>(x: T, a: multiset<T>, b: multiset<T>)
    requires multiset{x} + a == multiset{x} + b
    ensures a == b
  {
    forall y ensures a[y] == b[y] { assert (multiset{x} + a)[y] == (multiset{x} + b)[y]; }
  }

  lemma {:induction false} MapForgetsOrder<S, T>(a: seq<S>, b: seq<S>, f: S -> T)
    requires multiset(a) == multiset(b)
    ensures multiset(Map(a, f)) == multiset(Map(b, f))
    decreases |a|
  {
    assert |a| == |multiset(b)|;
    if a != [] {
      assert a[0] in multiset(b);
      var i :| 0 <= i < |b| && b[i] == a[0];
      TakeOut(a, 0);
      TakeOut(b, i);
      Cancel(a[0], multiset(Without(a, 0)), multiset(Without(b, i)));
      MapForgetsOrder(Without(a, 0), Without(b, i), f);
      TakeOut(Map(a, f), 0);
      TakeOut(Map(b, f), i);
      MapWithout(a, 0, f);
      MapWithout(b, i, f);
    }
  }

  lemma MapWithout<S, T>(s: seq<S>, i: nat, f: S -> T)
    requires i < |s|
    ensures Without(Map(s, f), i) == Map(Without(s, i), f)
  {
  }

  /** Sequences without repeats and with the same members hold the same elements. */
  lemma SameMembers<T(!new)>(a: seq<T>, b: seq<T>)
    requires forall i, j | 0 <= i < j < |a| :: a[i] != a[j]
    requires forall i, j | 0 <= i < j < |b| :: b[i] != b[j]
    requires forall x :: x in a <==> x in b
    ensures multiset(a) == multiset(b)
  {
    forall x ensures multiset(a)[x] == multiset(b)[x] {
      Occurs(a, x);
      Occurs(b, x);
    }
  }

  lemma {:induction false} Occurs<T>(s: seq<T>, x: T)
    requires forall i, j | 0 <= i < j < |s| :: s[i] != s[j]
    ensures multiset(s)[x] == if x in s then 1 else 0
  {
    if s != [] {
      var t := s[1..];
      assert s == [s[0]] + t;
      forall i, j | 0 <= i < j < |t| ensures t[i] != t[j] { assert s[i + 1] != s[j + 1]; }
      Occurs(t, x);
      forall i | 0 <= i < |t| ensures t[i] != s[0] { assert s[i + 1] != s[0]; }
    }
  }

  /** An element at two positions occurs at least twice. */
  lemma Twice<T>(s: seq<T>, i: nat, j: nat)
    requires i < j < |s| && s[i] == s[j]
    ensures multiset(s)[s[i]] >= 2
  {
    assert s == s[..i] + [s[i]] + (s[i + 1..j] + [s[j]] + s[j + 1..]);
  }

  lemma SameLength<T>(a: seq<T>, b: seq<T>)
    requires multiset(a) == multiset(b)
    ensures |a| == |b|
  {
    assert |a| == |multiset(a)| && |b| == |multiset(b)|;
  }
}
