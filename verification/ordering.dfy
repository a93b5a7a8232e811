/** Total orders, lexicographic order, and sorting. */
module Ordering {

  /** Any two elements compare, and comparisons chain. */
  ghost predicate Ranking<T(!new)>(le: (T, T) -> bool) {
    && (forall a, b :: le(a, b) || le(b, a))
    && (forall a, b, c :: le(a, b) && le(b, c) ==> le(a, c))
  }

  /** A ranking without ties. */
  ghost predicate TotalOrder<T(!new)>(le: (T, T) -> bool) {
    Ranking(le) && forall a, b :: le(a, b) && le(b, a) ==> a == b
  }

  predicate Sorted<T>(le: (T, T) -> bool, s: seq<T>) {
    forall i, j | 0 <= i < j < |s| :: le(s[i], s[j])
  }

  function Insert<T>(le: (T, T) -> bool, x: T, s: seq<T>): (r: seq<T>)
    ensures |r| == |s| + 1
  {
    if s == [] || le(x, s[0]) then [x] + s else [s[0]] + Insert(le, x, s[1..])
  }

  function Sort<T>(le: (T, T) -> bool, s: seq<T>): (r: seq<T>)
    ensures |r| == |s|
  {
    if s == [] then [] else Insert(le, s[0], Sort(le, s[1..]))
  }

  lemma {:induction false} InsertKeeps<T>(le: (T, T) -> bool, x: T, s: seq<T>)
    ensures multiset(Insert(le, x, s)) == multiset(s) + multiset{x}
  {
    if s != [] && !le(x, s[0]) {
      InsertKeeps(le, x, s[1..]);
      assert s == [s[0]] + s[1..];
    }
  }

  lemma {:induction false} InsertSorted<T(!new)>(le: (T, T) -> bool, x: T, s: seq<T>)
    requires Ranking(le) && Sorted(le, s)
    ensures Sorted(le, Insert(le, x, s))
  {
    if s != [] && !le(x, s[0]) {
      InsertSorted(le, x, s[1..]);
      InsertKeeps(le, x, s[1..]);
      var rest := Insert(le, x, s[1..]);
      forall y | y in rest ensures le(s[0], y) {
        assert y in multiset(rest);
        if y != x {
          assert y in s[1..];
          var k :| 0 <= k < |s[1..]| && s[1..][k] == y;
          assert s[k + 1] == y;
        }
      }
    }
  }

  /** Sorting orders a sequence and keeps its elements. */
  lemma {:induction false} SortSorts<T(!new)>(le: (T, T) -> bool, s: seq<T>)
    requires Ranking(le)
    ensures Sorted(le, Sort(le, s)) && multiset(Sort(le, s)) == multiset(s)
  {
    if s != [] {
      SortSorts(le, s[1..]);
      InsertSorted(le, s[0], Sort(le, s[1..]));
      InsertKeeps(le, s[0], Sort(le, s[1..]));
      assert s == [s[0]] + s[1..];
    }
  }

  lemma SortedHead<T(!new)>(le: (T, T) -> bool, a: seq<T>, x: T)
    requires TotalOrder(le) && Sorted(le, a) && x in multiset(a)
    ensures a != [] && le(a[0], x)
  {
    assert x in a;
    var j :| 0 <= j < |a| && a[j] == x;
  }

  lemma DropHead<T>(a: seq<T>)
    requires a != []
    ensures multiset(a[1..]) == multiset(a) - multiset{a[0]} && a[0] in multiset(a)
  {
    assert a == [a[0]] + a[1..];
  }

  /** There is only one sorted arrangement of the same elements. */
  lemma {:induction false} SortedUnique<T(!new)>(le: (T, T) -> bool, a: seq<T>, b: seq<T>)
    requires TotalOrder(le) && Sorted(le, a) && Sorted(le, b) && multiset(a) == multiset(b)
    ensures a == b
  {
    if a == [] {
      if b != [] { DropHead(b); }
    } else {
      DropHead(a);
      SortedHead(le, b, a[0]);
      DropHead(b);
      SortedHead(le, a, b[0]);
      SortedUnique(le, a[1..], b[1..]);
      assert a == [a[0]] + a[1..] && b == [b[0]] + b[1..];
    }
  }

  /** Sorting forgets the order the elements came in. */
  lemma SortForgetsOrder<T(!new)>(le: (T, T) -> bool, a: seq<T>, b: seq<T>)
    requires TotalOrder(le) && multiset(a) == multiset(b)
    ensures Sort(le, a) == Sort(le, b)
  {
    SortSorts(le, a);
    SortSorts(le, b);
    SortedUnique(le, Sort(le, a), Sort(le, b));
  }

  // ---- lexicographic order ----

  predicate Lex<T(==)>(le: (T, T) -> bool, a: seq<T>, b: seq<T>) {
    if a == [] then true
    else if b == [] then false
    else if a[0] == b[0] then Lex(le, a[1..], b[1..])
    else le(a[0], b[0])
  }

  lemma {:induction false} LexTotal<T(!new)>(le: (T, T) -> bool, a: seq<T>, b: seq<T>)
    requires TotalOrder(le)
    ensures Lex(le, a, b) || Lex(le, b, a)
    ensures Lex(le, a, b) && Lex(le, b, a) ==> a == b
  {
    if a != [] && b != [] && a[0] == b[0] {
      LexTotal(le, a[1..], b[1..]);
      assert a == [a[0]] + a[1..] && b == [b[0]] + b[1..];
    }
  }

  lemma {:induction false} LexTransitive<T(!new)>(le: (T, T) -> bool, a: seq<T>, b: seq<T>, c: seq<T>)
    requires TotalOrder(le) && Lex(le, a, b) && Lex(le, b, c)
    ensures Lex(le, a, c)
  {
    if a != [] && b != [] && c != [] && a[0] == b[0] && b[0] == c[0] {
      LexTransitive(le, a[1..], b[1..], c[1..]);
    }
  }

  /** One comparison at a time. */
  lemma LexStep<T>(le: (T, T) -> bool, x: T, s: seq<T>, y: T, t: seq<T>)
    ensures Lex(le, [x] + s, [y] + t) <==> if x == y then Lex(le, s, t) else le(x, y)
  {
    assert ([x] + s)[1..] == s && ([y] + t)[1..] == t;
  }

  /** A prefix comes first; otherwise the first elements that differ decide. */
  lemma {:induction false} LexExactly<T(!new)>(le: (T, T) -> bool, a: seq<T>, b: seq<T>)
    ensures Lex(le, a, b) <==>
              a <= b || exists k: nat :: DecidedAt(le, a, b, k)
  {
    if a != [] && b != [] {
      if a[0] == b[0] {
        LexExactly(le, a[1..], b[1..]);
        assert a == [a[0]] + a[1..] && b == [b[0]] + b[1..];
        DiffersLater(le, a, b);
      } else {
        assert a[..0] == b[..0];
        assert le(a[0], b[0]) ==> DecidedAt(le, a, b, 0);
        assert !le(a[0], b[0]) ==> forall k: nat :: !DecidedAt(le, a, b, k) by {
          forall k: nat | 0 < k < |a| && k < |b| ensures a[..k] != b[..k] { assert a[..k][0] != b[..k][0]; }
        }
      }
    }
  }

  ghost predicate DecidedAt<T(!new)>(le: (T, T) -> bool, a: seq<T>, b: seq<T>, k: nat) {
    k < |a| && k < |b| && a[..k] == b[..k] && a[k] != b[k] && le(a[k], b[k])
  }

  lemma DiffersLater<T(!new)>(le: (T, T) -> bool, a: seq<T>, b: seq<T>)
    requires a != [] && b != [] && a[0] == b[0]
    ensures (exists k: nat :: DecidedAt(le, a, b, k)) <==> exists k: nat :: DecidedAt(le, a[1..], b[1..], k)
  {
    if k: nat :| DecidedAt(le, a, b, k) {
      assert a[1..][..k - 1] == a[..k][1..] && b[1..][..k - 1] == b[..k][1..];
      assert DecidedAt(le, a[1..], b[1..], k - 1);
    }
    if k: nat :| DecidedAt(le, a[1..], b[1..], k) {
      assert a[..k + 1] == [a[0]] + a[1..][..k] && b[..k + 1] == [b[0]] + b[1..][..k];
      assert DecidedAt(le, a, b, k + 1);
    }
  }

  predicate CharLe(a: char, b: char) { a <= b }

  /** Text order: code point by code point, a prefix first. */
  predicate StrLe(a: string, b: string) { Lex(CharLe, a, b) }

  /** Order of lists of text. */
  predicate ListLe(a: seq<string>, b: seq<string>) { Lex(StrLe, a, b) }

  /** Order of tuples of lists of text. */
  predicate TupleLe(a: seq<seq<string>>, b: seq<seq<string>>) { Lex(ListLe, a, b) }

  lemma StrTotal()
    ensures TotalOrder(StrLe)
  {
    assert TotalOrder(CharLe);
    forall a: string, b: string ensures (StrLe(a, b) || StrLe(b, a)) && (StrLe(a, b) && StrLe(b, a) ==> a == b) {
      LexTotal(CharLe, a, b);
    }
    forall a: string, b: string, c: string | StrLe(a, b) && StrLe(b, c) ensures StrLe(a, c) {
      LexTransitive(CharLe, a, b, c);
    }
  }

  lemma ListTotal()
    ensures TotalOrder(ListLe)
  {
    StrTotal();
    forall a: seq<string>, b: seq<string> ensures (ListLe(a, b) || ListLe(b, a)) && (ListLe(a, b) && ListLe(b, a) ==> a == b) {
      LexTotal(StrLe, a, b);
    }
    forall a: seq<string>, b: seq<string>, c: seq<string> | ListLe(a, b) && ListLe(b, c) ensures ListLe(a, c) {
      LexTransitive(StrLe, a, b, c);
    }
  }

  lemma TupleTotal()
    ensures TotalOrder(TupleLe)
  {
    ListTotal();
    forall a: seq<seq<string>>, b: seq<seq<string>>
      ensures (TupleLe(a, b) || TupleLe(b, a)) && (TupleLe(a, b) && TupleLe(b, a) ==> a == b)
    {
      LexTotal(ListLe, a, b);
    }
    forall a: seq<seq<string>>, b: seq<seq<string>>, c: seq<seq<string>> | TupleLe(a, b) && TupleLe(b, c) ensures TupleLe(a, c) {
      LexTransitive(ListLe, a, b, c);
    }
  }

  // ---- sorted sets ----

  lemma {:induction false} LeastExists<T(!new)>(le: (T, T) -> bool, s: set<T>)
    requires TotalOrder(le) && s != {}
    ensures exists x :: x in s && forall y | y in s :: le(x, y)
  {
    var z :| z in s;
    var rest := s - {z};
    if rest == {} {
      assert s == {z};
    } else {
      LeastExists(le, rest);
      var w :| w in rest && forall y | y in rest :: le(w, y);
      var x := if le(z, w) then z else w;
      forall y | y in s ensures le(x, y) {
        if y != z { assert le(w, y); }
      }
    }
  }

  /** The elements of a set, in order. */
  function SortedSet<T(==, !new)>(le: (T, T) -> bool, s: set<T>): (r: seq<T>)
    requires TotalOrder(le)
    ensures forall x :: x in r <==> x in s
    decreases s
  {
    if s == {} then []
    else
      LeastExists(le, s);
      var x :| x in s && forall y | y in s :: le(x, y);
      [x] + SortedSet(le, s - {x})
  }

  lemma {:induction false} SortedSetSorted<T(!new)>(le: (T, T) -> bool, s: set<T>)
    requires TotalOrder(le)
    ensures Sorted(le, SortedSet(le, s))
    ensures forall i, j | 0 <= i < j < |SortedSet(le, s)| :: SortedSet(le, s)[i] != SortedSet(le, s)[j]
    decreases s
  {
    if s != {} {
      LeastExists(le, s);
      var r := SortedSet(le, s);
      SortedSetSorted(le, s - {r[0]});
      assert r[1..] == SortedSet(le, s - {r[0]});
      forall i, j | 0 <= i < j < |r| ensures le(r[i], r[j]) && r[i] != r[j] {
        assert r[j] == r[1..][j - 1] && r[j] in SortedSet(le, s - {r[0]});
        if i > 0 { assert r[i] == r[1..][i - 1]; }
      }
    }
  }
}
