/** Grouping a sequence by a key. */
module Grouping {
  import opened Sequences

  function HasKey<T(!new), K(==)>(key: T -> K, k: K): T -> bool { x => key(x) == k }

  /** The elements with key k, in order. */
  function Group<T(!new), K(==)>(s: seq<T>, key: T -> K, k: K): seq<T> { Filter(s, HasKey(key, k)) }

  function Keys<T(==), K(==)>(s: seq<T>, key: T -> K): set<K> { set x | x in s :: key(x) }

  /** One entry for each key that occurs, holding its group. */
  predicate Grouped<T(!new, ==), K(==)>(groups: map<K, seq<T>>, s: seq<T>, key: T -> K) {
    groups.Keys == Keys(s, key) && forall k | k in groups :: groups[k] == Group(s, key, k)
  }

  function AddToGroup<T, K(==)>(groups: map<K, seq<T>>, k: K, x: T): map<K, seq<T>> {
    groups[k := (if k in groups then groups[k] else []) + [x]]
  }

  lemma GroupSnoc<T(!new), K>(s: seq<T>, key: T -> K, k: K, x: T)
    ensures Group(s + [x], key, k) == if key(x) == k then Group(s, key, k) + [x] else Group(s, key, k)
    ensures k !in Keys(s, key) ==> Group(s, key, k) == []
  {
    FilterSnoc(s, x, HasKey(key, k));
    if Group(s, key, k) != [] { assert Group(s, key, k)[0] in s; }
  }

  lemma GroupedGrows<T(!new), K>(groups: map<K, seq<T>>, s: seq<T>, key: T -> K, x: T)
    requires Grouped(groups, s, key)
    ensures Grouped(AddToGroup(groups, key(x), x), s + [x], key)
  {
    var more := AddToGroup(groups, key(x), x);
    GroupSnoc(s, key, key(x), x);
    forall k | k in groups && k != key(x) ensures more[k] == Group(s + [x], key, k) { GroupSnoc(s, key, k, x); }
    assert Keys(s + [x], key) == Keys(s, key) + {key(x)};
  }

  lemma KeysForgetOrder<T, K>(a: seq<T>, b: seq<T>, key: T -> K)
    requires multiset(a) == multiset(b)
    ensures Keys(a, key) == Keys(b, key)
  {
    assert forall x :: x in a <==> x in multiset(a);
    assert forall x :: x in b <==> x in multiset(b);
  }

  /** The element's key is one of these, and passes. */
  function Kept<T, K(==)>(key: T -> K, keys: seq<K>, pass: K -> bool): T -> bool {
    x => key(x) in keys && pass(key(x))
  }

  /** One more key keeps the elements of its group, or none. */
  lemma OneMoreKey<T(!new), K>(s: seq<T>, key: T -> K, keys: seq<K>, k: K, pass: K -> bool)
    requires k !in keys
    ensures multiset(Filter(s, Kept(key, keys + [k], pass)))
            == multiset(Filter(s, Kept(key, keys, pass)) + if pass(k) then Group(s, key, k) else [])
  {
    forall x ensures multiset(Filter(s, Kept(key, keys + [k], pass)))[x]
                     == multiset(Filter(s, Kept(key, keys, pass)) + if pass(k) then Group(s, key, k) else [])[x]
    {
      FilterCounts(s, Kept(key, keys + [k], pass), x);
      FilterCounts(s, Kept(key, keys, pass), x);
      FilterCounts(s, HasKey(key, k), x);
    }
  }

  lemma NoKeys<T(!new), K>(s: seq<T>, key: T -> K, pass: K -> bool)
    ensures Filter(s, Kept(key, [], pass)) == []
  {
    var none := Filter(s, Kept(key, [], pass));
    assert forall x | x in none :: false;
  }
}
