/** Cursor pagination over the catalog of governed models. */
module Paging {
  import opened Prelude
  import opened Ordering
  import opened Sequences

  /** A catalog entry; an empty key stands for one that is missing or not text. */
  datatype Entry = Entry(key: string, description: string, layer: Option<string>, tags: seq<string>)

  datatype Page = Page(items: seq<Entry>, next: Option<string>, total: nat)

  datatype ServiceError = ScopeDenied | LimitExceeded | ResourceUnavailable | InvalidCursor

  datatype Payload = Payload(after: string, catalog: string, sig: string, version: int)

  /** JSON in base64 as a text encoding of payloads, and SHA-256 as a digest of texts. */
  datatype Codec = Codec(encode: Payload -> string, decode: string -> Option<Payload>, digest: string -> string)

  ghost predicate Lawful(k: Codec) {
    forall p :: k.decode(k.encode(p)) == Some(p) && k.encode(p) != ""
  }

  const VERSION := 1
  const DOMAIN: string := "skifer.agent-ready.models.v1\0"

  // ---- cursors ----

  /** "\0".join(keys) */
  function Join(keys: seq<string>): string {
    if keys == [] then "" else if |keys| == 1 then keys[0] else keys[0] + "\0" + Join(keys[1..])
  }

  function Fingerprint(k: Codec, keys: seq<string>): string { k.digest(Join(keys)) }

  function Signature(k: Codec, after: string, fingerprint: string): string {
    k.digest(DOMAIN + (after + "\0" + fingerprint))
  }

  function EncodeCursor(k: Codec, after: string, keys: seq<string>): string {
    var f := Fingerprint(k, keys);
    k.encode(Payload(after, f, Signature(k, after, f), VERSION))
  }

  /** The first position of x. */
  function IndexOf(keys: seq<string>, x: string): (r: Option<nat>)
    ensures r.None? ==> x !in keys
    ensures r.Some? ==> r.value < |keys| && keys[r.value] == x && forall j | 0 <= j < r.value :: keys[j] != x
  {
    if keys == [] then None
    else if keys[0] == x then Some(0)
    else
      match IndexOf(keys[1..], x)
      case None => None
      case Some(i) => Some(i + 1)
  }

  function DecodeCursor(k: Codec, cursor: string, keys: seq<string>): (r: Result<nat, ServiceError>)
    ensures r.Ok? ==> 1 <= r.value < |keys|
  {
    if cursor == "" then Err(InvalidCursor)
    else
      match k.decode(cursor)
      case None => Err(InvalidCursor)
      case Some(p) =>
        if p.version != VERSION || p.catalog != Fingerprint(k, keys) then Err(InvalidCursor)
        else if p.sig != Signature(k, p.after, p.catalog) then Err(InvalidCursor)
        else
          match IndexOf(keys, p.after)
          case None => Err(InvalidCursor)
          case Some(i) => if i >= |keys| - 1 then Err(InvalidCursor) else Ok(i + 1)
  }

  // ---- one page ----

  predicate ByKey(a: Entry, b: Entry) { StrLe(a.key, b.key) }

  function KeyOf(e: Entry): string { e.key }

  function Entries(catalog: seq<Entry>): seq<Entry> { Sort(ByKey, catalog) }

  predicate ValidLimit(limit: int, most: int) { 1 <= limit <= most }

  /** The page of at most limit entries from start. */
  function PageFrom(k: Codec, entries: seq<Entry>, start: nat, limit: nat): Page
    requires start <= |entries| && limit >= 1
  {
    var end := if start + limit < |entries| then start + limit else |entries|;
    var keys := Map(entries, KeyOf);
    Page(entries[start..end], if end < |entries| then Some(EncodeCursor(k, keys[end - 1], keys)) else None, |entries|)
  }

  function ListModels(k: Codec, allowed: bool, most: int, catalog: seq<Entry>, cursor: Option<string>, limit: int):
    Result<Page, ServiceError>
  {
    if !allowed then Err(ScopeDenied)
    else if !ValidLimit(limit, most) then Err(LimitExceeded)
    else if exists e | e in catalog :: e.key == "" then Err(ResourceUnavailable)
    else
      var entries := Entries(catalog);
      if cursor.None? then Ok(PageFrom(k, entries, 0, limit))
      else
        match DecodeCursor(k, cursor.value, Map(entries, KeyOf))
        case Err(e) => Err(e)
        case Ok(start) => Ok(PageFrom(k, entries, start, limit))
  }

  /** The entries are those of the catalog, in the order of their keys; equal keys keep their order. */
  lemma CatalogOrder(catalog: seq<Entry>, key: string)
    ensures multiset(Entries(catalog)) == multiset(catalog)
    ensures forall i, j | 0 <= i < j < |catalog| :: StrLe(Entries(catalog)[i].key, Entries(catalog)[j].key)
    ensures Filter(Entries(catalog), WithKey(key)) == Filter(catalog, WithKey(key))
  {
    StrTotal();
    SortSorts(ByKey, catalog);
    SortKeepsTies(catalog, key);
  }

  function WithKey(key: string): Entry -> bool { (e: Entry) => e.key == key }

  lemma {:induction false} InsertKeepsTies(x: Entry, s: seq<Entry>, key: string)
    ensures Filter(Insert(ByKey, x, s), WithKey(key)) == Filter([x] + s, WithKey(key))
  {
    if s != [] && !ByKey(x, s[0]) {
      StrTotal();
      InsertKeepsTies(x, s[1..], key);
      assert ([x] + s)[1..] == s && ([x] + s[1..])[1..] == s[1..];
    }
  }

  lemma {:induction false} SortKeepsTies(s: seq<Entry>, key: string)
    ensures Filter(Sort(ByKey, s), WithKey(key)) == Filter(s, WithKey(key))
  {
    if s != [] {
      SortKeepsTies(s[1..], key);
      InsertKeepsTies(s[0], Sort(ByKey, s[1..]), key);
      assert ([s[0]] + Sort(ByKey, s[1..]))[1..] == Sort(ByKey, s[1..]);
    }
  }

  // ---- when a page is refused, and what it holds ----

  /** The cursor carries the key before position start of these keys, their fingerprint, a signature and the version. */
  predicate LeadsTo(k: Codec, cursor: string, keys: seq<string>, start: nat) {
    && cursor != "" && 1 <= start < |keys| && keys[start - 1] !in keys[..start - 1]
    && k.decode(cursor) == Some(Payload(keys[start - 1], k.digest(Join(keys)),
                                        k.digest(DOMAIN + keys[start - 1] + "\0" + k.digest(Join(keys))), 1))
  }

  /** A page is refused for the scope, then the limit, then a missing key, then the cursor; and for nothing else. */
  lemma RefusedExactly(k: Codec, allowed: bool, most: int, catalog: seq<Entry>, cursor: Option<string>, limit: int)
    ensures var r, keys := ListModels(k, allowed, most, catalog, cursor, limit), Map(Entries(catalog), KeyOf);
            && (r == Err(ScopeDenied) <==> !allowed)
            && (r == Err(LimitExceeded) <==> allowed && !(1 <= limit <= most))
            && (r == Err(ResourceUnavailable) <==>
                  allowed && 1 <= limit <= most && exists e :: e in catalog && e.key == "")
            && (r == Err(InvalidCursor) <==>
                  && allowed && 1 <= limit <= most && (forall e | e in catalog :: e.key != "")
                  && cursor.Some? && forall start: nat :: !LeadsTo(k, cursor.value, keys, start))
  {
    if cursor.Some? {
      var keys := Map(Entries(catalog), KeyOf);
      forall start: nat ensures DecodeCursor(k, cursor.value, keys) == Ok(start) <==> LeadsTo(k, cursor.value, keys, start) {
        CursorAcceptedExactly(k, cursor.value, keys, start);
        if 1 <= start < |keys| { SignedText(keys[start - 1], k.digest(Join(keys))); }
      }
    }
  }

  lemma SignedText(after: string, fingerprint: string)
    ensures DOMAIN + after + "\0" + fingerprint == DOMAIN + (after + "\0" + fingerprint)
  {
  }

  /** The position a page starts at. */
  ghost predicate StartsPage(k: Codec, catalog: seq<Entry>, cursor: Option<string>, start: nat) {
    if cursor.None? then start == 0 else LeadsTo(k, cursor.value, Map(Entries(catalog), KeyOf), start)
  }

  /**
   * A page holds the entries from its start on, as many as the limit allows, and the number
   * of all models; it has a cursor exactly when models are left, which carries its last key.
   */
  lemma PageExactly(k: Codec, allowed: bool, most: int, catalog: seq<Entry>, cursor: Option<string>, limit: int)
    returns (start: nat)
    requires ListModels(k, allowed, most, catalog, cursor, limit).Ok?
    ensures var page, entries := ListModels(k, allowed, most, catalog, cursor, limit).value, Entries(catalog);
            var end := start + |page.items|;
            && StartsPage(k, catalog, cursor, start) && page.total == |catalog|
            && end <= |catalog| && page.items == entries[start..end]
            && |page.items| <= limit && (|page.items| < limit ==> end == |catalog|)
            && (page.next.Some? <==> end < |catalog|)
            && (page.next.Some? ==> page.next.value == EncodeCursor(k, entries[end - 1].key, Map(entries, KeyOf)))
  {
    var keys := Map(Entries(catalog), KeyOf);
    if cursor.None? {
      start := 0;
    } else {
      start := DecodeCursor(k, cursor.value, keys).value;
      CursorAcceptedExactly(k, cursor.value, keys, start);
      SignedText(keys[start - 1], k.digest(Join(keys)));
    }
  }

  // ---- what a cursor means ----

  /** An issued cursor leads to the position behind the first entry with its key. */
  lemma CursorReads(k: Codec, keys: seq<string>, end: nat)
    requires Lawful(k) && 1 <= end < |keys|
    ensures DecodeCursor(k, EncodeCursor(k, keys[end - 1], keys), keys) == Ok(IndexOf(keys, keys[end - 1]).value + 1)
  {
    var after := keys[end - 1];
    var f := Fingerprint(k, keys);
    assert k.decode(k.encode(Payload(after, f, Signature(k, after, f), VERSION))) == Some(Payload(after, f, Signature(k, after, f), VERSION));
    BeforeEnd(keys, end);
  }

  lemma BeforeEnd(keys: seq<string>, end: nat)
    requires 1 <= end <= |keys|
    ensures IndexOf(keys, keys[end - 1]).Some? && IndexOf(keys, keys[end - 1]).value <= end - 1
  {
    assert keys[end - 1] in keys;
  }

  lemma FirstPosition(keys: seq<string>, end: nat)
    requires 1 <= end <= |keys|
    ensures IndexOf(keys, keys[end - 1]) == Some(end - 1) <==> keys[end - 1] !in keys[..end - 1]
  {
    BeforeEnd(keys, end);
    var i := IndexOf(keys, keys[end - 1]).value;
    if i < end - 1 { assert keys[..end - 1][i] == keys[end - 1]; }
  }

  /** It leads to the end of the page that issued it exactly when the page's last key is new. */
  lemma CursorDecodesExactly(k: Codec, keys: seq<string>, end: nat)
    requires Lawful(k) && 1 <= end < |keys|
    ensures DecodeCursor(k, EncodeCursor(k, keys[end - 1], keys), keys) == Ok(end) <==> keys[end - 1] !in keys[..end - 1]
  {
    CursorReads(k, keys, end);
    FirstPosition(keys, end);
  }

  /**
   * A cursor is accepted at a position exactly when it carries what is written for that
   * position of this very catalog: key, fingerprint, signature and version.
   */
  lemma CursorAcceptedExactly(k: Codec, cursor: string, keys: seq<string>, start: nat)
    ensures DecodeCursor(k, cursor, keys) == Ok(start) <==>
              && cursor != "" && 1 <= start < |keys| && keys[start - 1] !in keys[..start - 1]
              && k.decode(cursor) == Some(Payload(keys[start - 1], Fingerprint(k, keys),
                                                  Signature(k, keys[start - 1], Fingerprint(k, keys)), VERSION))
  {
    if 1 <= start < |keys| { FirstPosition(keys, start); }
  }

  predicate NoNul(keys: seq<string>) { forall s | s in keys :: '\0' !in s }

  /** Joining is injective on lists of keys without the separator. */
  lemma {:induction false} JoinInjective(a: seq<string>, b: seq<string>)
    requires a != [] && b != [] && NoNul(a) && NoNul(b) && Join(a) == Join(b)
    ensures a == b
    decreases |a|
  {
    assert a[0] in a && b[0] in b;
    SeparatorInJoin(a);
    SeparatorInJoin(b);
    if |a| > 1 && |b| > 1 {
      HeadsEqual(a[0], Join(a[1..]), b[0], Join(b[1..]));
      assert forall s | s in a[1..] :: s in a;
      assert forall s | s in b[1..] :: s in b;
      JoinInjective(a[1..], b[1..]);
      assert a == [a[0]] + a[1..] && b == [b[0]] + b[1..];
    }
  }

  lemma SeparatorInJoin(keys: seq<string>)
    requires NoNul(keys)
    ensures '\0' in Join(keys) <==> |keys| > 1
  {
    if |keys| == 1 { assert keys[0] in keys; }
    if |keys| > 1 { assert Join(keys)[|keys[0]|] == '\0'; }
  }

  lemma HeadsEqual(x: string, rest: string, y: string, other: string)
    requires '\0' !in x && '\0' !in y && x + "\0" + rest == y + "\0" + other
    ensures x == y && rest == other
  {
    var s, t := x + "\0" + rest, y + "\0" + other;
    assert s[|x|] == '\0' && t[|y|] == '\0';
    assert forall i | 0 <= i < |x| :: s[i] == x[i] && x[i] in x;
    assert forall i | 0 <= i < |y| :: t[i] == y[i] && y[i] in y;
    assert s[..|x|] == x && t[..|y|] == y;
    assert s[|x| + 1..] == rest && t[|y| + 1..] == other;
  }

  /** A cursor issued for another catalog is rejected, if the digest tells the two apart. */
  lemma StaleCursorRejected(k: Codec, after: string, keys: seq<string>, other: seq<string>)
    requires Lawful(k) && keys != [] && other != [] && NoNul(keys) && NoNul(other) && keys != other
    requires k.digest(Join(keys)) == k.digest(Join(other)) ==> Join(keys) == Join(other)
    ensures DecodeCursor(k, EncodeCursor(k, after, keys), other) == Err(InvalidCursor)
  {
    var f := Fingerprint(k, keys);
    assert k.decode(k.encode(Payload(after, f, Signature(k, after, f), VERSION))) == Some(Payload(after, f, Signature(k, after, f), VERSION));
    if Join(keys) == Join(other) { JoinInjective(keys, other); }
  }

  // ---- walks ----

  /** Follows the cursors, one limit per page, until there is none: the entries seen and whether it ended. */
  function Walk(k: Codec, most: int, catalog: seq<Entry>, cursor: Option<string>, limits: seq<int>):
    Result<(seq<Entry>, bool), ServiceError>
    decreases |limits|
  {
    if limits == [] then Ok(([], false))
    else
      match ListModels(k, true, most, catalog, cursor, limits[0])
      case Err(e) => Err(e)
      case Ok(page) =>
        if page.next.None? then Ok((page.items, true))
        else
          match Walk(k, most, catalog, page.next, limits[1..])
          case Err(e) => Err(e)
          case Ok(rest) => Ok((page.items + rest.0, rest.1))
  }

  predicate ValidLimits(limits: seq<int>, most: int) { forall i | 0 <= i < |limits| :: ValidLimit(limits[i], most) }

  /** The keys differ, but for the last, which may repeat the one before it. */
  predicate DistinctButLast(keys: seq<string>) { forall i, j | 0 <= i < j < |keys| - 1 :: keys[i] != keys[j] }

  predicate WellFormed(catalog: seq<Entry>) { forall e | e in catalog :: e.key != "" }

  /** The cursor stands for this start position. */
  predicate StartsAt(k: Codec, cursor: Option<string>, keys: seq<string>, start: nat) {
    if cursor.None? then start == 0 else DecodeCursor(k, cursor.value, keys) == Ok(start)
  }

  lemma ListsFrom(k: Codec, most: int, catalog: seq<Entry>, cursor: Option<string>, limit: int, start: nat)
    requires WellFormed(catalog) && ValidLimit(limit, most) && StartsAt(k, cursor, Map(Entries(catalog), KeyOf), start)
    ensures start <= |Entries(catalog)|
    ensures ListModels(k, true, most, catalog, cursor, limit) == Ok(PageFrom(k, Entries(catalog), start, limit))
  {
  }

  /** The entries from start on, in order, each once: all of them if the walk ended, else at least one a page. */
  predicate Sees(entries: seq<Entry>, start: nat, w: (seq<Entry>, bool), pages: nat) {
    && start + |w.0| <= |entries| && w.0 == entries[start..start + |w.0|]
    && (w.1 ==> start + |w.0| == |entries|)
    && (!w.1 ==> |w.0| >= pages && (if pages == 0 then w.0 == [] else start + |w.0| < |entries|))
  }

  lemma PageThenRest(k: Codec, entries: seq<Entry>, start: nat, limit: int, rest: (seq<Entry>, bool), pages: nat)
    requires limit >= 1 && start + limit < |entries| && Sees(entries, start + limit, rest, pages)
    ensures Sees(entries, start, (PageFrom(k, entries, start, limit).items + rest.0, rest.1), pages + 1)
  {
    SlicesMeet(entries, start, start + limit, start + limit + |rest.0|);
  }

  /** Walking on from a position sees the following entries. */
  lemma {:induction false} WalkFrom(k: Codec, most: int, catalog: seq<Entry>, cursor: Option<string>,
                                    limits: seq<int>, start: nat)
    requires Lawful(k) && WellFormed(catalog) && ValidLimits(limits, most)
    requires DistinctButLast(Map(Entries(catalog), KeyOf))
    requires StartsAt(k, cursor, Map(Entries(catalog), KeyOf), start) && start <= |Entries(catalog)|
    ensures Walk(k, most, catalog, cursor, limits).Ok?
    ensures Sees(Entries(catalog), start, Walk(k, most, catalog, cursor, limits).value, |limits|)
    decreases |limits|
  {
    if limits != [] {
      var entries := Entries(catalog);
      var page := PageFrom(k, entries, start, limits[0]);
      ListsFrom(k, most, catalog, cursor, limits[0], start);
      if page.next.Some? {
        NextStarts(k, entries, start, limits[0]);
        WalkFrom(k, most, catalog, page.next, limits[1..], start + limits[0]);
        var rest := Walk(k, most, catalog, page.next, limits[1..]).value;
        WalkStep(k, most, catalog, cursor, limits, page, rest);
        PageThenRest(k, entries, start, limits[0], rest, |limits[1..]|);
      } else {
        LastPage(k, entries, start, limits[0], |limits|);
      }
    }
  }

  lemma WalkStep(k: Codec, most: int, catalog: seq<Entry>, cursor: Option<string>, limits: seq<int>,
                 page: Page, rest: (seq<Entry>, bool))
    requires limits != [] && ListModels(k, true, most, catalog, cursor, limits[0]) == Ok(page) && page.next.Some?
    requires Walk(k, most, catalog, page.next, limits[1..]) == Ok(rest)
    ensures Walk(k, most, catalog, cursor, limits) == Ok((page.items + rest.0, rest.1))
  {
  }

  lemma LastPage(k: Codec, entries: seq<Entry>, start: nat, limit: int, pages: nat)
    requires start <= |entries| && limit >= 1 && PageFrom(k, entries, start, limit).next.None?
    ensures Sees(entries, start, (PageFrom(k, entries, start, limit).items, true), pages)
  {
  }

  /** The cursor of a page leads to its end. */
  lemma NextStarts(k: Codec, entries: seq<Entry>, start: nat, limit: int)
    requires Lawful(k) && DistinctButLast(Map(entries, KeyOf)) && start <= |entries| && limit >= 1
    requires PageFrom(k, entries, start, limit).next.Some?
    ensures start + limit < |entries|
            && StartsAt(k, PageFrom(k, entries, start, limit).next, Map(entries, KeyOf), start + limit)
  {
    var keys, end := Map(entries, KeyOf), start + limit;
    CursorDecodesExactly(k, keys, end);
    NewKey(keys, end);
  }

  lemma NewKey(keys: seq<string>, end: nat)
    requires DistinctButLast(keys) && 1 <= end < |keys|
    ensures keys[end - 1] !in keys[..end - 1]
  {
  }

  lemma SlicesMeet<T>(s: seq<T>, i: nat, j: nat, m: nat)
    requires i <= j <= m <= |s|
    ensures s[i..j] + s[j..m] == s[i..m]
  {
  }

  // ---- repeated keys ----

  function Ones(m: nat): seq<int> { seq(m, _ => 1) }

  /** With a key repeated before the last entry, pages of one never get past it. */
  lemma {:induction false} WalkStuck(k: Codec, most: int, catalog: seq<Entry>, cursor: Option<string>, m: nat,
                                     start: nat, i: nat)
    requires Lawful(k) && WellFormed(catalog) && most >= 1
    requires var keys := Map(Entries(catalog), KeyOf);
             i + 2 < |keys| && keys[i] == keys[i + 1] && start <= i + 1 && StartsAt(k, cursor, keys, start)
    ensures var w := Walk(k, most, catalog, cursor, Ones(m)); w.Ok? && !w.value.1
    decreases m
  {
    if m > 0 {
      var keys := Map(Entries(catalog), KeyOf);
      ListsFrom(k, most, catalog, cursor, 1, start);
      var page := PageFrom(k, Entries(catalog), start, 1);
      CursorReads(k, keys, start + 1);
      var next := IndexOf(keys, keys[start]).value + 1;
      BeforeEnd(keys, start + 1);
      if start == i + 1 { BeforeEnd(keys, i + 1); }
      WalkStuck(k, most, catalog, page.next, m - 1, next, i);
      assert Ones(m)[1..] == Ones(m - 1);
    }
  }

  lemma RepeatIsAdjacent(keys: seq<string>) returns (i: nat)
    requires Sorted(StrLe, keys) && !DistinctButLast(keys)
    ensures i + 2 < |keys| && keys[i] == keys[i + 1]
  {
    StrTotal();
    var a, b :| 0 <= a < b < |keys| - 1 && keys[a] == keys[b];
    i := a;
    if a + 1 < b { assert StrLe(keys[a], keys[a + 1]) && StrLe(keys[a + 1], keys[b]); }
  }

  lemma EntriesSorted(catalog: seq<Entry>)
    ensures multiset(Entries(catalog)) == multiset(catalog) && Sorted(StrLe, Map(Entries(catalog), KeyOf))
  {
    StrTotal();
    SortSorts(ByKey, catalog);
    var entries := Entries(catalog);
    forall i, j | 0 <= i < j < |entries| ensures StrLe(Map(entries, KeyOf)[i], Map(entries, KeyOf)[j]) {
      assert ByKey(entries[i], entries[j]);
    }
  }

  /** Every schedule of valid limits, once it has as many pages as entries, sees them all. */
  ghost predicate AlwaysExact(k: Codec, most: int, catalog: seq<Entry>) {
    forall limits | ValidLimits(limits, most) && |limits| > 0 && |limits| >= |catalog| ::
      Walk(k, most, catalog, None, limits) == Ok((Entries(catalog), true))
  }

  /**
   * Paging is exact for every schedule of page limits, visiting each model once in key
   * order and ending without a cursor, if and only if no key is repeated before the last
   * entry.
   */
  lemma PagingExactly(k: Codec, most: int, catalog: seq<Entry>)
    requires Lawful(k) && WellFormed(catalog) && most >= 1
    ensures multiset(Entries(catalog)) == multiset(catalog) && Sorted(StrLe, Map(Entries(catalog), KeyOf))
    ensures AlwaysExact(k, most, catalog) <==> DistinctButLast(Map(Entries(catalog), KeyOf))
  {
    EntriesSorted(catalog);
    var keys := Map(Entries(catalog), KeyOf);
    if DistinctButLast(keys) {
      forall limits | ValidLimits(limits, most) && |limits| > 0 && |limits| >= |catalog|
        ensures Walk(k, most, catalog, None, limits) == Ok((Entries(catalog), true))
      {
        WalkFrom(k, most, catalog, None, limits, 0);
        assert Entries(catalog)[0..|catalog|] == Entries(catalog);
      }
    } else {
      var i := RepeatIsAdjacent(keys);
      WalkStuck(k, most, catalog, None, |catalog|, 0, i);
      assert ValidLimits(Ones(|catalog|), most);
    }
  }
}
