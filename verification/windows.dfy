/** Aggregation windows, written as a number of days: "7d". */
module Windows {
  import opened Prelude
  import opened Ordering
  import opened Sequences

  /** One day, in microseconds. */
  const DAY: int := 86400000000

  datatype Window = Window(name: string, days: nat)

  datatype WindowError = NoWindows | InvalidWindow(text: string) | DuplicateWindow(text: string)

  /** The pattern [1-9][0-9]*d over the whole text. */
  function ParseWindow(s: string): Option<nat> {
    var n := |s| - 1;
    if n >= 1 && s[n] == 'd' && s[0] != '0' then ReadDigits(s[..n]) else None
  }

  /** A window's text is the decimal numeral of its positive number of days, and d. */
  lemma WindowText(s: string, days: nat)
    ensures ParseWindow(s) == Some(days) <==> days >= 1 && s == Decimal(days) + "d"
  {
    ReadDecimal(days);
    var t := Decimal(days) + "d";
    assert t[..|t| - 1] == Decimal(days);
    if ParseWindow(s) == Some(days) {
      var n := |s| - 1;
      ReadsBackAs(s[..n]);
      assert s == s[..n] + "d";
    }
  }

  predicate WindowLe(a: Window, b: Window) { a.days < b.days || (a.days == b.days && StrLe(a.name, b.name)) }

  lemma WindowsRank()
    ensures TotalOrder(WindowLe)
  {
    StrTotal();
  }

  /** The text at position i is the first that is not a window, or that repeats one. */
  predicate Rejects(supplied: seq<string>, i: nat) {
    && i < |supplied|
    && (ParseWindow(supplied[i]).None? || supplied[i] in supplied[..i])
    && forall j | 0 <= j < i :: ParseWindow(supplied[j]).Some? && supplied[j] !in supplied[..j]
  }

  /** The windows the texts name, in the order given. */
  predicate Names(supplied: seq<string>, parsed: seq<Window>) {
    |parsed| == |supplied|
    && forall i | 0 <= i < |parsed| :: parsed[i].name == supplied[i] && ParseWindow(supplied[i]) == Some(parsed[i].days)
  }

  /** Every text must be a window and no number of days may repeat; the result is ordered by days. */
  method ParseWindows(supplied: seq<string>) returns (r: Result<seq<Window>, WindowError>)
    ensures supplied == [] ==> r == Err(NoWindows)
    ensures r.Err? && supplied != [] ==>
              exists i: nat :: Rejects(supplied, i)
                && r.error == if ParseWindow(supplied[i]).None? then InvalidWindow(supplied[i]) else DuplicateWindow(supplied[i])
    ensures r.Ok? ==> (forall i: nat :: !Rejects(supplied, i))
    ensures r.Ok? ==> exists parsed :: Names(supplied, parsed) && multiset(r.value) == multiset(parsed)
    ensures r.Ok? ==> forall i, j | 0 <= i < j < |r.value| :: r.value[i].days < r.value[j].days
  {
    if supplied == [] { return Err(NoWindows); }
    var parsed: seq<Window> := [];
    var seen: set<nat> := {};
    var i := 0;
    while i < |supplied|
      invariant 0 <= i <= |supplied|
      invariant Names(supplied[..i], parsed)
      invariant seen == set w | w in parsed :: w.days
      invariant forall j | 0 <= j < i :: ParseWindow(supplied[j]).Some? && supplied[j] !in supplied[..j]
      invariant DistinctDays(parsed)
    {
      var value := supplied[i];
      var days := ParseWindow(value);
      if days.None? {
        assert Rejects(supplied, i);
        return Err(InvalidWindow(value));
      }
      SameDaysSameText(supplied[..i], parsed, value);
      if days.value in seen {
        assert Rejects(supplied, i);
        return Err(DuplicateWindow(value));
      }
      seen := seen + {days.value};
      parsed := parsed + [Window(value, days.value)];
      i := i + 1;
    }
    assert supplied[..i] == supplied;
    r := Ok(Sort(WindowLe, parsed));
    SortedDays(parsed);
  }

  predicate DistinctDays(parsed: seq<Window>) { forall i, j | 0 <= i < j < |parsed| :: parsed[i].days != parsed[j].days }

  lemma SameDaysSameText(supplied: seq<string>, parsed: seq<Window>, value: string)
    requires Names(supplied, parsed) && ParseWindow(value).Some?
    ensures ParseWindow(value).value in (set w | w in parsed :: w.days) <==> value in supplied
  {
    var days := ParseWindow(value).value;
    WindowText(value, days);
    if w :| w in parsed && w.days == days {
      var k :| 0 <= k < |parsed| && parsed[k] == w;
      WindowText(supplied[k], days);
      assert supplied[k] == value;
    }
    if value in supplied {
      var k :| 0 <= k < |supplied| && supplied[k] == value;
      assert parsed[k] in parsed;
    }
  }

  lemma SortedDays(parsed: seq<Window>)
    requires DistinctDays(parsed)
    ensures multiset(Sort(WindowLe, parsed)) == multiset(parsed)
    ensures forall i, j | 0 <= i < j < |parsed| :: Sort(WindowLe, parsed)[i].days < Sort(WindowLe, parsed)[j].days
  {
    WindowsRank();
    SortSorts(WindowLe, parsed);
    var r := Sort(WindowLe, parsed);
    forall i, j | 0 <= i < j < |r| ensures r[i].days < r[j].days {
      assert WindowLe(r[i], r[j]);
      if r[i].days == r[j].days { TwoOfADay(r, parsed, i, j); }
    }
  }

  lemma TwoOfADay(r: seq<Window>, parsed: seq<Window>, i: nat, j: nat)
    requires multiset(r) == multiset(parsed) && DistinctDays(parsed) && i < j < |r|
    ensures r[i].days != r[j].days
  {
    assert r[i] in multiset(parsed) && r[j] in multiset(parsed);
    Occurs(parsed, r[i]);
    if r[i] == r[j] { Twice(r, i, j); }
  }
}
