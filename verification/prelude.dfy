/** Optional values, results that may be an error, and numerals. */
module Prelude {
  datatype Option<+T> = None | Some(value: T)

  datatype Result<+T, +E> = Ok(value: T) | Err(error: E)

  /** The elements of s in order of first appearance. */
  function Distinct<T(==, !new)>(s: seq<T>): (r: seq<T>)
    ensures forall x :: x in r <==> x in s
    ensures forall i, j :: 0 <= i < j < |r| ==> r[i] != r[j]
  {
    if s == [] then []
    else
      var rest := Distinct(s[..|s| - 1]);
      assert s == s[..|s| - 1] + [s[|s| - 1]];
      if s[|s| - 1] in rest then rest else rest + [s[|s| - 1]]
  }

  /** What str.isspace and str.rstrip treat as white space. */
  predicate IsSpace(c: char) {
    || '\t' <= c <= '\r' || '\U{1C}' <= c <= ' ' || c == '\U{85}' || c == '\U{A0}' || c == '\U{1680}'
    || '\U{2000}' <= c <= '\U{200A}' || c == '\U{2028}' || c == '\U{2029}' || c == '\U{202F}'
    || c == '\U{205F}' || c == '\U{3000}'
  }

  /** str.strip. */
  function Strip(s: string): string
    decreases |s|
  {
    if s == [] then []
    else if IsSpace(s[0]) then Strip(s[1..])
    else if IsSpace(s[|s| - 1]) then Strip(s[..|s| - 1])
    else s
  }

  predicate Blank(s: string) { forall c | c in s :: IsSpace(c) }

  lemma BlankParts(a: string, b: string)
    ensures Blank(a + b) <==> Blank(a) && Blank(b)
  {
    assert forall c :: c in a + b <==> c in a || c in b;
  }

  /** A stripped text is the text between the white space around it. */
  lemma {:induction false} StripMeaning(s: string) returns (a: string, b: string)
    ensures s == a + Strip(s) + b && Blank(a) && Blank(b)
    decreases |s|
  {
    a, b := [], [];
    if s != [] && IsSpace(s[0]) {
      a, b := StripMeaning(s[1..]);
      BlankParts([s[0]], a);
      a := [s[0]] + a;
      assert s == [s[0]] + s[1..];
    } else if s != [] && IsSpace(s[|s| - 1]) {
      a, b := StripMeaning(s[..|s| - 1]);
      BlankParts(b, [s[|s| - 1]]);
      b := b + [s[|s| - 1]];
      assert s == s[..|s| - 1] + [s[|s| - 1]];
    }
  }

  /** It starts and ends without white space; something is left exactly of a text that is not blank. */
  lemma {:induction false} StripEnds(s: string)
    ensures Strip(s) != [] ==> !IsSpace(Strip(s)[0]) && !IsSpace(Strip(s)[|Strip(s)| - 1])
    ensures Strip(s) == [] <==> Blank(s)
    decreases |s|
  {
    if s != [] {
      var n := |s| - 1;
      assert s[0] in s && s[n] in s;
      if IsSpace(s[0]) {
        StripEnds(s[1..]);
        BlankParts([s[0]], s[1..]);
        assert s == [s[0]] + s[1..];
      } else if IsSpace(s[n]) {
        StripEnds(s[..n]);
        BlankParts(s[..n], [s[n]]);
        assert s == s[..n] + [s[n]];
      }
    }
  }

  function Digit(d: nat): char
    requires d < 10
  {
    (48 + d) as char
  }

  /** The decimal text of n, as an f-string prints it. */
  function Decimal(n: nat): (s: string)
    ensures s != []
  {
    if n < 10 then [Digit(n)] else Decimal(n / 10) + [Digit(n % 10)]
  }

  lemma {:induction false} DecimalInjective(m: nat, n: nat)
    requires Decimal(m) == Decimal(n)
    ensures m == n
  {
    var a, b := Decimal(m), Decimal(n);
    assert a[|a| - 1] == Digit(m % 10) && b[|b| - 1] == Digit(n % 10);
    assert m % 10 == n % 10;
    if m >= 10 && n >= 10 {
      assert a[..|a| - 1] == Decimal(m / 10) && b[..|b| - 1] == Decimal(n / 10);
      DecimalInjective(m / 10, n / 10);
    }
  }

  /** The number a text of decimal digits stands for. */
  function ReadDigits(s: string): Option<nat> {
    if s == [] then Some(0)
    else
      var c := s[|s| - 1];
      var high := ReadDigits(s[..|s| - 1]);
      if high.None? || !('0' <= c <= '9') then None else Some(high.value * 10 + (c as int - 48))
  }

  lemma {:induction false} ReadDecimal(n: nat)
    ensures ReadDigits(Decimal(n)) == Some(n) && '0' <= Decimal(n)[0] <= '9'
    ensures n >= 1 ==> Decimal(n)[0] != '0'
  {
    if n >= 10 {
      ReadDecimal(n / 10);
      assert Decimal(n)[..|Decimal(n)| - 1] == Decimal(n / 10);
    }
  }

  /** A numeral without a leading zero is the one Decimal prints. */
  lemma {:induction false} ReadsBackAs(s: string)
    requires s != [] && s[0] != '0' && ReadDigits(s).Some?
    ensures ReadDigits(s).value >= 1 && Decimal(ReadDigits(s).value) == s
  {
    var k := |s| - 1;
    assert s == s[..k] + [s[k]];
    var d := s[k] as int - 48;
    assert Digit(d) == s[k];
    if k > 0 {
      ReadsBackAs(s[..k]);
      assert Decimal(ReadDigits(s).value) == Decimal(ReadDigits(s[..k]).value) + [Digit(d)];
    } else {
      assert s[..k] == [];
    }
  }
}
