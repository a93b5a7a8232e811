/** How a recorded text is read back as a literal: as a number where Python reads one. */
module Literals {
  import opened Prelude

  // ---- int() ----

  /** Underscores stand alone, between digits. */
  predicate Grouped(s: string) {
    && s != [] && s[0] != '_' && s[|s| - 1] != '_'
    && forall i | 0 < i < |s| :: !(s[i - 1] == '_' && s[i] == '_')
  }

  function WithoutUnderscores(s: string): string {
    if s == [] then [] else (if s[0] == '_' then [] else [s[0]]) + WithoutUnderscores(s[1..])
  }

  function ReadNatural(s: string): Option<nat> {
    if Grouped(s) then ReadDigits(WithoutUnderscores(s)) else None
  }

  /** int(t): white space around it, a sign, and digits grouped by underscores. */
  function ReadInt(t: string): Option<int> {
    var s := Strip(t);
    if s != [] && (s[0] == '-' || s[0] == '+') then
      match ReadNatural(s[1..])
      case None => None
      case Some(n) => Some((if s[0] == '-' then -1 else 1) * n)
    else
      match ReadNatural(s)
      case None => None
      case Some(n) => Some(n)
  }

  /** repr(n). */
  function IntText(n: int): string {
    if n < 0 then "-" + Decimal(-n) else Decimal(n)
  }

  /** Reads a numeral from the left: digits, with single underscores between them. */
  function ScanDigits(s: string, sofar: nat, afterDigit: bool): Option<nat> {
    if s == [] then (if afterDigit then Some(sofar) else None)
    else if '0' <= s[0] <= '9' then ScanDigits(s[1..], sofar * 10 + (s[0] as int - 48), true)
    else if s[0] == '_' && afterDigit then ScanDigits(s[1..], sofar, false)
    else None
  }

  // ---- the literal an operation is compiled to ----

  /** float(t), printed; None where it fails. What it prints is not printed differently again. */
  ghost predicate Settled(float: string -> Option<string>) {
    forall t: string | float(t).Some? :: Reading(float, float(t).value) == float(t).value
  }

  /** The text of the literal: a number's own print if there is a number, else the text itself. */
  function Reading(float: string -> Option<string>, t: string): string {
    if '.' in t then (if float(t).Some? then float(t).value else t)
    else if ReadInt(t).Some? then IntText(ReadInt(t).value)
    else t
  }

  /** What a numeral in SQL stands for, as text: an integer is its print. */
  function NumberText(t: string): string {
    if ReadInt(t).Some? then IntText(ReadInt(t).value) else t
  }

  // ---- lemmas ----

  predicate AllDigits(s: string) { forall c | c in s :: '0' <= c <= '9' }

  lemma {:induction false} DecimalIsDigits(n: nat)
    ensures AllDigits(Decimal(n))
  {
    if n >= 10 { DecimalIsDigits(n / 10); }
  }

  lemma {:induction false} NothingDropped(s: string)
    requires AllDigits(s)
    ensures WithoutUnderscores(s) == s
  {
    if s != [] {
      assert s[0] in s && forall c | c in s[1..] :: c in s;
      NothingDropped(s[1..]);
    }
  }

  lemma NothingStripped(s: string)
    requires s != [] && !IsSpace(s[0]) && !IsSpace(s[|s| - 1])
    ensures Strip(s) == s
  {
  }

  lemma DigitsRead(n: nat)
    ensures ReadNatural(Decimal(n)) == Some(n)
    ensures '0' <= Decimal(n)[0] <= '9' && '0' <= Decimal(n)[|Decimal(n)| - 1] <= '9'
  {
    var s := Decimal(n);
    DecimalIsDigits(n);
    assert s[0] in s && s[|s| - 1] in s;
    forall i | 0 < i < |s| ensures s[i] != '_' { assert s[i] in s; }
    NothingDropped(s);
    ReadDecimal(n);
  }

  /** A printed integer reads as itself. */
  lemma PrintedIntReads(n: int)
    ensures ReadInt(IntText(n)) == Some(n) && '.' !in IntText(n)
  {
    var s := IntText(n);
    if n < 0 {
      DigitsRead(-n);
      DecimalIsDigits(-n);
      assert s[1..] == Decimal(-n) && s[|s| - 1] == Decimal(-n)[|Decimal(-n)| - 1];
    } else {
      DigitsRead(n);
      DecimalIsDigits(n);
    }
    NothingStripped(s);
  }

  lemma {:induction false} StripKeeps(s: string, c: char)
    requires c in s && !IsSpace(c)
    ensures c in Strip(s)
    decreases |s|
  {
    if IsSpace(s[0]) {
      assert c in s[1..];
      StripKeeps(s[1..], c);
    } else if IsSpace(s[|s| - 1]) {
      assert s == s[..|s| - 1] + [s[|s| - 1]];
      StripKeeps(s[..|s| - 1], c);
    }
  }

  lemma {:induction false} UnderscoresKeep(s: string, c: char)
    requires c in s && c != '_'
    ensures c in WithoutUnderscores(s)
  {
    if s[0] != c { UnderscoresKeep(s[1..], c); }
  }

  lemma {:induction false} OnlyDigitsRead(s: string, c: char)
    requires c in s && !('0' <= c <= '9')
    ensures ReadDigits(s).None?
  {
    var n := |s| - 1;
    assert s == s[..n] + [s[n]];
    if s[n] != c { OnlyDigitsRead(s[..n], c); }
  }

  /** A text with a point is no integer. */
  lemma PointIsNoInt(t: string)
    requires '.' in t
    ensures ReadInt(t).None?
  {
    var s := Strip(t);
    StripKeeps(t, '.');
    forall u: string | '.' in u ensures ReadNatural(u).None? {
      UnderscoresKeep(u, '.');
      OnlyDigitsRead(WithoutUnderscores(u), '.');
    }
    if s[0] == '-' || s[0] == '+' { assert '.' in s[1..]; }
  }

  /** Reading again changes nothing. */
  lemma ReadingSettles(float: string -> Option<string>, t: string)
    requires Settled(float)
    ensures Reading(float, Reading(float, t)) == Reading(float, t)
  {
    if '.' !in t && ReadInt(t).Some? { PrintedIntReads(ReadInt(t).value); }
  }

  /** The numeral 00000 is the number zero. */
  lemma ZerosRead()
    ensures ReadInt("00000") == Some(0) && IntText(0) == "0" && '.' !in "00000"
  {
    var s := "00000";
    assert AllDigits(s);
    NothingDropped(s);
    NothingStripped(s);
    assert s[..4] == "0000" && s[..4][..3] == "000" && s[..4][..3][..2] == "00" && s[..4][..3][..2][..1] == "0";
    assert "0"[..0] == "";
    assert ReadDigits("0") == Some(0) && ReadDigits("00") == Some(0) && ReadDigits("000") == Some(0);
    assert ReadDigits("0000") == Some(0) && ReadDigits(s) == Some(0);
  }

  // ---- numerals, read from the left ----

  /** May a numeral go on with s, after a digit or not? */
  predicate Continues(s: string, afterDigit: bool) {
    if s == [] then afterDigit
    else if s[0] == '_' then afterDigit && Continues(s[1..], false)
    else Continues(s[1..], true)
  }

  /** No underscore ends s, follows another one, or starts it without a digit before. */
  predicate GroupedAfter(s: string, afterDigit: bool) {
    if s == [] then afterDigit
    else
      && (s[0] == '_' ==> afterDigit) && s[|s| - 1] != '_'
      && forall i | 0 < i < |s| :: !(s[i - 1] == '_' && s[i] == '_')
  }

  lemma GroupedTail(s: string)
    requires |s| >= 2
    ensures GroupedAfter(s, true) <==> GroupedAfter(s[1..], s[0] != '_')
  {
    var t := s[1..];
    assert forall i | 0 < i < |t| :: t[i - 1] == s[i] && t[i] == s[i + 1];
    if GroupedAfter(t, s[0] != '_') {
      forall i | 0 < i < |s| ensures !(s[i - 1] == '_' && s[i] == '_') {
        if i > 1 { assert t[i - 2] == s[i - 1] && t[i - 1] == s[i]; }
      }
    }
  }

  lemma {:induction false} GroupedContinues(s: string, afterDigit: bool)
    ensures GroupedAfter(s, afterDigit) <==> Continues(s, afterDigit)
  {
    if |s| >= 2 {
      GroupedTail(s);
      GroupedContinues(s[1..], s[0] != '_');
    } else if |s| == 1 {
      assert s[1..] == [];
    }
  }

  lemma DigitBehind(u: string, c: char)
    requires ReadDigits(u).Some? && '0' <= c <= '9'
    ensures ReadDigits(u + [c]) == Some(ReadDigits(u).value * 10 + (c as int - 48))
  {
    assert (u + [c])[..|u|] == u;
  }

  lemma OneMoreDigit(u: string, s: string)
    requires s != [] && s[0] != '_'
    ensures u + WithoutUnderscores(s) == (u + [s[0]]) + WithoutUnderscores(s[1..])
  {
  }

  /** Behind the digits u, s is scanned as it is read. */
  lemma {:induction false} ScanIsRead(u: string, s: string, sofar: nat, afterDigit: bool)
    requires ReadDigits(u) == Some(sofar)
    ensures ScanDigits(s, sofar, afterDigit) ==
              if Continues(s, afterDigit) then ReadDigits(u + WithoutUnderscores(s)) else None
    decreases |s|
  {
    if s == [] {
      assert u + [] == u;
    } else if '0' <= s[0] <= '9' {
      DigitBehind(u, s[0]);
      OneMoreDigit(u, s);
      ScanIsRead(u + [s[0]], s[1..], sofar * 10 + (s[0] as int - 48), true);
    } else if s[0] == '_' {
      assert WithoutUnderscores(s) == WithoutUnderscores(s[1..]);
      ScanIsRead(u, s[1..], sofar, false);
    } else {
      OneMoreDigit(u, s);
      OnlyDigitsRead(u + WithoutUnderscores(s), s[0]);
    }
  }

  /** int() reads an optional sign and a numeral between white space, from the left. */
  lemma ReadIntScans(t: string)
    ensures var s := Strip(t);
            var signed := s != [] && (s[0] == '-' || s[0] == '+');
            var n := ScanDigits(if signed then s[1..] else s, 0, false);
            ReadInt(t) == if n.None? then None else if signed && s[0] == '-' then Some(-1 * n.value) else Some(n.value)
  {
    var s := Strip(t);
    var digits := if s != [] && (s[0] == '-' || s[0] == '+') then s[1..] else s;
    GroupedContinues(digits, false);
    ScanIsRead([], digits, 0, false);
    assert [] + WithoutUnderscores(digits) == WithoutUnderscores(digits);
  }
}
