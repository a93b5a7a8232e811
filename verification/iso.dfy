/** UTC instants, the text isoformat prints for them, and their place on the time line. */
module Iso {
  import opened Prelude
  import opened Ordering

  /** A UTC date and time to the microsecond. */
  datatype Stamp = Stamp(year: nat, month: nat, day: nat, hour: nat, minute: nat, second: nat, micro: nat)

  predicate Leap(y: nat) { y % 4 == 0 && (y % 100 != 0 || y % 400 == 0) }

  function DaysInMonth(y: nat, m: nat): nat {
    if m == 2 then (if Leap(y) then 29 else 28)
    else if m == 4 || m == 6 || m == 9 || m == 11 then 30
    else 31
  }

  predicate ValidStamp(s: Stamp) {
    && 1 <= s.year <= 9999 && 1 <= s.month <= 12 && 1 <= s.day <= DaysInMonth(s.year, s.month)
    && s.hour < 24 && s.minute < 60 && s.second < 60 && s.micro < 1000000
  }

  type Instant = s: Stamp | ValidStamp(s) witness Stamp(1970, 1, 1, 0, 0, 0, 0)

  // ---- the time line ----

  function DaysBeforeYear(y: nat): int
    requires y >= 1
  {
    365 * (y - 1) + (y - 1) / 4 - (y - 1) / 100 + (y - 1) / 400
  }

  function DaysBeforeMonth(y: nat, m: nat): nat {
    if m <= 1 then 0 else DaysBeforeMonth(y, m - 1) + DaysInMonth(y, m - 1)
  }

  /** Days since the day before 1 January of year 1. */
  function Day(s: Instant): int { DaysBeforeYear(s.year) + DaysBeforeMonth(s.year, s.month) + s.day }

  /** Seconds into the day. */
  function Clock(s: Instant): nat { (s.hour * 60 + s.minute) * 60 + s.second }

  /** Microseconds on the time line. */
  function Micros(s: Instant): int { (Day(s) * 86400 + Clock(s)) * 1000000 + s.micro }

  lemma QuotientStep(y: nat)
    requires y >= 1
    ensures y / 4 == (y - 1) / 4 + if y % 4 == 0 then 1 else 0
    ensures y / 100 == (y - 1) / 100 + if y % 100 == 0 then 1 else 0
    ensures y / 400 == (y - 1) / 400 + if y % 400 == 0 then 1 else 0
  {
  }

  lemma YearLength(y: nat)
    requires y >= 1
    ensures DaysBeforeYear(y + 1) == DaysBeforeYear(y) + 365 + if Leap(y) then 1 else 0
  {
    QuotientStep(y);
    assert y % 400 == 0 ==> y % 100 == 0 by { assert y == 400 * (y / 400) + y % 400; }
    assert y % 100 == 0 ==> y % 4 == 0 by { assert y == 100 * (y / 100) + y % 100; }
  }

  lemma {:induction false} YearsGrow(y: nat, z: nat)
    requires 1 <= y < z
    ensures DaysBeforeYear(y) + 365 + (if Leap(y) then 1 else 0) <= DaysBeforeYear(z)
    decreases z
  {
    YearLength(z - 1);
    if y < z - 1 { YearsGrow(y, z - 1); }
  }

  lemma {:induction false} MonthsGrow(y: nat, m: nat, n: nat)
    requires 1 <= m < n
    ensures DaysBeforeMonth(y, m) + DaysInMonth(y, m) <= DaysBeforeMonth(y, n)
    decreases n
  {
    if m < n - 1 { MonthsGrow(y, m, n - 1); }
  }

  lemma MonthsFillYear(y: nat)
    ensures DaysBeforeMonth(y, 13) == 365 + if Leap(y) then 1 else 0
  {
    var leap := if Leap(y) then 1 else 0;
    assert DaysBeforeMonth(y, 2) == 31;
    assert DaysBeforeMonth(y, 3) == 59 + leap;
    assert DaysBeforeMonth(y, 4) == 90 + leap;
    assert DaysBeforeMonth(y, 5) == 120 + leap;
    assert DaysBeforeMonth(y, 6) == 151 + leap;
    assert DaysBeforeMonth(y, 7) == 181 + leap;
    assert DaysBeforeMonth(y, 8) == 212 + leap;
    assert DaysBeforeMonth(y, 9) == 243 + leap;
    assert DaysBeforeMonth(y, 10) == 273 + leap;
    assert DaysBeforeMonth(y, 11) == 304 + leap;
    assert DaysBeforeMonth(y, 12) == 334 + leap;
  }

  /** A later date is a later day. */
  lemma LaterDate(a: Instant, b: Instant)
    requires a.year < b.year || (a.year == b.year && (a.month < b.month || (a.month == b.month && a.day < b.day)))
    ensures Day(a) < Day(b)
  {
    if a.year < b.year {
      YearsGrow(a.year, b.year);
      MonthsFillYear(a.year);
      MonthsGrow(a.year, a.month, 13);
    } else if a.month < b.month {
      MonthsGrow(a.year, a.month, b.month);
    }
  }

  /** b is the calendar day after a. */
  predicate IsNextDay(a: Instant, b: Instant) {
    || (b.year == a.year && b.month == a.month && b.day == a.day + 1)
    || (a.day == DaysInMonth(a.year, a.month) && b.day == 1
        && if a.month < 12 then b.year == a.year && b.month == a.month + 1 else b.year == a.year + 1 && b.month == 1)
  }

  /** The calendar's days follow one another on the time line, 86400 seconds apart. */
  lemma NextDayIsADayLater(a: Instant, b: Instant)
    requires IsNextDay(a, b)
    ensures Micros(b) - Micros(a) == 86400000000 + ClockMicros(b) - ClockMicros(a)
  {
    if a.month == 12 && b.year == a.year + 1 {
      YearLength(a.year);
      MonthsFillYear(a.year);
    }
  }

  /** Microseconds since midnight. */
  function ClockMicros(s: Instant): int { ((s.hour * 60 + s.minute) * 60 + s.second) * 1000000 + s.micro }

  /** On one day instants are as far apart as their clocks. */
  lemma SameDayDistance(a: Instant, b: Instant)
    requires a.year == b.year && a.month == b.month && a.day == b.day
    ensures Micros(b) - Micros(a) == ClockMicros(b) - ClockMicros(a)
  {
  }

  // ---- printing ----

  function Pad(n: nat, width: nat): (s: string)
    ensures |s| == width
  {
    if width == 0 then [] else Pad(n / 10, width - 1) + [Digit(n % 10)]
  }

  function Fraction(micro: nat): string { if micro == 0 then [] else "." + Pad(micro, 6) }

  /** datetime.isoformat of a UTC instant: the fraction is left out when it is zero. */
  function IsoFormat(s: Instant): string {
    Pad(s.year, 4) + ("-" + (Pad(s.month, 2) + ("-" + (Pad(s.day, 2) + ("T" + (Pad(s.hour, 2) + (":" + (Pad(s.minute, 2)
      + (":" + (Pad(s.second, 2) + (Fraction(s.micro) + "+00:00")))))))))))
  }

  // ---- text order ----

  function Pow10(w: nat): nat { if w == 0 then 1 else 10 * Pow10(w - 1) }

  /** Texts that start with equally long parts compare by those parts first. */
  lemma {:induction false} PartsFirst(a: string, b: string, c: string, d: string)
    requires |a| == |b|
    ensures StrLe(a + c, b + d) <==> if a == b then StrLe(c, d) else StrLe(a, b)
  {
    if a == [] {
      assert a + c == c && b + d == d;
    } else {
      assert (a + c)[1..] == a[1..] + c && (b + d)[1..] == b[1..] + d;
      PartsFirst(a[1..], b[1..], c, d);
      assert a == [a[0]] + a[1..] && b == [b[0]] + b[1..];
    }
  }

  lemma DigitOrder(a: nat, b: nat)
    requires a < 10 && b < 10
    ensures (StrLe([Digit(a)], [Digit(b)]) <==> a <= b) && (Digit(a) == Digit(b) <==> a == b)
  {
    var x, y := [Digit(a)], [Digit(b)];
    assert x[1..] == [] && y[1..] == [];
    assert CharLe(x[0], y[0]) <==> a <= b;
    assert Lex(CharLe, x[1..], y[1..]);
    assert Lex(CharLe, x, y) == if x[0] == y[0] then Lex(CharLe, x[1..], y[1..]) else CharLe(x[0], y[0]);
  }

  lemma {:induction false} PadOrder(m: nat, n: nat, w: nat)
    requires m < Pow10(w) && n < Pow10(w)
    ensures (Pad(m, w) == Pad(n, w) <==> m == n) && (StrLe(Pad(m, w), Pad(n, w)) <==> m <= n)
  {
    if w > 0 {
      PadOrder(m / 10, n / 10, w - 1);
      var x, y := [Digit(m % 10)], [Digit(n % 10)];
      PartsFirst(Pad(m / 10, w - 1), Pad(n / 10, w - 1), x, y);
      DigitOrder(m % 10, n % 10);
      if Pad(m, w) == Pad(n, w) {
        assert Pad(m, w)[..w - 1] == Pad(m / 10, w - 1) && Pad(n, w)[..w - 1] == Pad(n / 10, w - 1);
        assert Pad(m, w)[w - 1] == Digit(m % 10) && Pad(n, w)[w - 1] == Digit(n % 10);
      }
    }
  }

  /** One printed field: the texts compare by the field, then by what follows it. */
  lemma FieldFirst(m: nat, n: nat, w: nat, c: string, d: string)
    requires m < Pow10(w) && n < Pow10(w)
    ensures StrLe(Pad(m, w) + c, Pad(n, w) + d) <==> m < n || (m == n && StrLe(c, d))
  {
    PadOrder(m, n, w);
    PartsFirst(Pad(m, w), Pad(n, w), c, d);
  }

  lemma SamePrefix(p: string, c: string, d: string)
    ensures StrLe(p + c, p + d) <==> StrLe(c, d)
  {
    PartsFirst(p, p, c, d);
  }

  /** The plus sign of the offset sorts before the point of a fraction. */
  lemma FractionOrder(m: nat, n: nat)
    requires m < 1000000 && n < 1000000
    ensures StrLe(Fraction(m) + "+00:00", Fraction(n) + "+00:00") <==> m <= n
  {
    assert Pow10(6) == 1000000 by { assert Pow10(3) == 1000; }
    LexTotal(CharLe, "+00:00", "+00:00");
    assert [] + "+00:00" == "+00:00";
    if m > 0 && n > 0 {
      FractionsOrder(m, n);
    } else if m > 0 {
      PointFirst(m);
    } else if n > 0 {
      PointFirst(n);
    }
  }

  lemma FractionsOrder(m: nat, n: nat)
    requires 0 < m < Pow10(6) && 0 < n < Pow10(6)
    ensures StrLe(Fraction(m) + "+00:00", Fraction(n) + "+00:00") <==> m < n || (m == n && StrLe("+00:00", "+00:00"))
  {
    var z := "+00:00";
    assert ("." + Pad(n, 6)) + z == "." + (Pad(n, 6) + z) && ("." + Pad(m, 6)) + z == "." + (Pad(m, 6) + z);
    SamePrefix(".", Pad(m, 6) + z, Pad(n, 6) + z);
    FieldFirst(m, n, 6, z, z);
  }

  lemma PointFirst(n: nat)
    requires n > 0
    ensures StrLe(Fraction(0) + "+00:00", Fraction(n) + "+00:00") && !StrLe(Fraction(n) + "+00:00", Fraction(0) + "+00:00")
  {
    var zero, other := Fraction(0) + "+00:00", Fraction(n) + "+00:00";
    assert zero[0] == '+' && other[0] == '.';
  }

  predicate DateLe(a: Stamp, b: Stamp, rest: bool) {
    a.year < b.year || (a.year == b.year && (a.month < b.month || (a.month == b.month && (a.day < b.day || (a.day == b.day && rest)))))
  }

  predicate TimeLe(a: Stamp, b: Stamp) {
    a.hour < b.hour || (a.hour == b.hour && (a.minute < b.minute || (a.minute == b.minute &&
      (a.second < b.second || (a.second == b.second && a.micro <= b.micro)))))
  }

  function TimeText(s: Instant): string {
    Pad(s.hour, 2) + (":" + (Pad(s.minute, 2) + (":" + (Pad(s.second, 2) + (Fraction(s.micro) + "+00:00")))))
  }

  lemma TimeTextOrder(a: Instant, b: Instant)
    ensures StrLe(TimeText(a), TimeText(b)) <==> TimeLe(a, b)
  {
    assert Pow10(2) == 100;
    var a3, b3 := Fraction(a.micro) + "+00:00", Fraction(b.micro) + "+00:00";
    var a2, b2 := Pad(a.second, 2) + a3, Pad(b.second, 2) + b3;
    var a1, b1 := Pad(a.minute, 2) + (":" + a2), Pad(b.minute, 2) + (":" + b2);
    FractionOrder(a.micro, b.micro);
    FieldFirst(a.second, b.second, 2, a3, b3);
    SamePrefix(":", a2, b2);
    FieldFirst(a.minute, b.minute, 2, ":" + a2, ":" + b2);
    SamePrefix(":", a1, b1);
    FieldFirst(a.hour, b.hour, 2, ":" + a1, ":" + b1);
  }

  lemma DateTextOrder(a: Instant, b: Instant)
    ensures StrLe(IsoFormat(a), IsoFormat(b)) <==> DateLe(a, b, StrLe(TimeText(a), TimeText(b)))
  {
    assert Pow10(2) == 100 && Pow10(4) == 10000 by { assert Pow10(3) == 1000; }
    var a3, b3 := "T" + TimeText(a), "T" + TimeText(b);
    var a2, b2 := Pad(a.day, 2) + a3, Pad(b.day, 2) + b3;
    var a1, b1 := Pad(a.month, 2) + ("-" + a2), Pad(b.month, 2) + ("-" + b2);
    SamePrefix("T", TimeText(a), TimeText(b));
    FieldFirst(a.day, b.day, 2, a3, b3);
    SamePrefix("-", a2, b2);
    FieldFirst(a.month, b.month, 2, "-" + a2, "-" + b2);
    SamePrefix("-", a1, b1);
    FieldFirst(a.year, b.year, 4, "-" + a1, "-" + b1);
    assert IsoFormat(a) == Pad(a.year, 4) + ("-" + a1);
    assert IsoFormat(b) == Pad(b.year, 4) + ("-" + b1);
  }

  lemma FieldsAreMicros(a: Instant, b: Instant)
    ensures DateLe(a, b, TimeLe(a, b)) <==> Micros(a) <= Micros(b)
  {
    var sameDate := a.year == b.year && a.month == b.month && a.day == b.day;
    if !sameDate {
      if DateLe(a, b, false) { LaterDate(a, b); } else { LaterDate(b, a); }
    }
  }

  /**
   * Text order is time order: for UTC instants, with the fraction printed or left out,
   * comparing the isoformat texts compares the instants.
   */
  lemma TextOrderIsTimeOrder(a: Instant, b: Instant)
    ensures StrLe(IsoFormat(a), IsoFormat(b)) <==> Micros(a) <= Micros(b)
  {
    DateTextOrder(a, b);
    TimeTextOrder(a, b);
    FieldsAreMicros(a, b);
  }

  /** Different instants print differently and lie at different points in time. */
  lemma InstantsAreDistinct(a: Instant, b: Instant)
    ensures IsoFormat(a) == IsoFormat(b) ==> a == b
    ensures Micros(a) == Micros(b) ==> a == b
  {
    TextOrderIsTimeOrder(a, b);
    TextOrderIsTimeOrder(b, a);
    FieldsAreMicros(a, b);
    FieldsAreMicros(b, a);
    StrTotal();
  }

  // ---- reading back ----

  lemma {:induction false} ReadPad(n: nat, w: nat)
    requires n < Pow10(w)
    ensures ReadDigits(Pad(n, w)) == Some(n)
  {
    if w > 0 {
      ReadPad(n / 10, w - 1);
      assert Pad(n, w)[..w - 1] == Pad(n / 10, w - 1);
    }
  }

  /** A fixed-width field and what is behind it. */
  function TakeField(s: string, w: nat): Option<(nat, string)> {
    if |s| < w then None
    else
      var n := ReadDigits(s[..w]);
      if n.None? then None else Some((n.value, s[w..]))
  }

  function TakeMark(s: string, mark: char): Option<string> {
    if s != [] && s[0] == mark then Some(s[1..]) else None
  }

  /** A separator, then a field. */
  function TakeNext(s: string, mark: char, w: nat): Option<(nat, string)> {
    var rest := TakeMark(s, mark);
    if rest.None? then None else TakeField(rest.value, w)
  }

  /** The optional fraction and the UTC offset. */
  function TakeEnd(s: string): Option<nat> {
    if s == "+00:00" then Some(0)
    else
      var micro := TakeNext(s, '.', 6);
      if micro.Some? && micro.value.1 == "+00:00" then Some(micro.value.0) else None
  }

  function ParseIso(t: string): Option<Instant> {
    match TakeField(t, 4)
    case None => None
    case Some((year, t1)) =>
      match TakeNext(t1, '-', 2)
      case None => None
      case Some((month, t2)) =>
        match TakeNext(t2, '-', 2)
        case None => None
        case Some((day, t3)) => ParseTime(t3, year, month, day)
  }

  function ParseTime(t: string, year: nat, month: nat, day: nat): Option<Instant> {
    match TakeNext(t, 'T', 2)
    case None => None
    case Some((hour, t1)) =>
      match TakeNext(t1, ':', 2)
      case None => None
      case Some((minute, t2)) =>
        match TakeNext(t2, ':', 2)
        case None => None
        case Some((second, t3)) =>
          match TakeEnd(t3)
          case None => None
          case Some(micro) =>
            var s := Stamp(year, month, day, hour, minute, second, micro);
            if ValidStamp(s) then Some(s) else None
  }

  lemma FieldRead(n: nat, w: nat, rest: string)
    requires n < Pow10(w)
    ensures TakeField(Pad(n, w) + rest, w) == Some((n, rest))
  {
    ReadPad(n, w);
    assert (Pad(n, w) + rest)[..w] == Pad(n, w) && (Pad(n, w) + rest)[w..] == rest;
  }

  lemma NextRead(mark: char, n: nat, w: nat, rest: string)
    requires n < Pow10(w)
    ensures TakeNext([mark] + (Pad(n, w) + rest), mark, w) == Some((n, rest))
  {
    assert ([mark] + (Pad(n, w) + rest))[1..] == Pad(n, w) + rest;
    FieldRead(n, w, rest);
  }

  lemma EndRead(micro: nat)
    requires micro < 1000000
    ensures TakeEnd(Fraction(micro) + "+00:00") == Some(micro)
  {
    var z := "+00:00";
    if micro == 0 {
      assert [] + z == z;
    } else {
      assert Pow10(6) == 1000000 by { assert Pow10(3) == 1000; }
      assert ("." + Pad(micro, 6)) + z == ['.'] + (Pad(micro, 6) + z);
      NextRead('.', micro, 6, z);
    }
  }

  /** What isoformat prints, fromisoformat reads back. */
  lemma IsoRoundTrip(s: Instant)
    ensures ParseIso(IsoFormat(s)) == Some(s)
  {
    assert Pow10(2) == 100 && Pow10(4) == 10000 by { assert Pow10(3) == 1000; }
    var t6 := Fraction(s.micro) + "+00:00";
    var t5 := ":" + (Pad(s.second, 2) + t6);
    var t4 := ":" + (Pad(s.minute, 2) + t5);
    var t3 := "T" + (Pad(s.hour, 2) + t4);
    var t2 := "-" + (Pad(s.day, 2) + t3);
    var t1 := "-" + (Pad(s.month, 2) + t2);
    EndRead(s.micro);
    NextRead(':', s.second, 2, t6);
    NextRead(':', s.minute, 2, t5);
    NextRead('T', s.hour, 2, t4);
    assert ParseTime(t3, s.year, s.month, s.day) == Some(s);
    NextRead('-', s.day, 2, t3);
    NextRead('-', s.month, 2, t2);
    FieldRead(s.year, 4, t1);
    assert IsoFormat(s) == Pad(s.year, 4) + t1;
  }

  lemma DatePlaces(y: string, m: string, d: string, rest: string)
    requires |y| == 4 && |m| == 2 && |d| == 2
    ensures var t := y + ("-" + (m + ("-" + (d + rest))));
            |t| == 10 + |rest| && t[..4] == y && t[4] == '-' && t[5..7] == m && t[7] == '-' && t[8..10] == d && t[10..] == rest
  {
  }

  lemma TimePlaces(h: string, m: string, s: string, rest: string)
    requires |h| == 2 && |m| == 2 && |s| == 2
    ensures var t := "T" + (h + (":" + (m + (":" + (s + rest)))));
            && |t| == 9 + |rest| && t[0] == 'T' && t[1..3] == h && t[3] == ':' && t[4..6] == m && t[6] == ':'
            && t[7..9] == s && t[9..] == rest
  {
  }

  /** The date of the printed text, place by place. */
  lemma IsoDate(s: Instant)
    ensures var t := IsoFormat(s);
            && |t| > 10 && ReadDigits(t[..4]) == Some(s.year) && t[4] == '-' && ReadDigits(t[5..7]) == Some(s.month)
            && t[7] == '-' && ReadDigits(t[8..10]) == Some(s.day) && t[10..] == "T" + TimeText(s)
  {
    assert Pow10(2) == 100 && Pow10(4) == 10000 by { assert Pow10(3) == 1000; }
    ReadPad(s.year, 4);
    ReadPad(s.month, 2);
    ReadPad(s.day, 2);
    DatePlaces(Pad(s.year, 4), Pad(s.month, 2), Pad(s.day, 2), "T" + TimeText(s));
  }

  /** Its time: the fraction has six digits and is left out when it is zero; the offset is that of UTC. */
  lemma IsoTime(s: Instant)
    ensures var t := "T" + TimeText(s);
            && |t| >= 9 && t[0] == 'T' && ReadDigits(t[1..3]) == Some(s.hour) && t[3] == ':'
            && ReadDigits(t[4..6]) == Some(s.minute) && t[6] == ':' && ReadDigits(t[7..9]) == Some(s.second)
            && if s.micro == 0 then t[9..] == "+00:00"
               else |t| == 22 && t[9] == '.' && ReadDigits(t[10..16]) == Some(s.micro) && t[16..] == "+00:00"
  {
    assert Pow10(2) == 100 && Pow10(6) == 1000000 by { assert Pow10(3) == 1000; }
    ReadPad(s.hour, 2);
    ReadPad(s.minute, 2);
    ReadPad(s.second, 2);
    TimePlaces(Pad(s.hour, 2), Pad(s.minute, 2), Pad(s.second, 2), Fraction(s.micro) + "+00:00");
    ReadPad(s.micro, 6);
    FractionPlaces(Pad(s.micro, 6), s.micro);
    var t := "T" + TimeText(s);
    assert t[9..] == Fraction(s.micro) + "+00:00";
    if s.micro > 0 { assert t[10..16] == t[9..][1..7] && t[16..] == t[9..][7..]; }
  }

  lemma FractionPlaces(digits: string, micro: nat)
    requires digits == Pad(micro, 6)
    ensures var t := Fraction(micro) + "+00:00";
            if micro == 0 then t == "+00:00" else |t| == 13 && t[0] == '.' && t[1..7] == digits && t[7..] == "+00:00"
  {
    if micro == 0 { assert [] + "+00:00" == "+00:00"; }
  }
}
