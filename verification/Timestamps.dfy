/** Recorded times as text. The store writes the second a change was made in as UTC text in the form of
    section 5.6 of RFC 3339, and the heartbeat compares those texts byte by byte; this module shows
    when that is the comparison of the instants themselves (section 5.1). */
module Timestamps {
  import opened Base
  import opened Mesh

  // --- the calendar ---

  /** Years are counted from the first one after a multiple of 400, so that a leap year is the last of
      every four, except at the end of a century, except at the end of four. */
  const EPOCH_YEAR: nat := 399

  const DAYS_400: nat := 146097
  const DAYS_100: nat := 36524
  const DAYS_4: nat := 1461

  function DaysBeforeYear(e: nat): nat {
    365 * e + e / 4 - e / 100 + e / 400
  }

  predicate Leap(e: nat) {
    (e + 1) % 4 == 0 && ((e + 1) % 100 != 0 || (e + 1) % 400 == 0)
  }

  /** Days before a month of a common year. */
  function CommonDays(month: nat): nat
    requires month <= 12
  {
    [0, 31, 59, 90, 120, 151, 181, 212, 243, 273, 304, 334, 365][month]
  }

  function DaysBeforeMonth(month: nat, leap: bool): nat
    requires month <= 12
  {
    CommonDays(month) + if leap && month >= 2 then 1 else 0
  }

  datatype Civil = Civil(year: nat, month: nat, day: nat)

  predicate ValidCivil(c: Civil) {
    c.month < 12 && c.day < DaysBeforeMonth(c.month + 1, Leap(c.year)) - DaysBeforeMonth(c.month, Leap(c.year))
  }

  /** The day a calendar date falls on. */
  function DayNumber(c: Civil): nat
    requires c.month < 12
  {
    DaysBeforeYear(c.year) + DaysBeforeMonth(c.month, Leap(c.year)) + c.day
  }

  // --- from a day to its date ---

  /** Which of four equal spans a day falls in, the last of them one day longer. */
  function CutFour(day: nat, span: nat): (r: (nat, nat))
    requires 0 < span && day <= 4 * span
    ensures r.0 <= 3 && day == span * r.0 + r.1
    ensures r.1 < span || (r.0 == 3 && r.1 == span)
  {
    var n := if day < span then 0 else if day < 2 * span then 1 else if day < 3 * span then 2 else 3;
    (n, day - span * n)
  }

  /** Cut off whole cycles of 400, 100, 4 and 1 years; the last century and the last year of their
      cycle are one day longer. */
  function YearOf(day: nat): (nat, nat) {
    var (n100, d100) := CutFour(day % DAYS_400, DAYS_100);
    var (n1, yday) := CutFour(d100 % DAYS_4, 365);
    (400 * (day / DAYS_400) + 100 * n100 + 4 * (d100 / DAYS_4) + n1, yday)
  }

  /** The month of a day of a year and the day within it, from an estimate that is at most one short. */
  function MonthOf(yday: nat, leap: bool): (nat, nat)
    requires yday < 365 + if leap then 1 else 0
  {
    if leap && yday == 59 then (1, 28)
    else
      var d := if leap && yday > 59 then yday - 1 else yday;
      var month := d / 31;
      if d >= CommonDays(month + 1) then (month + 1, d - CommonDays(month + 1))
      else (month, d - CommonDays(month))
  }

  lemma YearCycles(a: nat, b: nat, c: nat, r: nat)
    requires b <= 3 && c <= 24 && r <= 3
    ensures var e := 400 * a + 100 * b + 4 * c + r;
            DaysBeforeYear(e) == DAYS_400 * a + DAYS_100 * b + DAYS_4 * c + 365 * r
    ensures Leap(400 * a + 100 * b + 4 * c + r) <==> r == 3 && (c != 24 || b == 3)
  {
    var e := 400 * a + 100 * b + 4 * c + r;
    assert e / 400 == a && e / 100 == 4 * a + b && e / 4 == 100 * a + 25 * b + c;
    LeapCycles(a, b, c, r);
    hide Leap;
  }

  lemma LeapCycles(a: nat, b: nat, c: nat, r: nat)
    requires b <= 3 && c <= 24 && r <= 3
    ensures Leap(400 * a + 100 * b + 4 * c + r) <==> r == 3 && (c != 24 || b == 3)
  {
    var next := 400 * a + 100 * b + 4 * c + r + 1;
    if r < 3 {
      Remainder4(next, 100 * a + 25 * b + c, r + 1);
    } else {
      Remainder4(next, 100 * a + 25 * b + c + 1, 0);
      if c < 24 {
        Remainder100(next, 4 * a + b, 4 * (c + 1));
      } else {
        Remainder100(next, 4 * a + b + 1, 0);
        Remainder400(next, if b < 3 then a else a + 1, if b < 3 then 100 * (b + 1) else 0);
      }
    }
  }

  lemma Remainder4(n: nat, q: nat, r: nat)
    requires n == 4 * q + r && r < 4
    ensures n % 4 == r
  {
  }

  lemma Remainder100(n: nat, q: nat, r: nat)
    requires n == 100 * q + r && r < 100
    ensures n % 100 == r
  {
  }

  lemma Remainder400(n: nat, q: nat, r: nat)
    requires n == 400 * q + r && r < 400
    ensures n % 400 == r
  {
  }

  /** The year found contains the day. */
  lemma YearOfDay(day: nat)
    ensures var (e, yday) := YearOf(day);
            day == DaysBeforeYear(e) + yday && yday < 365 + if Leap(e) then 1 else 0
  {
    var (n100, d100) := CutFour(day % DAYS_400, DAYS_100);
    var (n1, yday) := CutFour(d100 % DAYS_4, 365);
    YearCycles(day / DAYS_400, n100, d100 / DAYS_4, n1);
  }

  lemma MonthOfDay(yday: nat, leap: bool)
    requires yday < 365 + if leap then 1 else 0
    ensures var (m, d) := MonthOf(yday, leap);
            m < 12 && yday == DaysBeforeMonth(m, leap) + d &&
            d < DaysBeforeMonth(m + 1, leap) - DaysBeforeMonth(m, leap)
  {
  }

  /** The date of a day. */
  function CivilOf(day: nat): (c: Civil)
    ensures ValidCivil(c) && DayNumber(c) == day
  {
    YearOfDay(day);
    var (e, yday) := YearOf(day);
    MonthOfDay(yday, Leap(e));
    var (m, d) := MonthOf(yday, Leap(e));
    Civil(e, m, d)
  }

  lemma {:induction false} YearsInOrder(a: nat, b: nat)
    requires a < b
    ensures DaysBeforeYear(a) + 365 + (if Leap(a) then 1 else 0) <= DaysBeforeYear(b)
    decreases b
  {
    NextYear(b - 1);
    if a < b - 1 {
      YearsInOrder(a, b - 1);
    }
  }

  lemma CyclesOf(e: nat) returns (a: nat, b: nat, c: nat, r: nat)
    ensures e == 400 * a + 100 * b + 4 * c + r && b <= 3 && c <= 24 && r <= 3
  {
    a, b := e / 400, e % 400 / 100;
    var rest := e % 400 % 100;
    c, r := rest / 4, rest % 4;
  }

  lemma NextYear(e: nat)
    ensures DaysBeforeYear(e + 1) == DaysBeforeYear(e) + 365 + if Leap(e) then 1 else 0
  {
    hide DaysBeforeYear, Leap;
    var a, b, c, r := CyclesOf(e);
    YearCycles(a, b, c, r);
    if r < 3 {
      YearCycles(a, b, c, r + 1);
    } else if c < 24 {
      YearCycles(a, b, c + 1, 0);
    } else if b < 3 {
      YearCycles(a, b + 1, 0, 0);
    } else {
      YearCycles(a + 1, 0, 0, 0);
    }
  }

  // --- order of dates ---

  predicate Earlier(x: Civil, y: Civil) {
    x.year < y.year || (x.year == y.year && (x.month < y.month || (x.month == y.month && x.day < y.day)))
  }

  lemma DateOrder(x: Civil, y: Civil)
    requires ValidCivil(x) && ValidCivil(y)
    ensures DayNumber(x) < DayNumber(y) <==> Earlier(x, y)
    ensures DayNumber(x) == DayNumber(y) <==> x == y
  {
    MonthFits(x);
    MonthFits(y);
    if x.year < y.year {
      YearsInOrder(x.year, y.year);
    } else if y.year < x.year {
      YearsInOrder(y.year, x.year);
    } else if x.month < y.month {
      MonthOrder(x, y);
    } else if y.month < x.month {
      MonthOrder(y, x);
    }
  }

  lemma MonthFits(x: Civil)
    requires ValidCivil(x)
    ensures DaysBeforeMonth(x.month, Leap(x.year)) + x.day < 365 + if Leap(x.year) then 1 else 0
  {
  }

  lemma MonthOrder(x: Civil, y: Civil)
    requires ValidCivil(x) && ValidCivil(y) && x.year == y.year && x.month < y.month
    ensures DayNumber(x) < DayNumber(y)
  {
  }

  /** Converting a day to its date and a date to its day undo each other. */
  lemma CalendarRoundTrip(day: nat, c: Civil)
    requires ValidCivil(c)
    ensures DayNumber(CivilOf(day)) == day
    ensures CivilOf(DayNumber(c)) == c
  {
    hide CivilOf;
    DateOrder(CivilOf(DayNumber(c)), c);
  }

  // --- fields of an instant ---

  const DAY: nat := 86400
  const LAYOUT: seq<(nat, char)> := [(4, '-'), (2, '-'), (2, 'T'), (2, ':'), (2, ':'), (2, 'Z')]

  /** The first day of the year 0. */
  const DAY_ZERO: nat := 365 * EPOCH_YEAR + 96

  /** Year, month, day, hour, minute and second of an instant, given in seconds since the year 0 began. */
  function Fields(t: nat): (fields: seq<nat>)
    ensures |fields| == |LAYOUT|
  {
    YearZero(t);
    var c, s := CivilOf(DAY_ZERO + t / DAY), t % DAY;
    [c.year - EPOCH_YEAR, c.month + 1, c.day + 1, s / 3600, s / 60 % 60, s % 60]
  }

  lemma YearZero(t: nat)
    ensures CivilOf(DAY_ZERO + t / DAY).year >= EPOCH_YEAR
  {
    var c := CivilOf(DAY_ZERO + t / DAY);
    MonthFits(c);
    if c.year < EPOCH_YEAR {
      YearsInOrder(c.year, EPOCH_YEAR);
    }
  }

  /** Lexicographic order of equally long lists of numbers. */
  predicate Before(v: seq<nat>, w: seq<nat>)
    requires |v| == |w|
  {
    v != [] && (v[0] < w[0] || (v[0] == w[0] && Before(v[1..], w[1..])))
  }

  lemma BeforeCivil(x: Civil, y: Civil, v: seq<nat>, w: seq<nat>)
    requires |v| == |w| == 3 && x.year >= EPOCH_YEAR && y.year >= EPOCH_YEAR
    ensures var a := [x.year - EPOCH_YEAR, x.month + 1, x.day + 1] + v;
            var b := [y.year - EPOCH_YEAR, y.month + 1, y.day + 1] + w;
            Before(a, b) <==> Earlier(x, y) || (x == y && Before(v, w))
  {
    var a, b := [x.year - EPOCH_YEAR, x.month + 1, x.day + 1] + v, [y.year - EPOCH_YEAR, y.month + 1, y.day + 1] + w;
    BeforeTails(a, b);
    assert a[3..] == v && b[3..] == w;
  }

  lemma BeforeTails(a: seq<nat>, b: seq<nat>)
    requires |a| == |b| >= 3
    ensures Before(a, b) <==>
            a[0] < b[0] || (a[0] == b[0] && (a[1] < b[1] || (a[1] == b[1] &&
              (a[2] < b[2] || (a[2] == b[2] && Before(a[3..], b[3..]))))))
  {
    assert a[2..] == a[1..][1..] && b[2..] == b[1..][1..];
    assert a[3..] == a[2..][1..] && b[3..] == b[2..][1..];
    assert Before(a[2..], b[2..]) <==> a[2] < b[2] || (a[2] == b[2] && Before(a[3..], b[3..]));
    assert Before(a[1..], b[1..]) <==> a[1] < b[1] || (a[1] == b[1] && Before(a[2..], b[2..]));
  }

  lemma BeforeClock(s: nat, u: nat)
    requires s < DAY && u < DAY
    ensures Before([s / 3600, s / 60 % 60, s % 60], [u / 3600, u / 60 % 60, u % 60]) <==> s < u
    ensures [s / 3600, s / 60 % 60, s % 60] == [u / 3600, u / 60 % 60, u % 60] <==> s == u
  {
    ClockParts(s);
    ClockParts(u);
    ClockOrder(s / 3600, s / 60 % 60, s % 60, u / 3600, u / 60 % 60, u % 60);
  }

  lemma ClockParts(s: nat)
    ensures s == 3600 * (s / 3600) + 60 * (s / 60 % 60) + s % 60
  {
    assert s / 3600 == s / 60 / 60;
  }

  lemma ClockOrder(h: nat, m: nat, s: nat, h': nat, m': nat, s': nat)
    requires m < 60 && s < 60 && m' < 60 && s' < 60
    ensures Before([h, m, s], [h', m', s']) <==> 3600 * h + 60 * m + s < 3600 * h' + 60 * m' + s'
    ensures [h, m, s] == [h', m', s'] <==> 3600 * h + 60 * m + s == 3600 * h' + 60 * m' + s'
  {
    var v, w := [h, m, s], [h', m', s'];
    BeforeTails(v, w);
    assert v[0] == h && v[1] == m && v[2] == s && w[0] == h' && w[1] == m' && w[2] == s';
  }

  /** The fields of two instants compare as the instants do. */
  lemma FieldOrder(t: nat, u: nat)
    ensures Before(Fields(t), Fields(u)) <==> t < u
    ensures Fields(t) == Fields(u) <==> t == u
  {
    hide CivilOf, DayNumber, ValidCivil, Earlier;
    var x, y := CivilOf(DAY_ZERO + t / DAY), CivilOf(DAY_ZERO + u / DAY);
    YearZero(t);
    YearZero(u);
    DateOrder(x, y);
    var s, r := t % DAY, u % DAY;
    var v, w := [s / 3600, s / 60 % 60, s % 60], [r / 3600, r / 60 % 60, r % 60];
    BeforeClock(s, r);
    BeforeCivil(x, y, v, w);
    assert Fields(t) == [x.year - EPOCH_YEAR, x.month + 1, x.day + 1] + v;
    assert Fields(u) == [y.year - EPOCH_YEAR, y.month + 1, y.day + 1] + w;
  }

  // --- text ---

  /** Byte-wise comparison of strings. */
  predicate Less(s: string, t: string) {
    t != "" && (s == "" || s[0] < t[0] || (s[0] == t[0] && Less(s[1..], t[1..])))
  }

  lemma {:induction false} LessAppend(a: string, b: string, x: string, y: string)
    requires |a| == |b|
    ensures Less(a + x, b + y) <==> Less(a, b) || (a == b && Less(x, y))
  {
    if a == "" {
      assert a + x == x && b + y == y;
    } else {
      assert (a + x)[1..] == a[1..] + x && (b + y)[1..] == b[1..] + y;
      LessAppend(a[1..], b[1..], x, y);
      assert a == [a[0]] + a[1..] && b == [b[0]] + b[1..];
    }
  }

  function Pow10(w: nat): (r: nat)
    ensures r >= 1
  {
    if w == 0 then 1 else 10 * Pow10(w - 1)
  }

  /** Decimal digits, with zeros in front up to a width; more digits when the number needs them. */
  function Pad(n: nat, width: nat): string {
    if width <= 1 then Digits(n) else Pad(n / 10, width - 1) + [DigitChar(n % 10)]
  }

  lemma {:induction false} PadOrder(n: nat, m: nat, width: nat)
    requires width >= 1 && n < Pow10(width) && m < Pow10(width)
    ensures |Pad(n, width)| == |Pad(m, width)| == width
    ensures Less(Pad(n, width), Pad(m, width)) <==> n < m
    ensures Pad(n, width) == Pad(m, width) <==> n == m
  {
    if width == 1 {
      assert Pow10(1) == 10 * Pow10(0);
      OneCharOrder(DigitChar(n), DigitChar(m));
    } else {
      PadOrder(n / 10, m / 10, width - 1);
      LessAppend(Pad(n / 10, width - 1), Pad(m / 10, width - 1), [DigitChar(n % 10)], [DigitChar(m % 10)]);
      OneCharOrder(DigitChar(n % 10), DigitChar(m % 10));
      var a, b := Pad(n, width), Pad(m, width);
      assert a[..width - 1] == Pad(n / 10, width - 1) && b[..width - 1] == Pad(m / 10, width - 1);
      assert a[width - 1] == DigitChar(n % 10) && b[width - 1] == DigitChar(m % 10);
    }
  }

  lemma OneCharOrder(c: char, d: char)
    ensures Less([c], [d]) <==> c < d
  {
  }

  /** Numbers printed at fixed widths, each followed by a mark. */
  function Print(values: seq<nat>, layout: seq<(nat, char)>): string
    requires |values| == |layout|
  {
    if values == [] then ""
    else Pad(values[0], layout[0].0) + ([layout[0].1] + Print(values[1..], layout[1..]))
  }

  predicate Fit(values: seq<nat>, layout: seq<(nat, char)>) {
    |values| == |layout| && forall i :: 0 <= i < |values| ==> layout[i].0 >= 1 && values[i] < Pow10(layout[i].0)
  }

  /** Text printed at fixed widths compares as the numbers do. */
  lemma {:induction false} PrintOrder(v: seq<nat>, w: seq<nat>, layout: seq<(nat, char)>)
    requires Fit(v, layout) && Fit(w, layout)
    ensures |Print(v, layout)| == |Print(w, layout)|
    ensures Less(Print(v, layout), Print(w, layout)) <==> Before(v, w)
    ensures Print(v, layout) == Print(w, layout) <==> v == w
  {
    if v != [] {
      var more := layout[1..];
      PrintOrder(v[1..], w[1..], more);
      PadOrder(v[0], w[0], layout[0].0);
      var mark := [layout[0].1];
      var p, q, x, y := Pad(v[0], layout[0].0), Pad(w[0], layout[0].0), Print(v[1..], more), Print(w[1..], more);
      LessAppend(p, q, mark + x, mark + y);
      LessAppend(mark, mark, x, y);
      SameParts(p, q, mark + x, mark + y);
      SameParts(mark, mark, x, y);
      assert v == [v[0]] + v[1..] && w == [w[0]] + w[1..];
    }
  }

  lemma SameParts(a: string, b: string, x: string, y: string)
    requires |a| == |b|
    ensures a + x == b + y <==> a == b && x == y
  {
    assert (a + x)[..|a|] == a && (b + y)[..|b|] == b;
    assert (a + x)[|a|..] == x && (b + y)[|b|..] == y;
  }

  /** The recorded text of an instant. */
  function Text(t: nat): string {
    Print(Fields(t), LAYOUT)
  }

  /** An anchor: the start of Unix time, 719528 days into the calendar. */
  lemma UnixEpoch()
    ensures Fields(719528 * DAY) == [1970, 1, 1, 0, 0, 0]
  {
    Midnight(719528, 1970);
  }

  lemma FirstOfYear(day: nat, e: nat)
    requires DaysBeforeYear(e) == day
    ensures CivilOf(day) == Civil(e, 0, 0)
  {
    hide CivilOf, DaysBeforeYear;
    DateOrder(CivilOf(day), Civil(e, 0, 0));
  }

  /** Before the year 10000. */
  predicate FourDigitYear(t: nat) { t < 3652425 * DAY }

  lemma FourDigits(t: nat)
    ensures FourDigitYear(t) <==> Fields(t)[0] <= 9999
  {
    var day, last := DAY_ZERO + t / DAY, 9999 + EPOCH_YEAR;
    var c := CivilOf(day);
    MonthFits(c);
    YearZero(t);
    assert DaysBeforeYear(last + 1) == DAY_ZERO + 3652425;
    assert FourDigitYear(t) <==> day < DAY_ZERO + 3652425;
    hide CivilOf, Leap, DaysBeforeMonth, FourDigitYear;
    if c.year > last + 1 {
      YearsInOrder(last + 1, c.year);
    } else if c.year <= last {
      YearsInOrder(c.year, last + 1);
    }
  }

  lemma FieldsFit(t: nat)
    requires FourDigitYear(t)
    ensures Fit(Fields(t), LAYOUT)
  {
    FourDigits(t);
    hide CivilOf, DayNumber;
    assert Pow10(1) == 10 && Pow10(2) == 100;
    assert Pow10(3) == 1000 && Pow10(4) == 10000;
    MonthDays(CivilOf(DAY_ZERO + t / DAY));
  }

  lemma MonthDays(c: Civil)
    requires ValidCivil(c)
    ensures c.month + 1 < 100 && c.day + 1 < 100
  {
  }

  /** Up to the year 9999 the recorded texts compare, byte by byte, exactly as the instants they denote. */
  lemma TextOrder(t: nat, u: nat)
    requires FourDigitYear(t) && FourDigitYear(u)
    ensures Less(Text(t), Text(u)) <==> t < u
    ensures Text(t) == Text(u) <==> t == u
  {
    FieldsFit(t);
    FieldsFit(u);
    hide Fields, Fit, Print, Less, Before;
    FieldOrder(t, u);
    PrintOrder(Fields(t), Fields(u), LAYOUT);
  }

  // --- beyond the year 9999 ---

  /** How many digits a year is printed with. */
  function YearDigits(y: nat): (w: nat)
    ensures w >= 4 && y < Pow10(w) && (w > 4 ==> Pow10(w - 1) <= y)
  {
    if y < 10000 then
      assert Pow10(4) == 10 * Pow10(3) && Pow10(3) == 10 * Pow10(2) && Pow10(2) == 10 * Pow10(1);
      4
    else
      assert Pow10(4) == 10 * Pow10(3) && Pow10(3) == 10 * Pow10(2) && Pow10(2) == 10 * Pow10(1);
      1 + YearDigits(y / 10)
  }

  lemma {:induction false} PadNarrow(n: nat, w: nat)
    requires w >= 1 && Pow10(w) <= n
    ensures Pad(n, w) == Pad(n, w + 1)
  {
    if w == 1 {
      assert Pow10(1) == 10 * Pow10(0);
      assert Pad(n, 2) == Digits(n / 10) + [DigitChar(n % 10)];
    } else {
      PadNarrow(n / 10, w - 1);
    }
  }

  lemma {:induction false} Pow10Grows(a: nat, b: nat)
    requires a <= b
    ensures Pow10(a) <= Pow10(b)
  {
    if a < b {
      Pow10Grows(a, b - 1);
    }
  }

  /** Padding to any width up to the number of digits prints those digits. */
  lemma {:induction false} PadWiden(n: nat, w: nat, digits: nat)
    requires 1 <= w <= digits && (w < digits ==> Pow10(digits - 1) <= n)
    ensures Pad(n, w) == Pad(n, digits)
    decreases digits - w
  {
    hide Pad;
    if w < digits {
      Pow10Grows(w, digits - 1);
      PadNarrow(n, w);
      PadWiden(n, w + 1, digits);
    }
  }

  function Wide(digits: nat): seq<(nat, char)> {
    [(digits, '-')] + LAYOUT[1..]
  }

  /** The recorded text with the year at the width it is printed with. */
  lemma TextWide(t: nat)
    ensures Text(t) == Print(Fields(t), Wide(YearDigits(Fields(t)[0])))
    ensures Fit(Fields(t), Wide(YearDigits(Fields(t)[0])))
  {
    var f, digits := Fields(t), YearDigits(Fields(t)[0]);
    PadWiden(f[0], 4, digits);
    RestFits(t);
    hide Fields, Pad;
    assert Wide(digits)[1..] == LAYOUT[1..];
    assert Wide(digits)[0] == (digits, '-');
  }

  lemma RestFits(t: nat)
    ensures forall i :: 1 <= i < 6 ==> Fields(t)[i] < Pow10(2) && LAYOUT[i].0 == 2
  {
    hide CivilOf, DayNumber;
    assert Pow10(1) == 10 && Pow10(2) == 100;
    MonthDays(CivilOf(DAY_ZERO + t / DAY));
  }

  /** A number without its last digits. */
  function DropDigits(n: nat, d: nat): nat {
    if d == 0 then n else DropDigits(n / 10, d - 1)
  }

  /** The last digits of a number. */
  function LastDigits(n: nat, d: nat): (tail: string)
    ensures |tail| == d && forall i :: 0 <= i < d ==> IsDigit(tail[i])
  {
    if d == 0 then "" else LastDigits(n / 10, d - 1) + [DigitChar(n % 10)]
  }

  /** A longer number prints as its first digits and then its last. */
  lemma {:induction false} PadFront(n: nat, w: nat, d: nat)
    requires w >= 1
    ensures Pad(n, w + d) == Pad(DropDigits(n, d), w) + LastDigits(n, d)
  {
    if d == 0 {
      assert Pad(n, w) + "" == Pad(n, w);
    } else {
      PadFront(n / 10, w, d - 1);
      assert Pad(n, w + d) == Pad(n / 10, w + d - 1) + [DigitChar(n % 10)];
      hide Pad, DigitChar, Digits;
      assert Pad(DropDigits(n, d), w) + (LastDigits(n / 10, d - 1) + [DigitChar(n % 10)]) ==
             Pad(DropDigits(n, d), w) + LastDigits(n / 10, d - 1) + [DigitChar(n % 10)];
    }
  }

  lemma {:induction false} FirstDigitsFit(n: nat, w: nat, d: nat)
    requires n < Pow10(w + d)
    ensures DropDigits(n, d) < Pow10(w)
  {
    if d > 0 {
      FirstDigitsFit(n / 10, w, d - 1);
    }
  }

  /** What stands before the month. */
  lemma TextStarts(t: nat)
    ensures |Text(t)| > 0
    ensures exists rest :: Text(t) == Pad(Fields(t)[0], YearDigits(Fields(t)[0])) + (['-'] + rest)
  {
    TextWide(t);
    var wide := Wide(YearDigits(Fields(t)[0]));
    assert wide[0] == (YearDigits(Fields(t)[0]), '-');
    assert Text(t) == Pad(Fields(t)[0], YearDigits(Fields(t)[0])) + (['-'] + Print(Fields(t)[1..], wide[1..])) by {
      hide Fields, Pad, Text, YearDigits;
    }
  }

  /** The exact reach of comparing recorded texts, over all instants. With years of equally many digits it
      is the order of the instants. With a year `y` of fewer digits than `v` the instants are in that
      order, and the texts compare that way exactly when `y` is at most the first digits of `v`. */
  lemma TextOrderExact(t: nat, u: nat)
    ensures var y, v := Fields(t)[0], Fields(u)[0]; var w, x := YearDigits(y), YearDigits(v);
            && (w == x ==> (Less(Text(t), Text(u)) <==> t < u))
            && (w < x ==> t < u && (Less(Text(t), Text(u)) <==> y <= DropDigits(v, x - w)) &&
                          (Less(Text(u), Text(t)) <==> DropDigits(v, x - w) < y))
  {
    hide Fields, Less, Text, YearDigits, DropDigits;
    var y, v := Fields(t)[0], Fields(u)[0];
    if YearDigits(y) == YearDigits(v) {
      SameDigits(t, u);
    } else if YearDigits(y) < YearDigits(v) {
      Pow10Grows(YearDigits(y), YearDigits(v) - 1);
      FieldOrder(t, u);
      FewerDigits(t, u);
    }
  }

  lemma SameDigits(t: nat, u: nat)
    requires YearDigits(Fields(t)[0]) == YearDigits(Fields(u)[0])
    ensures Less(Text(t), Text(u)) <==> t < u
  {
    TextWide(t);
    TextWide(u);
    FieldOrder(t, u);
    hide Fields, Print, Less, Before, Fit, Text, YearDigits;
    PrintOrder(Fields(t), Fields(u), Wide(YearDigits(Fields(t)[0])));
  }

  lemma FewerDigits(t: nat, u: nat)
    requires YearDigits(Fields(t)[0]) < YearDigits(Fields(u)[0])
    ensures var y, v := Fields(t)[0], Fields(u)[0]; var d := YearDigits(v) - YearDigits(y);
            && (Less(Text(t), Text(u)) <==> y <= DropDigits(v, d))
            && (Less(Text(u), Text(t)) <==> DropDigits(v, d) < y)
  {
    hide Fields, Text, Less, Pad, Pow10, Digits;
    var y, v := Fields(t)[0], Fields(u)[0];
    var w, d := YearDigits(y), YearDigits(v) - YearDigits(y);
    TextStarts(t);
    TextStarts(u);
    var a :| Text(t) == Pad(y, w) + (['-'] + a);
    var b :| Text(u) == Pad(v, w + d) + (['-'] + b);
    PadFront(v, w, d);
    FirstDigitsFit(v, w, d);
    var front, tail := Pad(DropDigits(v, d), w), LastDigits(v, d);
    assert Text(u) == front + (tail + (['-'] + b));
    PadOrder(y, DropDigits(v, d), w);
    PadOrder(DropDigits(v, d), y, w);
    LessAppend(Pad(y, w), front, ['-'] + a, tail + (['-'] + b));
    LessAppend(front, Pad(y, w), tail + (['-'] + b), ['-'] + a);
    MarkBeforeDigit(['-'] + a, tail + (['-'] + b));
  }

  lemma MarkBeforeDigit(s: string, t: string)
    requires s != "" && t != "" && s[0] == '-' && IsDigit(t[0])
    ensures Less(s, t) && !Less(t, s)
  {
  }

  /** A concrete pair: the year 10000 is recorded as before the year 2000. */
  lemma Year10000()
    ensures Fields(730485 * DAY) == [2000, 1, 1, 0, 0, 0] && Fields(3652425 * DAY) == [10000, 1, 1, 0, 0, 0]
    ensures Less(Text(3652425 * DAY), Text(730485 * DAY))
  {
    Midnight(730485, 2000);
    Midnight(3652425, 10000);
    hide Fields, Text, Less;
    assert YearDigits(10000) == 1 + YearDigits(1000) && DropDigits(10000, 1) == 1000;
    TextOrderExact(730485 * DAY, 3652425 * DAY);
  }

  lemma Midnight(day: nat, year: nat)
    requires DaysBeforeYear(year + EPOCH_YEAR) == DAY_ZERO + day
    ensures Fields(day * DAY) == [year, 1, 1, 0, 0, 0]
  {
    assert day * DAY / DAY == day && day * DAY % DAY == 0;
    FirstOfYear(DAY_ZERO + day, year + EPOCH_YEAR);
    hide CivilOf, DaysBeforeYear;
  }

  // --- as the heartbeat uses it ---

  function StampText(s: Stamp): string {
    match s
    case Unset => ""
    case At(t) => Text(t)
  }

  /** The test on the recorded texts that decides whether a held peer is sent again. */
  predicate Changed(updatedAt: string, prevSeen: string) {
    updatedAt != "" && prevSeen != "" && Less(prevSeen, updatedAt)
  }

  predicate Recordable(s: Stamp) { s.At? ==> FourDigitYear(s.second) }

  /** So the comparison of texts is the comparison of instants the synchronisation theorems use. */
  lemma ChangedIsNewer(updated: Stamp, seen: Stamp)
    requires Recordable(updated) && Recordable(seen)
    ensures Changed(StampText(updated), StampText(seen)) <==> Newer(updated, seen)
  {
    hide Fields, Less;
    if updated.At? && seen.At? {
      TextOrder(seen.second, updated.second);
      PrintNonEmpty(Fields(seen.second), LAYOUT);
      PrintNonEmpty(Fields(updated.second), LAYOUT);
    }
  }

  lemma PrintNonEmpty(values: seq<nat>, layout: seq<(nat, char)>)
    requires |values| == |layout| > 0
    ensures Print(values, layout) != ""
  {
  }

  // --- the fields and their marks ---

  /** The fields are a date of the calendar and a time of day, to the second. */
  lemma FieldsAre(t: nat)
    ensures var f := Fields(t);
            && f[1] >= 1 && f[2] >= 1 && ValidCivil(Civil(f[0] + EPOCH_YEAR, f[1] - 1, f[2] - 1))
            && DayNumber(Civil(f[0] + EPOCH_YEAR, f[1] - 1, f[2] - 1)) == DAY_ZERO + t / DAY
            && f[3] < 24 && f[4] < 60 && f[5] < 60 && 3600 * f[3] + 60 * f[4] + f[5] == t % DAY
  {
    YearZero(t);
    ClockParts(t % DAY);
    hide CivilOf, ValidCivil, DayNumber;
  }

  lemma {:induction false} PadTwo(n: nat)
    requires n < 100
    ensures Pad(n, 2) == [DigitChar(n / 10), DigitChar(n % 10)]
  {
    assert Digits(n / 10) == [DigitChar(n / 10)];
  }

  /** The six fields at their widths, with their marks. */
  function Marked(y: string, m: string, d: string, h: string, n: string, s: string): string {
    y + ("-" + (m + ("-" + (d + ("T" + (h + (":" + (n + (":" + (s + "Z"))))))))))
  }

  /** The text itself, twenty characters. */
  lemma TextIs(t: nat)
    requires FourDigitYear(t)
    ensures var f := Fields(t);
            Text(t) == Marked(Pad(f[0], 4), Pad(f[1], 2), Pad(f[2], 2), Pad(f[3], 2), Pad(f[4], 2), Pad(f[5], 2))
    ensures |Text(t)| == 20
  {
    var f := Fields(t);
    FieldsFit(t);
    PadOrder(f[0], f[0], 4);
    forall i | 1 <= i < 6 ensures |Pad(f[i], 2)| == 2 {
      PadOrder(f[i], f[i], 2);
    }
    hide Fields, Pad, Fit, Print, LAYOUT;
    SixFields(f);
  }

  lemma SixFields(v: seq<nat>)
    requires |v| == 6
    ensures Print(v, LAYOUT) ==
            Marked(Pad(v[0], 4), Pad(v[1], 2), Pad(v[2], 2), Pad(v[3], 2), Pad(v[4], 2), Pad(v[5], 2))
  {
    hide Pad, Print;
    var l := LAYOUT;
    PrintNext(v, l);
    PrintNext(v[1..], l[1..]);
    PrintNext(v[1..][1..], l[1..][1..]);
    PrintNext(v[1..][1..][1..], l[1..][1..][1..]);
    PrintNext(v[1..][1..][1..][1..], l[1..][1..][1..][1..]);
    PrintNext(v[1..][1..][1..][1..][1..], l[1..][1..][1..][1..][1..]);
    PrintNone(v[1..][1..][1..][1..][1..][1..], l[1..][1..][1..][1..][1..][1..]);
    assert "Z" + "" == "Z";
  }

  lemma PrintNone(v: seq<nat>, l: seq<(nat, char)>)
    requires |v| == |l| == 0
    ensures Print(v, l) == ""
  {
  }

  lemma PrintNext(v: seq<nat>, l: seq<(nat, char)>)
    requires |v| == |l| > 0
    ensures Print(v, l) == Pad(v[0], l[0].0) + ([l[0].1] + Print(v[1..], l[1..]))
  {
  }
}
