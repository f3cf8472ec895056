/** Calendar dates of the proleptic Gregorian calendar, numbered by days,
    and the date helpers of utils/dateUtils.js: `formatDate`, `addDays`
    and `calculateDueDate`.

    A `Date` is a local calendar day (the time of day plays no part in
    these helpers). `DayNumber` counts the days since 0001-01-01, which
    was a Monday; `AddDays` steps one day at a time, the way `setDate`
    rolls over month and year ends, and is proved to move the day number
    by exactly the requested amount. */
module Calendar {
  import opened Common
  import opened Decimal

  datatype Date = Date(year: int, month: int, day: int)

  predicate IsLeapYear(y: int) {
    y % 4 == 0 && (y % 100 != 0 || y % 400 == 0)
  }

  function DaysInMonth(y: int, m: int): (n: int)
    requires 1 <= m <= 12
    ensures 28 <= n <= 31
  {
    if m == 2 then (if IsLeapYear(y) then 29 else 28)
    else if m == 4 || m == 6 || m == 9 || m == 11 then 30
    else 31
  }

  function YearLength(y: int): int {
    if IsLeapYear(y) then 366 else 365
  }

  /** A date that exists: year 1 or later, month 1..12, day within the month. */
  predicate Valid(d: Date) {
    d.year >= 1 && 1 <= d.month <= 12 && 1 <= d.day <= DaysInMonth(d.year, d.month)
  }

  function DaysBeforeYear(y: int): nat
    requires y >= 1
  {
    if y == 1 then 0 else DaysBeforeYear(y - 1) + YearLength(y - 1)
  }

  function DaysBeforeMonth(y: int, m: int): nat
    requires 1 <= m <= 12
  {
    if m == 1 then 0 else DaysBeforeMonth(y, m - 1) + DaysInMonth(y, m - 1)
  }

  /** Days elapsed since 0001-01-01. */
  function DayNumber(d: Date): nat
    requires Valid(d)
  {
    DaysBeforeYear(d.year) + DaysBeforeMonth(d.year, d.month) + d.day - 1
  }

  /** The months before December take all of the year but its last 31 days. */
  lemma DaysBeforeDecember(y: int)
    ensures DaysBeforeMonth(y, 12) + 31 == YearLength(y)
  {
    var feb := DaysInMonth(y, 2);
    assert DaysBeforeMonth(y, 2) == 31;
    assert DaysBeforeMonth(y, 3) == 31 + feb;
    assert DaysBeforeMonth(y, 4) == 62 + feb;
    assert DaysBeforeMonth(y, 5) == 92 + feb;
    assert DaysBeforeMonth(y, 6) == 123 + feb;
    assert DaysBeforeMonth(y, 7) == 153 + feb;
    assert DaysBeforeMonth(y, 8) == 184 + feb;
    assert DaysBeforeMonth(y, 9) == 215 + feb;
    assert DaysBeforeMonth(y, 10) == 245 + feb;
    assert DaysBeforeMonth(y, 11) == 276 + feb;
    assert DaysBeforeMonth(y, 12) == 306 + feb;
  }

  /** The day after `d`, rolling over the end of a month and of a year. */
  function NextDay(d: Date): (r: Date)
    requires Valid(d)
    ensures Valid(r) && DayNumber(r) == DayNumber(d) + 1
  {
    if d.day < DaysInMonth(d.year, d.month) then Date(d.year, d.month, d.day + 1)
    else if d.month < 12 then Date(d.year, d.month + 1, 1)
    else
      DaysBeforeDecember(d.year);
      Date(d.year + 1, 1, 1)
  }

  /** The day before `d`; there is none before 0001-01-01. */
  function PrevDay(d: Date): (r: Date)
    requires Valid(d) && DayNumber(d) > 0
    ensures Valid(r) && DayNumber(r) == DayNumber(d) - 1
  {
    if d.day > 1 then Date(d.year, d.month, d.day - 1)
    else if d.month > 1 then Date(d.year, d.month - 1, DaysInMonth(d.year, d.month - 1))
    else
      DaysBeforeDecember(d.year - 1);
      Date(d.year - 1, 12, 31)
  }

  /** `addDays(d, n)`: a new date `n` calendar days after `d` (before it when
      `n` is negative). The argument is a value and is not changed. */
  function AddDays(d: Date, n: int): (r: Date)
    requires Valid(d) && DayNumber(d) + n >= 0
    ensures Valid(r) && DayNumber(r) == DayNumber(d) + n
    decreases if n < 0 then -n else n
  {
    if n == 0 then d
    else if n > 0 then AddDays(NextDay(d), n - 1)
    else AddDays(PrevDay(d), n + 1)
  }

  // ---- day numbers identify dates --------------------------------------

  lemma {:induction false} DaysBeforeMonthBound(y: int, m: int)
    requires 1 <= m <= 12
    ensures DaysBeforeMonth(y, m) + DaysInMonth(y, m) <= YearLength(y)
    decreases 12 - m
  {
    if m < 12 {
      DaysBeforeMonthBound(y, m + 1);
    } else {
      DaysBeforeDecember(y);
    }
  }

  lemma {:induction false} DaysBeforeMonthMonotone(y: int, m1: int, m2: int)
    requires 1 <= m1 < m2 <= 12
    ensures DaysBeforeMonth(y, m1) + DaysInMonth(y, m1) <= DaysBeforeMonth(y, m2)
    decreases m2 - m1
  {
    if m1 + 1 < m2 {
      DaysBeforeMonthMonotone(y, m1, m2 - 1);
    }
  }

  lemma {:induction false} DaysBeforeYearMonotone(y1: int, y2: int)
    requires 1 <= y1 < y2
    ensures DaysBeforeYear(y1) + YearLength(y1) <= DaysBeforeYear(y2)
    decreases y2 - y1
  {
    if y1 + 1 < y2 {
      DaysBeforeYearMonotone(y1, y2 - 1);
    }
  }

  /** Different valid dates have different day numbers, so `AddDays(d, n)` is
      the one date that lies `n` days after `d`. */
  lemma DayNumberInjective(a: Date, b: Date)
    requires Valid(a) && Valid(b) && DayNumber(a) == DayNumber(b)
    ensures a == b
  {
    DaysBeforeMonthBound(a.year, a.month);
    DaysBeforeMonthBound(b.year, b.month);
    if a.year < b.year {
      DaysBeforeYearMonotone(a.year, b.year);
      assert false;
    } else if b.year < a.year {
      DaysBeforeYearMonotone(b.year, a.year);
      assert false;
    } else if a.month < b.month {
      DaysBeforeMonthMonotone(a.year, a.month, b.month);
      assert false;
    } else if b.month < a.month {
      DaysBeforeMonthMonotone(a.year, b.month, a.month);
      assert false;
    }
  }

  /** A date at most 365 days after `t` lies at latest in the year after. */
  lemma YearWithinDays(t: Date, e: Date)
    requires Valid(t) && Valid(e) && DayNumber(e) <= DayNumber(t) + 365
    ensures e.year <= t.year + 1
  {
    if e.year >= t.year + 2 {
      DaysBeforeMonthBound(t.year, t.month);
      DaysBeforeYearMonotone(t.year, t.year + 1);
      DaysBeforeYearMonotone(t.year + 1, e.year);
      assert false;
    }
  }

  /** Adding days in two steps is adding their sum. */
  lemma AddDaysCompose(d: Date, m: int, n: int)
    requires Valid(d) && DayNumber(d) + m >= 0 && DayNumber(d) + m + n >= 0
    ensures AddDays(AddDays(d, m), n) == AddDays(d, m + n)
  {
    DayNumberInjective(AddDays(AddDays(d, m), n), AddDays(d, m + n));
  }

  // ---- day of the week ---------------------------------------------------

  /** `getDay()`: 0 is Sunday, 1 Monday, ..., 6 Saturday. */
  function Weekday(d: Date): (w: int)
    requires Valid(d)
    ensures 0 <= w < 7
  {
    (DayNumber(d) + 1) % 7
  }

  /** Each following day is the next day of the week. */
  lemma WeekdayOfNextDay(d: Date)
    requires Valid(d)
    ensures Weekday(NextDay(d)) == (Weekday(d) + 1) % 7
  {
    WeekdayStep(d, NextDay(d));
  }

  lemma WeekdayStep(d: Date, e: Date)
    requires Valid(d) && Valid(e) && DayNumber(e) == DayNumber(d) + 1
    ensures Weekday(e) == (Weekday(d) + 1) % 7
  {
    NextInWeek(DayNumber(d) + 1);
  }

  lemma NextInWeek(a: int)
    ensures (a + 1) % 7 == (a % 7 + 1) % 7
  {
    var q := a / 7;
    assert a == 7 * q + a % 7;
    if a % 7 == 6 {
      assert a + 1 == 7 * (q + 1);
    } else {
      assert a + 1 == 7 * q + (a % 7 + 1);
    }
  }

  // ---- formatDate / calculateDueDate -----------------------------------

  /** `formatDate(d)`: "YYYY-MM-DD Z" with the 1-based month and the day
      zero-padded to two digits; the year is written as `String(year)`. */
  function FormatDate(d: Date): (s: string)
    requires Valid(d)
    ensures |s| == |NatText(d.year)| + 8
    ensures s[|s| - 2..] == " Z"
  {
    Pad2RoundTrip(d.month);
    Pad2RoundTrip(d.day);
    NatText(d.year) + "-" + Pad2(d.month) + "-" + Pad2(d.day) + " Z"
  }

  /** Value of a two-digit field. */
  function TwoDigits(a: char, b: char): nat
    requires IsDigit(a) && IsDigit(b)
  {
    DigitValue(a) * 10 + DigitValue(b)
  }

  /** Reads "Y-MM-DD Z" back: the year is every digit before the last eight
      characters, which must be "-", two digits, "-", two digits, " Z". */
  function ParseFormattedDate(s: string): Option<Date> {
    var n := |s|;
    if n < 9 then None
    else
      var y, t := s[..n - 8], s[n - 8..];
      if AllDigits(y) && t[0] == '-' && IsDigit(t[1]) && IsDigit(t[2]) && t[3] == '-'
         && IsDigit(t[4]) && IsDigit(t[5]) && t[6] == ' ' && t[7] == 'Z'
      then Some(Date(Value(y), TwoDigits(t[1], t[2]), TwoDigits(t[4], t[5])))
      else None
  }

  lemma TwoDigitValue(s: string)
    requires |s| == 2 && AllDigits(s)
    ensures Value(s) == TwoDigits(s[0], s[1])
  {
    var a := s[..1];
    assert a == [s[0]] && a[..0] == [];
    assert Value(a) == DigitValue(s[0]);
    assert s[..|s| - 1] == a;
    assert Value(s) == Value(a) * 10 + DigitValue(s[1]);
  }

  /** A year followed by eight characters of the "-MM-DD Z" shape reads
      back as the year and the two fields. */
  lemma ParseOfTail(y: string, t: string)
    requires 1 <= |y| && AllDigits(y) && |t| == 8
    requires t[0] == '-' && IsDigit(t[1]) && IsDigit(t[2]) && t[3] == '-'
    requires IsDigit(t[4]) && IsDigit(t[5]) && t[6] == ' ' && t[7] == 'Z'
    ensures ParseFormattedDate(y + t) == Some(Date(Value(y), TwoDigits(t[1], t[2]), TwoDigits(t[4], t[5])))
  {
    var s := y + t;
    assert s[..|s| - 8] == y;
    assert s[|s| - 8..] == t;
  }

  /** Any text of the "Y-MM-DD Z" shape reads back as its three numbers. */
  lemma ParseShape(y: string, mm: string, dd: string)
    requires 1 <= |y| && |mm| == 2 && |dd| == 2
    requires AllDigits(y) && AllDigits(mm) && AllDigits(dd)
    ensures ParseFormattedDate(y + "-" + mm + "-" + dd + " Z")
            == Some(Date(Value(y), Value(mm), Value(dd)))
  {
    var t := "-" + mm + "-" + dd + " Z";
    assert t == ['-', mm[0], mm[1], '-', dd[0], dd[1], ' ', 'Z'];
    assert y + "-" + mm + "-" + dd + " Z" == y + t;
    assert IsDigit(mm[0]) && IsDigit(mm[1]) && IsDigit(dd[0]) && IsDigit(dd[1]);
    ParseOfTail(y, t);
    TwoDigitValue(mm);
    TwoDigitValue(dd);
  }

  /** `formatDate` loses nothing: its text reads back as the same date. */
  lemma FormatDateRoundTrip(d: Date)
    requires Valid(d)
    ensures ParseFormattedDate(FormatDate(d)) == Some(d)
  {
    Pad2RoundTrip(d.month);
    Pad2RoundTrip(d.day);
    NatTextRoundTrip(d.year);
    ParseShape(NatText(d.year), Pad2(d.month), Pad2(d.day));
  }

  /** `calculateDueDate(c)`: the date 30 days after `c`, formatted. */
  function CalculateDueDate(c: Date): (s: string)
    requires Valid(c)
    ensures exists due :: Valid(due) && DayNumber(due) == DayNumber(c) + 30
                          && ParseFormattedDate(s) == Some(due)
  {
    var due := AddDays(c, 30);
    FormatDateRoundTrip(due);
    FormatDate(due)
  }

  // ---- ISO calendar dates ---------------------------------------------------

  /** "YYYY-MM-DD", the form `toISOString().slice(0, 10)` produces and the
      schedule documents store: the year padded to four digits. */
  function IsoText(d: Date): (s: string)
    requires Valid(d) && d.year <= 9999
    ensures |s| == 10
  {
    NatTextLength(d.year, 4);
    Pad2RoundTrip(d.month);
    Pad2RoundTrip(d.day);
    PadStart(NatText(d.year), 4, '0') + "-" + Pad2(d.month) + "-" + Pad2(d.day)
  }

  /** Reading a "YYYY-MM-DD" date; `None` stands for an invalid date (NaN
      time). Only ten-character texts whose day the month has are read:
      a day from 29 to 31 that the month lacks, which `Date` rolls over into
      the next month, and the other text forms `Date` accepts are `None`
      here. The pages send dates only in this form. */
  function ParseIsoDate(s: string): (r: Option<Date>)
    ensures r.Some? ==> Valid(r.value)
  {
    if |s| == 10 && AllDigits(s[..4]) && s[4] == '-' && IsDigit(s[5]) && IsDigit(s[6])
       && s[7] == '-' && IsDigit(s[8]) && IsDigit(s[9])
    then
      var d := Date(Value(s[..4]), TwoDigits(s[5], s[6]), TwoDigits(s[8], s[9]));
      if Valid(d) then Some(d) else None
    else None
  }

  lemma ParseIsoShape(y: string, mm: string, dd: string)
    requires |y| == 4 && |mm| == 2 && |dd| == 2
    requires AllDigits(y) && AllDigits(mm) && AllDigits(dd)
    ensures var d := Date(Value(y), Value(mm), Value(dd));
            ParseIsoDate(y + "-" + mm + "-" + dd) == if Valid(d) then Some(d) else None
  {
    var s := y + "-" + mm + "-" + dd;
    assert s == [y[0], y[1], y[2], y[3], '-', mm[0], mm[1], '-', dd[0], dd[1]];
    assert s[..4] == y;
    TwoDigitValue(mm);
    TwoDigitValue(dd);
  }

  /** The ISO text of a date reads back as that date. */
  lemma IsoRoundTrip(d: Date)
    requires Valid(d) && d.year <= 9999
    ensures ParseIsoDate(IsoText(d)) == Some(d)
  {
    NatTextLength(d.year, 4);
    ZeroPaddedNat(d.year, 4);
    Pad2RoundTrip(d.month);
    Pad2RoundTrip(d.day);
    ParseIsoShape(PadStart(NatText(d.year), 4, '0'), Pad2(d.month), Pad2(d.day));
  }
}
