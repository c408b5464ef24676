/** Wall-clock minutes of the proleptic Gregorian calendar, as Python's datetime counts them. */
module Calendar {

  const MINUTES_A_DAY := 1440

  datatype Civil = Civil(year: int, month: int, day: int, hour: int, minute: int) {
    predicate Valid() {
      && year >= 1 && 1 <= month <= 12 && 1 <= day <= DaysInMonth(year, month)
      && 0 <= hour < 24 && 0 <= minute < 60
    }
  }

  predicate Leap(year: int) {
    year % 4 == 0 && (year % 100 != 0 || year % 400 == 0)
  }

  function DaysInMonth(year: int, month: int): int {
    if month == 2 then if Leap(year) then 29 else 28
    else if month in {4, 6, 9, 11} then 30 else 31
  }

  function DaysBeforeYear(year: int): int {
    var y := year - 1;
    365 * y + y / 4 - y / 100 + y / 400
  }

  function DaysBeforeMonth(year: int, month: int): int
    requires 1 <= month <= 13
    decreases month
  {
    if month == 1 then 0 else DaysBeforeMonth(year, month - 1) + DaysInMonth(year, month - 1)
  }

  /** Day 1 is the first of January of year 1. */
  function Ordinal(year: int, month: int, day: int): int
    requires 1 <= month <= 12
  {
    DaysBeforeYear(year) + DaysBeforeMonth(year, month) + day
  }

  function MinuteNo(c: Civil): int
    requires c.Valid()
  {
    Ordinal(c.year, c.month, c.day) * MINUTES_A_DAY + c.hour * 60 + c.minute
  }

  /** Python's date.weekday: Monday is 0. */
  function Weekday(c: Civil): int
    requires c.Valid()
  {
    (Ordinal(c.year, c.month, c.day) + 6) % 7
  }

  /** The next minute, field by field. */
  function Tick(c: Civil): (r: Civil)
    requires c.Valid()
    ensures r.Valid()
  {
    if c.minute < 59 then c.(minute := c.minute + 1)
    else if c.hour < 23 then c.(hour := c.hour + 1, minute := 0)
    else if c.day < DaysInMonth(c.year, c.month) then c.(day := c.day + 1, hour := 0, minute := 0)
    else if c.month < 12 then c.(month := c.month + 1, day := 1, hour := 0, minute := 0)
    else Civil(c.year + 1, 1, 1, 0, 0)
  }

  function YearLength(year: int): int {
    if Leap(year) then 366 else 365
  }

  lemma Quarter(year: int)
    ensures year / 4 == (year - 1) / 4 + if year % 4 == 0 then 1 else 0
  {}

  lemma Century(year: int)
    ensures year / 100 == (year - 1) / 100 + if year % 100 == 0 then 1 else 0
    ensures year % 100 == 0 ==> year % 4 == 0
  {
    if year % 100 == 0 { assert year == 4 * (25 * (year / 100)); }
  }

  lemma Cycle(year: int)
    ensures year / 400 == (year - 1) / 400 + if year % 400 == 0 then 1 else 0
    ensures year % 400 == 0 ==> year % 100 == 0
  {
    if year % 400 == 0 { assert year == 100 * (4 * (year / 400)); }
  }

  lemma YearAdds(year: int)
    ensures DaysBeforeYear(year + 1) == DaysBeforeYear(year) + YearLength(year)
  {
    Quarter(year);
    Century(year);
    Cycle(year);
  }

  /** Days before a month, in a common year. */
  function CommonDays(month: int): int
    requires 1 <= month <= 13
  {
    [0, 31, 59, 90, 120, 151, 181, 212, 243, 273, 304, 334, 365][month - 1]
  }

  lemma MonthTable(year: int, month: int)
    requires 1 <= month <= 13
    ensures DaysBeforeMonth(year, month) == CommonDays(month) + if month > 2 && Leap(year) then 1 else 0
    decreases month
  {
    if month > 1 { MonthTable(year, month - 1); }
  }

  /** One tick is one minute. */
  lemma TickAdds(c: Civil)
    requires c.Valid()
    ensures MinuteNo(Tick(c)) == MinuteNo(c) + 1
  {
    hide DaysBeforeYear, DaysBeforeMonth, DaysInMonth, Leap;
    DayAfter(c.year, c.month, c.day);
  }

  /** The day after, within a month, across months and across years. */
  lemma DayAfter(year: int, month: int, day: int)
    requires 1 <= month <= 12
    ensures Ordinal(year, month, day + 1) == Ordinal(year, month, day) + 1
    ensures month < 12 ==> Ordinal(year, month + 1, 1) == Ordinal(year, month, DaysInMonth(year, month)) + 1
    ensures Ordinal(year + 1, 1, 1) == Ordinal(year, 12, 31) + 1 && DaysInMonth(year, 12) == 31
  {
    hide DaysBeforeYear;
    YearAdds(year);
    MonthTable(year, 12);
  }

  lemma {:induction false} YearsGrow(a: int, b: int)
    requires a < b
    ensures DaysBeforeYear(a) + YearLength(a) <= DaysBeforeYear(b)
    decreases b - a
  {
    YearAdds(b - 1);
    if a < b - 1 { YearsGrow(a, b - 1); }
  }

  lemma {:induction false} MonthsGrow(year: int, a: int, b: int)
    requires 1 <= a < b <= 13
    ensures DaysBeforeMonth(year, a) + DaysInMonth(year, a) <= DaysBeforeMonth(year, b)
    decreases b - a
  {
    if a < b - 1 { MonthsGrow(year, a, b - 1); }
  }

  predicate Before(a: Civil, b: Civil) {
    || a.year < b.year
    || (a.year == b.year && (
          || a.month < b.month
          || (a.month == b.month && (
                || a.day < b.day
                || (a.day == b.day && a.hour * 60 + a.minute < b.hour * 60 + b.minute)))))
  }

  lemma DayOfYear(c: Civil)
    requires c.Valid()
    ensures DaysBeforeYear(c.year) < Ordinal(c.year, c.month, c.day) <= DaysBeforeYear(c.year) + YearLength(c.year)
  {
    MonthTable(c.year, c.month);
    MonthTable(c.year, 13);
    MonthsGrow(c.year, c.month, 13);
  }

  lemma BeforeGrows(a: Civil, b: Civil)
    requires a.Valid() && b.Valid() && Before(a, b)
    ensures MinuteNo(a) < MinuteNo(b)
  {
    if a.year < b.year {
      DayOfYear(a);
      DayOfYear(b);
      YearsGrow(a.year, b.year);
    } else if a.month < b.month {
      MonthsGrow(a.year, a.month, b.month);
    }
  }

  /** The minute number orders minutes as the calendar does; in particular it names one minute. */
  lemma OrderIff(a: Civil, b: Civil)
    requires a.Valid() && b.Valid()
    ensures MinuteNo(a) < MinuteNo(b) <==> Before(a, b)
    ensures MinuteNo(a) == MinuteNo(b) <==> a == b
  {
    if Before(a, b) { BeforeGrows(a, b); }
    if Before(b, a) { BeforeGrows(b, a); }
  }

  /** The same date one year on is at most 366 days away. */
  lemma NextYear(year: int, month: int, day: int)
    requires 1 <= month <= 12
    ensures 365 <= Ordinal(year + 1, month, day) - Ordinal(year, month, day) <= 366
  {
    YearAdds(year);
    MonthTable(year, month);
    MonthTable(year + 1, month);
    assert Leap(year) ==> !Leap(year + 1);
  }
}
