/** The proleptic Gregorian calendar and instants in UTC. An instant is a number of microseconds. */
module Calendar {

  const MICROS_PER_SECOND := 1_000_000
  const MICROS_PER_DAY := 86_400_000_000
  const MAX_YEAR := 9999

  datatype Date = Date(year: int, month: int, day: int)

  predicate IsLeap(y: int) {
    y % 4 == 0 && (y % 100 != 0 || y % 400 == 0)
  }

  function DaysInMonth(y: int, m: int): int {
    if m == 2 then (if IsLeap(y) then 29 else 28)
    else if m == 4 || m == 6 || m == 9 || m == 11 then 30
    else 31
  }

  predicate ValidDate(d: Date) {
    1 <= d.year <= MAX_YEAR && 1 <= d.month <= 12 && 1 <= d.day <= DaysInMonth(d.year, d.month)
  }

  function DaysBeforeYear(y: int): int {
    var z := y - 1;
    365 * z + z / 4 - z / 100 + z / 400
  }

  function DaysBeforeMonth(y: int, m: int): int {
    (if m <= 1 then 0 else if m == 2 then 31 else if m == 3 then 59 else if m == 4 then 90
     else if m == 5 then 120 else if m == 6 then 151 else if m == 7 then 181 else if m == 8 then 212
     else if m == 9 then 243 else if m == 10 then 273 else if m == 11 then 304 else 334)
    + (if m > 2 && IsLeap(y) then 1 else 0)
  }

  /** Day 1 is 1 January of year 1. */
  function DayNumber(d: Date): int {
    DaysBeforeYear(d.year) + DaysBeforeMonth(d.year, d.month) + d.day
  }

  lemma {:induction false} YearLength(y: int)
    ensures DaysBeforeYear(y + 1) - DaysBeforeYear(y) == if IsLeap(y) then 366 else 365
  {
    QuarterSteps(y);
    CenturySteps(y);
    EraSteps(y);
  }

  lemma {:induction false} QuarterSteps(y: int)
    ensures y / 4 - (y - 1) / 4 == if y % 4 == 0 then 1 else 0
  {
    var q, r := (y - 1) / 4, (y - 1) % 4;
    assert y == 4 * q + (r + 1);
  }

  lemma {:induction false} CenturySteps(y: int)
    ensures y / 100 - (y - 1) / 100 == if y % 100 == 0 then 1 else 0
    ensures y % 100 == 0 ==> y % 4 == 0
  {
    var q, r := (y - 1) / 100, (y - 1) % 100;
    assert y == 100 * q + (r + 1);
    if r == 99 {
      assert y == 4 * (25 * (q + 1));
    }
  }

  lemma {:induction false} EraSteps(y: int)
    ensures y / 400 - (y - 1) / 400 == if y % 400 == 0 then 1 else 0
    ensures y % 400 == 0 ==> y % 100 == 0
  {
    var q, r := (y - 1) / 400, (y - 1) % 400;
    assert y == 400 * q + (r + 1);
    if r == 399 {
      assert y == 100 * (4 * (q + 1));
    }
  }

  lemma {:induction false} YearsAreOrdered(y: int, z: int)
    requires y <= z
    ensures DaysBeforeYear(y) + 365 * (z - y) <= DaysBeforeYear(z)
    decreases z - y
  {
    if y < z {
      YearLength(z - 1);
      YearsAreOrdered(y, z - 1);
    }
  }

  lemma {:induction false} DayInYear(d: Date)
    requires ValidDate(d)
    ensures DaysBeforeYear(d.year) < DayNumber(d) <= DaysBeforeYear(d.year + 1)
  {
    YearLength(d.year);
  }

  predicate Earlier(a: Date, b: Date) {
    || a.year < b.year
    || (a.year == b.year && (a.month < b.month || (a.month == b.month && a.day < b.day)))
  }

  /** Day numbers order dates as year, month, day does; so distinct dates have distinct numbers. */
  lemma {:induction false} DayNumbersAreOrdered(a: Date, b: Date)
    requires ValidDate(a) && ValidDate(b)
    ensures Earlier(a, b) <==> DayNumber(a) < DayNumber(b)
    ensures a == b <==> DayNumber(a) == DayNumber(b)
  {
    DayInYear(a);
    DayInYear(b);
    if a.year < b.year {
      YearsAreOrdered(a.year + 1, b.year);
    } else if b.year < a.year {
      YearsAreOrdered(b.year + 1, a.year);
    }
  }

  // ---- The calendar, spelled out ----

  lemma {:induction false} LeapYears(y: int)
    ensures y % 4 != 0 ==> !IsLeap(y)
    ensures y % 4 == 0 && y % 100 != 0 ==> IsLeap(y)
    ensures y % 100 == 0 ==> (IsLeap(y) <==> y % 400 == 0)
    ensures IsLeap(2000) && IsLeap(2024) && !IsLeap(1900) && !IsLeap(2026) && !IsLeap(2100)
  {
    CenturySteps(y);
  }

  /** Which dates there are. */
  lemma {:induction false} DatesAreThese(d: Date)
    ensures ValidDate(d) <==>
              && 1 <= d.year <= 9999 && 1 <= d.day
              && (d.month in {1, 3, 5, 7, 8, 10, 12} ==> d.day <= 31)
              && (d.month in {4, 6, 9, 11} ==> d.day <= 30)
              && (d.month == 2 ==> d.day <= 28 || (d.day == 29 && IsLeap(d.year)))
              && d.month in {1, 2, 3, 4, 5, 6, 7, 8, 9, 10, 11, 12}
    ensures var leap := if IsLeap(d.year) then 1 else 0;
            && DaysInMonth(d.year, 2) == 28 + leap
            && (d.month in {1, 3, 5, 7, 8, 10, 12} ==> DaysInMonth(d.year, d.month) == 31)
            && (d.month in {4, 6, 9, 11} ==> DaysInMonth(d.year, d.month) == 30)
  {
    hide IsLeap;
  }

  function Tomorrow(d: Date): Date {
    if d.day < DaysInMonth(d.year, d.month) then Date(d.year, d.month, d.day + 1)
    else if d.month < 12 then Date(d.year, d.month + 1, 1)
    else Date(d.year + 1, 1, 1)
  }

  lemma {:induction false} MonthStep(y: int, m: int)
    requires 1 <= m <= 12
    ensures m < 12 ==> DaysBeforeMonth(y, m + 1) == DaysBeforeMonth(y, m) + DaysInMonth(y, m)
    ensures DaysBeforeMonth(y, 1) == 0
    ensures DaysBeforeMonth(y, 12) + DaysInMonth(y, 12) == if IsLeap(y) then 366 else 365
  {
    hide IsLeap;
  }

  lemma {:induction false} FirstDay()
    ensures DayNumber(Date(1, 1, 1)) == 1
  {
  }

  lemma {:induction false} LastDay()
    ensures DayNumber(Date(9999, 12, 31)) == 3652059
  {
  }

  lemma {:induction false} DayAfter(d: Date)
    requires ValidDate(d)
    ensures DayNumber(Tomorrow(d)) == DayNumber(d) + 1
  {
    hide IsLeap, DaysInMonth, DaysBeforeMonth, DaysBeforeYear;
    YearLength(d.year);
    MonthStep(d.year, d.month);
    MonthStep(d.year + 1, 1);
  }

  /** Days are counted one by one, from 1 January of year 1 to 31 December of year 9999. */
  lemma {:induction false} DaysAreCounted(d: Date)
    requires ValidDate(d)
    ensures DayNumber(Tomorrow(d)) == DayNumber(d) + 1
    ensures DayNumber(Date(1, 1, 1)) == 1 && DayNumber(Date(9999, 12, 31)) == 3652059
  {
    hide DayNumber, Tomorrow;
    DayAfter(d);
    FirstDay();
    LastDay();
  }

  // ---- From day numbers back to dates ----

  const LAST_DAY := DayNumber(Date(MAX_YEAR, 12, 31))

  /** The days that have a date with a year from 1 to 9999. */
  predicate HasDate(n: int) {
    1 <= n <= LAST_DAY
  }

  function YearFrom(n: int, y: int): (r: int)
    requires 1 <= y <= MAX_YEAR && DaysBeforeYear(y) < n <= LAST_DAY
    ensures y <= r <= MAX_YEAR && DaysBeforeYear(r) < n <= DaysBeforeYear(r + 1)
    decreases MAX_YEAR - y
  {
    if n <= DaysBeforeYear(y + 1) then y else YearFrom(n, y + 1)
  }

  function MonthFrom(y: int, k: int, m: int): (r: int)
    requires 1 <= m <= 12 && DaysBeforeMonth(y, m) < k <= DaysBeforeMonth(y, 12) + 31
    ensures m <= r <= 12 && DaysBeforeMonth(y, r) < k <= DaysBeforeMonth(y, r) + DaysInMonth(y, r)
    decreases 12 - m
  {
    if k <= DaysBeforeMonth(y, m) + DaysInMonth(y, m) then m else MonthFrom(y, k, m + 1)
  }

  /** The inverse of `DayNumber`. */
  function DateOf(n: int): (d: Date)
    requires HasDate(n)
    ensures ValidDate(d) && DayNumber(d) == n
  {
    var y := YearFrom(n, 1);
    YearLength(y);
    var k := n - DaysBeforeYear(y);
    var m := MonthFrom(y, k, 1);
    Date(y, m, k - DaysBeforeMonth(y, m))
  }

  // ---- Instants ----

  datatype DateTime = DateTime(date: Date, hour: int, minute: int, second: int, micros: int)

  predicate ValidTime(hour: int, minute: int, second: int) {
    0 <= hour <= 23 && 0 <= minute <= 59 && 0 <= second <= 59
  }

  predicate ValidDateTime(t: DateTime) {
    ValidDate(t.date) && ValidTime(t.hour, t.minute, t.second) && 0 <= t.micros < MICROS_PER_SECOND
  }

  function TimeOfDay(t: DateTime): int {
    ((t.hour * 60 + t.minute) * 60 + t.second) * MICROS_PER_SECOND + t.micros
  }

  function Instant(t: DateTime): int {
    DayNumber(t.date) * MICROS_PER_DAY + TimeOfDay(t)
  }

  /** The day an instant falls on. */
  function DayOf(instant: int): int {
    instant / MICROS_PER_DAY
  }

  /** What the clock shows and how it is counted. */
  lemma {:induction false} ClockIsCounted(t: DateTime)
    ensures ValidDateTime(t) <==>
              && ValidDate(t.date) && 0 <= t.hour < 24 && 0 <= t.minute < 60 && 0 <= t.second < 60
              && 0 <= t.micros < 1_000_000
    ensures Instant(t) == DayNumber(t.date) * 86_400_000_000
                        + t.hour * 3_600_000_000 + t.minute * 60_000_000 + t.second * 1_000_000 + t.micros
  {
  }

  lemma {:induction false} TimeOfDayInRange(t: DateTime)
    requires ValidDateTime(t)
    ensures 0 <= TimeOfDay(t) < MICROS_PER_DAY
    ensures DayOf(Instant(t)) == DayNumber(t.date)
  {
  }

  /** Instants order date-times, and tell distinct ones apart. */
  lemma {:induction false} InstantsAreOrdered(a: DateTime, b: DateTime)
    requires ValidDateTime(a) && ValidDateTime(b)
    ensures Earlier(a.date, b.date) ==> Instant(a) < Instant(b)
    ensures a == b <==> Instant(a) == Instant(b)
  {
    TimeOfDayInRange(a);
    TimeOfDayInRange(b);
    DayNumbersAreOrdered(a.date, b.date);
    DaysThenTimes(DayNumber(a.date), TimeOfDay(a), DayNumber(b.date), TimeOfDay(b));
    if TimeOfDay(a) == TimeOfDay(b) {
      TimesAreDistinct(a, b);
    }
  }

  lemma {:induction false} DaysThenTimes(d: int, t: int, e: int, u: int)
    requires 0 <= t < MICROS_PER_DAY && 0 <= u < MICROS_PER_DAY
    ensures d < e ==> d * MICROS_PER_DAY + t < e * MICROS_PER_DAY + u
    ensures d * MICROS_PER_DAY + t == e * MICROS_PER_DAY + u ==> d == e && t == u
  {
  }

  lemma {:induction false} TimesAreDistinct(a: DateTime, b: DateTime)
    requires ValidDateTime(a) && ValidDateTime(b) && TimeOfDay(a) == TimeOfDay(b)
    ensures a.hour == b.hour && a.minute == b.minute && a.second == b.second && a.micros == b.micros
  {
  }
}
