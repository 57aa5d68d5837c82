/** Reading an RFC 3164 TIMESTAMP (section 4.1.2), which names neither a year nor a time zone. */
module TimeInference {
  import opened Text
  import opened Calendar

  /** How far ahead of `now` a sender's clock may run. */
  const TOLERANCE := 5 * 60 * MICROS_PER_SECOND

  /** The text `Mon DD HH:MM:SS`, split at its separators. */
  datatype Stamp = Stamp(month: string, day: nat, hour: nat, minute: nat, second: nat)

  datatype Error = ValueError | OverflowError

  datatype Inferred = Known(time: DateTime) | Raised(error: Error)

  const MONTHS: seq<string> :=
    ["jan", "feb", "mar", "apr", "may", "jun", "jul", "aug", "sep", "oct", "nov", "dec"]

  /** `%b`: the English abbreviations in any case; 0 for anything else. */
  function MonthNumber(name: string): (m: int)
    ensures 0 <= m <= 12
    ensures m != 0 ==> Lower(name) == MONTHS[m - 1]
    ensures m == 0 ==> Lower(name) !in MONTHS
  {
    MonthIndex(Lower(name), 12)
  }

  function MonthIndex(lower: string, m: nat): (r: int)
    requires m <= 12
    ensures 0 <= r <= m
    ensures r != 0 ==> lower == MONTHS[r - 1]
    ensures r == 0 ==> forall k :: 0 <= k < m ==> lower != MONTHS[k]
  {
    if m == 0 then 0 else if lower == MONTHS[m - 1] then m else MonthIndex(lower, m - 1)
  }

  /** `%Y` takes four digits, so `strptime` cannot read the text of a year below 1000. */
  predicate Readable(stamp: Stamp, year: int) {
    && 1000 <= year
    && ValidDate(Date(year, MonthNumber(stamp.month), stamp.day))
    && ValidTime(stamp.hour, stamp.minute, stamp.second)
  }

  function InYear(stamp: Stamp, year: int): DateTime {
    DateTime(Date(year, MonthNumber(stamp.month), stamp.day), stamp.hour, stamp.minute, stamp.second, 0)
  }

  /** `now + timedelta(minutes=5)` does not fit in a `datetime`. */
  predicate AtEndOfTime(now: DateTime) {
    Instant(now) + TOLERANCE >= (LAST_DAY + 1) * MICROS_PER_DAY
  }

  predicate TooFarAhead(t: DateTime, now: DateTime) {
    Instant(t) > Instant(now) + TOLERANCE
  }

  function Infer(stamp: Stamp, now: DateTime): Inferred {
    if !Readable(stamp, now.date.year) then Raised(ValueError)
    else if AtEndOfTime(now) then Raised(OverflowError)
    else
      var candidate := InYear(stamp, now.date.year);
      if TooFarAhead(candidate, now) then
        var rolled := candidate.(date := candidate.date.(year := now.date.year - 1));
        if ValidDate(rolled.date) then Known(rolled) else Raised(ValueError)
      else Known(candidate)
  }

  /** The text of an instant, which loses its year. */
  function DropYear(t: DateTime): Stamp
    requires ValidDateTime(t)
  {
    Stamp(MONTHS[t.date.month - 1], t.date.day, t.hour, t.minute, t.second)
  }

  function WithYear(t: DateTime, year: int): DateTime {
    t.(date := t.date.(year := year))
  }

  // ---- Properties ----

  lemma {:induction false} DropYearKeepsMonth(t: DateTime)
    requires ValidDateTime(t)
    ensures MonthNumber(DropYear(t).month) == t.date.month
  {
    MonthNames(t.date.month);
  }

  /** The month that the letters of an abbreviation tell apart. */
  function FromLetters(name: string): int
    requires |name| == 3
  {
    match name[0]
    case 'j' => if name[1] == 'a' then 1 else if name[2] == 'n' then 6 else 7
    case 'f' => 2
    case 'm' => if name[2] == 'r' then 3 else 5
    case 'a' => if name[1] == 'p' then 4 else 8
    case 's' => 9
    case 'o' => 10
    case 'n' => 11
    case _ => 12
  }

  lemma {:induction false} MonthLetters(m: int)
    requires 1 <= m <= 12
    ensures |MONTHS[m - 1]| == 3 && FromLetters(MONTHS[m - 1]) == m && Lower(MONTHS[m - 1]) == MONTHS[m - 1]
  {
  }

  lemma {:induction false} MonthNames(m: int)
    requires 1 <= m <= 12
    ensures MonthNumber(MONTHS[m - 1]) == m
  {
    hide MonthNumber, FromLetters, Lower;
    MonthLetters(m);
    var name := MONTHS[m - 1];
    assert name in MONTHS;
    MonthLetters(MonthNumber(name));
  }

  lemma {:induction false} MonthOf(name: string, m: int)
    requires 1 <= m <= 12
    ensures Lower(name) == MONTHS[m - 1] <==> MonthNumber(name) == m
  {
    hide Lower, FromLetters;
    if Lower(name) == MONTHS[m - 1] {
      assert MONTHS[m - 1] in MONTHS;
      MonthLetters(m);
      MonthLetters(MonthNumber(name));
    }
  }

  /** The twelve abbreviations, in any letter case, and nothing else. */
  lemma {:induction false} MonthAbbreviations(name: string)
    ensures Lower(name) == "jan" <==> MonthNumber(name) == 1
    ensures Lower(name) == "feb" <==> MonthNumber(name) == 2
    ensures Lower(name) == "mar" <==> MonthNumber(name) == 3
    ensures Lower(name) == "apr" <==> MonthNumber(name) == 4
    ensures Lower(name) == "may" <==> MonthNumber(name) == 5
    ensures Lower(name) == "jun" <==> MonthNumber(name) == 6
    ensures Lower(name) == "jul" <==> MonthNumber(name) == 7
    ensures Lower(name) == "aug" <==> MonthNumber(name) == 8
    ensures Lower(name) == "sep" <==> MonthNumber(name) == 9
    ensures Lower(name) == "oct" <==> MonthNumber(name) == 10
    ensures Lower(name) == "nov" <==> MonthNumber(name) == 11
    ensures Lower(name) == "dec" <==> MonthNumber(name) == 12
    ensures 0 <= MonthNumber(name) <= 12
  {
    hide Lower, MonthNumber;
    MonthOf(name, 1);
    MonthOf(name, 2);
    MonthOf(name, 3);
    MonthOf(name, 4);
    MonthOf(name, 5);
    MonthOf(name, 6);
    MonthOf(name, 7);
    MonthOf(name, 8);
    MonthOf(name, 9);
    MonthOf(name, 10);
    MonthOf(name, 11);
    MonthOf(name, 12);
  }

  /** The tolerance is five minutes, and the end of time the last instant of year 9999. */
  lemma {:induction false} ToleranceIs(t: DateTime, now: DateTime)
    ensures TooFarAhead(t, now) <==> Instant(t) - Instant(now) > 300_000_000
    ensures AtEndOfTime(now) <==> Instant(now) + 300_000_000 >= 3_652_060 * 86_400_000_000
  {
  }

  /** Which stamps can be dated in a year. */
  lemma {:induction false} ReadableExactly(stamp: Stamp, year: int)
    ensures Readable(stamp, year) <==>
              && 1000 <= year <= 9999 && MonthNumber(stamp.month) != 0
              && 1 <= stamp.day && stamp.day <= DaysInMonth(year, MonthNumber(stamp.month))
              && stamp.hour < 24 && stamp.minute < 60 && stamp.second < 60
  {
    hide MonthNumber, DaysInMonth;
  }

  /** What is inferred: the stamp in now's year, or a year earlier if it were more than five minutes ahead. */
  lemma {:induction false} InferredIs(stamp: Stamp, now: DateTime)
    requires Readable(stamp, now.date.year) && !AtEndOfTime(now)
    ensures var year := now.date.year;
            var month := MonthNumber(stamp.month);
            var here := DateTime(Date(year, month, stamp.day), stamp.hour, stamp.minute, stamp.second, 0);
            var before := here.(date := Date(year - 1, month, stamp.day));
            && (Instant(here) <= Instant(now) + 300_000_000 ==> Infer(stamp, now) == Known(here))
            && (Instant(here) > Instant(now) + 300_000_000 ==>
                  Infer(stamp, now) == if ValidDate(before.date) then Known(before) else Raised(ValueError))
  {
    hide MonthNumber, Instant, ValidDate;
  }

  lemma {:induction false} SampleNames()
    ensures MonthNumber("Mar") == 3 && MonthNumber("SEP") == 9
  {
    hide MonthNumber;
    assert Lower("Mar") == "mar" && Lower("SEP") == "sep";
    MonthAbbreviations("Mar");
    MonthAbbreviations("SEP");
  }

  lemma {:induction false} SampleDays()
    ensures DayNumber(Date(2026, 3, 10)) == 739685 && DayNumber(Date(2026, 9, 15)) == 739874
    ensures DayNumber(Date(2026, 11, 1)) == 739921
    ensures ValidDate(Date(2026, 3, 10)) && ValidDate(Date(2025, 3, 10)) && ValidDate(Date(2026, 9, 15))
  {
  }

  /** Just inside the tolerance, and one second outside. */
  lemma {:induction false} FiveMinutesAhead()
    ensures var now := DateTime(Date(2026, 3, 10), 12, 0, 0, 0);
            && Infer(Stamp("Mar", 10, 12, 5, 0), now) == Known(DateTime(Date(2026, 3, 10), 12, 5, 0, 0))
            && Infer(Stamp("Mar", 10, 12, 5, 1), now) == Known(DateTime(Date(2025, 3, 10), 12, 5, 1, 0))
  {
    hide MonthNumber, DayNumber, LAST_DAY, Infer;
    var now := DateTime(Date(2026, 3, 10), 12, 0, 0, 0);
    SampleNames();
    SampleDays();
    ToleranceIs(now, now);
    InferredIs(Stamp("Mar", 10, 12, 5, 0), now);
    InferredIs(Stamp("Mar", 10, 12, 5, 1), now);
  }

  /** A line of September, in capital letters. */
  lemma {:induction false} SeptemberIsNine()
    ensures Infer(Stamp("SEP", 15, 10, 0, 0), DateTime(Date(2026, 11, 1), 0, 0, 0, 0))
         == Known(DateTime(Date(2026, 9, 15), 10, 0, 0, 0))
  {
    hide MonthNumber, DayNumber, Infer;
    var now := DateTime(Date(2026, 11, 1), 0, 0, 0, 0);
    SampleNames();
    SampleDays();
    ToleranceIs(now, now);
    InferredIs(Stamp("SEP", 15, 10, 0, 0), now);
  }

  /**
   Inference fails exactly when the month, day or time of day does not exist in now's year (or that
   year is below 1000), when now is within the tolerance of the last representable instant, or when
   29 February would have to be moved to the previous year.
   */
  lemma {:induction false} FailsExactly(stamp: Stamp, now: DateTime)
    requires ValidDateTime(now)
    ensures Infer(stamp, now).Raised? <==>
            || !Readable(stamp, now.date.year)
            || AtEndOfTime(now)
            || (MonthNumber(stamp.month) == 2 && stamp.day == 29 && TooFarAhead(InYear(stamp, now.date.year), now))
  {
  }

  /**
   Dropping the year of a whole-second instant and inferring it again gives the instant back exactly
   when it lies in now's year and is not too far ahead, or lies in the year before, exists in now's
   year, and would be too far ahead there.
   */
  lemma {:induction false} RoundTripsExactly(t: DateTime, now: DateTime)
    requires ValidDateTime(t) && t.micros == 0
    requires ValidDateTime(now) && 1000 <= now.date.year && !AtEndOfTime(now)
    ensures Infer(DropYear(t), now) == Known(t) <==>
            || (t.date.year == now.date.year && !TooFarAhead(t, now))
            || (t.date.year == now.date.year - 1
                && ValidDate(WithYear(t, now.date.year).date)
                && TooFarAhead(WithYear(t, now.date.year), now))
  {
    hide Instant, AtEndOfTime;
    DropYearKeepsMonth(t);
    assert InYear(DropYear(t), now.date.year) == WithYear(t, now.date.year);
  }

  /** The result is the latest reading of the stamp, in now's year or before, that is not too far ahead. */
  lemma {:induction false} LatestReading(stamp: Stamp, now: DateTime, year: int)
    requires ValidDateTime(now) && Infer(stamp, now).Known?
    requires year <= now.date.year && ValidDate(InYear(stamp, year).date)
    requires !TooFarAhead(InYear(stamp, year), now)
    ensures !TooFarAhead(Infer(stamp, now).time, now)
    ensures Instant(InYear(stamp, year)) <= Instant(Infer(stamp, now).time)
  {
    hide Infer, Instant;
    WithinAYear(stamp, now);
    YearOfResult(stamp, now);
    var r := Infer(stamp, now).time;
    if year < r.date.year {
      InstantsAreOrdered(InYear(stamp, year), r);
    }
  }

  /** Less than 366 days in the past, and at most five minutes ahead. */
  lemma {:induction false} WithinAYear(stamp: Stamp, now: DateTime)
    requires ValidDateTime(now) && Infer(stamp, now).Known?
    ensures var r := Infer(stamp, now).time;
            && ValidDateTime(r)
            && Instant(now) - 366 * MICROS_PER_DAY < Instant(r) <= Instant(now) + TOLERANCE
  {
    hide Instant, AtEndOfTime, MonthNumber, DaysInMonth;
    var candidate := InYear(stamp, now.date.year);
    if TooFarAhead(candidate, now) {
      OneYearBack(candidate);
      InstantsAreOrdered(WithYear(candidate, now.date.year - 1), now);
    } else {
      SameYearApart(candidate, now);
    }
  }

  lemma {:induction false} SameYearApart(a: DateTime, b: DateTime)
    requires ValidDateTime(a) && ValidDateTime(b) && a.date.year == b.date.year
    ensures Instant(b) - Instant(a) < 366 * MICROS_PER_DAY
  {
    DayInYear(a.date);
    DayInYear(b.date);
    YearLength(a.date.year);
    TimeOfDayInRange(a);
    TimeOfDayInRange(b);
    FewerDays(DayNumber(a.date), TimeOfDay(a), DayNumber(b.date), TimeOfDay(b));
  }

  lemma {:induction false} FewerDays(d: int, t: int, e: int, u: int)
    requires 0 <= t && u < MICROS_PER_DAY && e - d <= 365
    ensures e * MICROS_PER_DAY + u - (d * MICROS_PER_DAY + t) < 366 * MICROS_PER_DAY
  {
  }

  lemma {:induction false} OneYearBack(t: DateTime)
    requires ValidDateTime(t) && ValidDate(WithYear(t, t.date.year - 1).date)
    ensures Instant(t) - Instant(WithYear(t, t.date.year - 1)) <= 366 * MICROS_PER_DAY
  {
    SameDayLastYear(t.date);
    assert TimeOfDay(t) == TimeOfDay(WithYear(t, t.date.year - 1));
  }

  lemma {:induction false} SameDayLastYear(d: Date)
    requires ValidDate(d) && ValidDate(d.(year := d.year - 1))
    ensures DayNumber(d) - DayNumber(d.(year := d.year - 1)) <= 366
  {
    YearLength(d.year - 1);
  }

  lemma {:induction false} YearOfResult(stamp: Stamp, now: DateTime)
    requires Infer(stamp, now).Known?
    ensures var r := Infer(stamp, now).time;
            && r == InYear(stamp, r.date.year)
            && r.date.year == if TooFarAhead(InYear(stamp, now.date.year), now) then now.date.year - 1 else now.date.year
  {
  }

  lemma {:induction false} StillTooFarAhead(t: DateTime, now: DateTime, later: DateTime)
    requires Instant(now) <= Instant(later)
    ensures TooFarAhead(t, later) ==> TooFarAhead(t, now)
  {
  }

  /** For a fixed stamp the inferred instant never decreases as `now` increases. */
  lemma {:induction false} Monotone(stamp: Stamp, now: DateTime, later: DateTime)
    requires ValidDateTime(now) && ValidDateTime(later) && Instant(now) <= Instant(later)
    requires Infer(stamp, now).Known? && Infer(stamp, later).Known?
    ensures Instant(Infer(stamp, now).time) <= Instant(Infer(stamp, later).time)
  {
    hide Infer, Instant, TooFarAhead, ValidDateTime;
    WithinAYear(stamp, now);
    WithinAYear(stamp, later);
    YearsOfInstants(now, later);
    YearOfResult(stamp, now);
    YearOfResult(stamp, later);
    var a, b := Infer(stamp, now).time, Infer(stamp, later).time;
    if a.date.year < b.date.year {
      InstantsAreOrdered(a, b);
    } else {
      StillTooFarAhead(InYear(stamp, later.date.year), now, later);
      assert a.date.year == b.date.year;
    }
  }

  lemma {:induction false} YearsOfInstants(a: DateTime, b: DateTime)
    requires ValidDateTime(a) && ValidDateTime(b) && Instant(a) <= Instant(b)
    ensures a.date.year <= b.date.year
  {
    if b.date.year < a.date.year {
      InstantsAreOrdered(b, a);
    }
  }

  /**
   The tolerance does not reach across New Year: a line stamped two minutes ahead, at midnight on
   1 January, is read as a year in the past when it arrives on 31 December.
   */
  lemma {:induction false} NoForwardRoll()
    ensures var now := DateTime(Date(2026, 12, 31), 23, 58, 0, 0);
            var t := DateTime(Date(2027, 1, 1), 0, 0, 0, 0);
            && !TooFarAhead(t, now)
            && Infer(DropYear(t), now) == Known(DateTime(Date(2026, 1, 1), 0, 0, 0, 0))
  {
    hide DayNumber, MonthNumber;
    var now := DateTime(Date(2026, 12, 31), 23, 58, 0, 0);
    var t := DateTime(Date(2027, 1, 1), 0, 0, 0, 0);
    NewYearNumbers();
    DropYearKeepsMonth(t);
    var candidate := InYear(DropYear(t), 2026);
    assert candidate == DateTime(Date(2026, 1, 1), 0, 0, 0, 0);
    assert Readable(DropYear(t), 2026);
    assert !AtEndOfTime(now);
    assert !TooFarAhead(candidate, now);
  }

  lemma {:induction false} NewYearNumbers()
    ensures DayNumber(Date(2026, 12, 31)) == 739981
    ensures DayNumber(Date(2027, 1, 1)) == 739982
    ensures DayNumber(Date(2026, 1, 1)) == 739617 && 739982 < LAST_DAY
  {
  }
}
