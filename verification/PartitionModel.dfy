/** Daily partitions of the events table: creation, routing, dropping, and their tenant policies. */
module PartitionModel {
  import opened Text
  import opened Calendar

  datatype Row = Row(id: nat, tenant: string, eventTime: int)

  /** Row-level security of one table: enabled, forced on its owner, and carrying the tenant policy. */
  datatype Security = Security(enabled: bool, forced: bool, policy: bool)

  const SECURED := Security(true, true, true)

  /** The partition for the instants of one day. */
  datatype Partition = Partition(day: int, rows: seq<Row>, security: Security)

  /** The dated partitions by table name, and the rows of `events_default`. */
  datatype Store = Store(parts: map<string, Partition>, rest: seq<Row>)

  // ---- Names ----

  function FourDigits(n: nat): string
    requires n < 10000
  {
    TwoDigits(n / 100) + TwoDigits(n % 100)
  }

  const PREFIX := "events_"

  /** `'events_' || to_char(day, 'YYYY_MM_DD')`. */
  function NameOf(day: int): string
    requires HasDate(day)
  {
    var d := DateOf(day);
    PREFIX + FourDigits(d.year) + "_" + TwoDigits(d.month) + "_" + TwoDigits(d.day)
  }

  /** A table name against the naming convention: not a partition, no such date, or the partition of a day. */
  datatype NameRead = Other | BadDate | Named(day: int)

  /** `^events_\d{4}_\d{2}_\d{2}$` and `to_date`. */
  function ReadName(name: string): NameRead {
    if !(|name| == 17 && name[..7] == PREFIX && name[11] == '_' && name[14] == '_'
         && All(IsDigit, name[7..11]) && All(IsDigit, name[12..14]) && All(IsDigit, name[15..17])) then Other
    else
      var d := Date(FromDecimal(name[7..11]), FromDecimal(name[12..14]), FromDecimal(name[15..17]));
      if ValidDate(d) then Named(DayNumber(d)) else BadDate
  }

  lemma {:induction false} FourDigitsRoundTrip(n: nat)
    requires n < 10000
    ensures All(IsDigit, FourDigits(n)) && |FourDigits(n)| == 4 && FromDecimal(FourDigits(n)) == n
  {
    var a, b := TwoDigits(n / 100), TwoDigits(n % 100);
    TwoDigitsRoundTrip(n / 100);
    TwoDigitsRoundTrip(n % 100);
    var s := FourDigits(n);
    assert s[..3] == a + [b[0]] && s[..3][..2] == a;
    assert FromDecimal(s[..3]) == 10 * FromDecimal(a) + DigitValue(b[0]);
    assert b[..1] == [b[0]] && b[..1][..0] == "";
    assert FromDecimal(b[..1]) == DigitValue(b[0]);
    assert FromDecimal(b) == 10 * DigitValue(b[0]) + DigitValue(b[1]);
  }

  /** Reading a partition's name gives its day back, so distinct days have distinct names. */
  lemma {:induction false} NamesAreFaithful(day: int)
    requires HasDate(day)
    ensures ReadName(NameOf(day)) == Named(day)
  {
    var d := DateOf(day);
    var year, month, dom := FourDigits(d.year), TwoDigits(d.month), TwoDigits(d.day);
    FourDigitsRoundTrip(d.year);
    TwoDigitsRoundTrip(d.month);
    TwoDigitsRoundTrip(d.day);
    var name := NameOf(day);
    assert name[..7] == PREFIX;
    assert name[7..11] == year;
    assert name[12..14] == month;
    assert name[15..17] == dom;
  }

  /** `events_`, four digits of the year, two of the month and two of the day, with underscores between. */
  predicate NamesDate(name: string, year: int, month: int, day: int) {
    && |name| == 17 && name[..7] == "events_" && name[11] == '_' && name[14] == '_'
    && All(IsDigit, name[7..11]) && All(IsDigit, name[12..14]) && All(IsDigit, name[15..17])
    && FromDecimal(name[7..11]) == year && FromDecimal(name[12..14]) == month && FromDecimal(name[15..17]) == day
  }

  /** How a day's partition is named. */
  lemma {:induction false} NamesAreThese(d: Date)
    requires ValidDate(d)
    ensures HasDate(DayNumber(d))
    ensures NamesDate(NameOf(DayNumber(d)), d.year, d.month, d.day)
  {
    hide FromDecimal, DayNumber;
    DateHasDay(d);
    var year, month, dom := FourDigits(d.year), TwoDigits(d.month), TwoDigits(d.day);
    FourDigitsRoundTrip(d.year);
    TwoDigitsRoundTrip(d.month);
    TwoDigitsRoundTrip(d.day);
    var name := NameOf(DayNumber(d));
    assert name == "events_" + year + "_" + month + "_" + dom;
    assert name[7..11] == year && name[12..14] == month && name[15..17] == dom;
  }

  /** Every valid date has a day number, and is the date of that. */
  lemma {:induction false} DateHasDay(d: Date)
    requires ValidDate(d)
    ensures HasDate(DayNumber(d)) && DateOf(DayNumber(d)) == d
  {
    var last := Date(9999, 12, 31);
    DayNumbersAreOrdered(d, last);
    DayInYear(d);
    YearsAreOrdered(1, d.year);
    DayNumbersAreOrdered(d, DateOf(DayNumber(d)));
  }

  lemma {:induction false} SampleDay()
    ensures DayNumber(Date(2026, 9, 11)) == 739870 && ValidDate(Date(2026, 9, 11))
  {
  }

  lemma {:induction false} TwoDigitsAreOne(x: string, y: string)
    requires All(IsDigit, x) && All(IsDigit, y) && |x| == |y| == 2 && FromDecimal(x) == FromDecimal(y)
    ensures x == y
  {
    assert x[..1][..0] == y[..1][..0] == "";
    assert FromDecimal(x[..1]) == DigitValue(x[0]) && FromDecimal(y[..1]) == DigitValue(y[0]);
  }

  lemma {:induction false} DecimalHead(x: string)
    requires All(IsDigit, x) && |x| == 4
    ensures FromDecimal(x) == 100 * FromDecimal(x[..2]) + FromDecimal(x[2..]) && FromDecimal(x[2..]) < 100
  {
    assert x[..3][..2] == x[..2];
    var tail := x[2..];
    assert tail[..1][..0] == "";
    assert FromDecimal(tail[..1]) == DigitValue(x[2]);
  }

  lemma {:induction false} FourDigitsAreOne(x: string, y: string)
    requires All(IsDigit, x) && All(IsDigit, y) && |x| == |y| == 4 && FromDecimal(x) == FromDecimal(y)
    ensures x == y
  {
    hide FromDecimal;
    DecimalHead(x);
    DecimalHead(y);
    assert All(IsDigit, x[..2]) && All(IsDigit, y[..2]);
    TwoDigitsAreOne(x[..2], y[..2]);
    TwoDigitsAreOne(x[2..], y[2..]);
    assert x == x[..2] + x[2..] && y == y[..2] + y[2..];
  }

  lemma {:induction false} NamesAreOne(a: string, b: string, year: int, month: int, day: int)
    requires NamesDate(a, year, month, day) && NamesDate(b, year, month, day)
    ensures a == b
  {
    hide FromDecimal;
    FourDigitsAreOne(a[7..11], b[7..11]);
    TwoDigitsAreOne(a[12..14], b[12..14]);
    TwoDigitsAreOne(a[15..17], b[15..17]);
    assert a == a[..7] + a[7..11] + "_" + a[12..14] + "_" + a[15..17];
    assert b == b[..7] + b[7..11] + "_" + b[12..14] + "_" + b[15..17];
  }

  lemma {:induction false} NameOfPieces(year: string, month: string, day: string)
    requires All(IsDigit, year) && |year| == 4 && All(IsDigit, month) && |month| == 2 && All(IsDigit, day) && |day| == 2
    ensures NamesDate("events_" + year + "_" + month + "_" + day, FromDecimal(year), FromDecimal(month), FromDecimal(day))
  {
    hide FromDecimal, IsDigit;
    var name := "events_" + year + "_" + month + "_" + day;
    assert name[..7] == "events_" && name[7..11] == year && name[12..14] == month && name[15..17] == day;
  }

  lemma {:induction false} TwoPlaces(x: string)
    requires All(IsDigit, x) && |x| == 2
    ensures FromDecimal(x) == 10 * DigitValue(x[0]) + DigitValue(x[1])
  {
    assert x[..1][..0] == "";
    assert FromDecimal(x[..1]) == DigitValue(x[0]);
  }

  lemma {:induction false} SampleDigits()
    ensures FromDecimal("2026") == 2026 && FromDecimal("09") == 9 && FromDecimal("11") == 11
  {
    hide FromDecimal;
    DecimalHead("2026");
    assert "2026"[..2] == "20" && "2026"[2..] == "26";
    TwoPlaces("20");
    TwoPlaces("26");
    TwoPlaces("09");
    TwoPlaces("11");
  }

  lemma {:induction false} SampleName()
    ensures NameOf(739870) == "events_2026_09_11"
  {
    hide NameOf, FromDecimal, NamesDate;
    SampleDay();
    NamesAreThese(Date(2026, 9, 11));
    SampleDigits();
    NameOfPieces("2026", "09", "11");
    NamesAreOne(NameOf(739870), "events_" + "2026" + "_" + "09" + "_" + "11", 2026, 9, 11);
  }

  /** Exactly the names of dates are read, each as its day; and exactly names with digits of no date raise. */
  lemma {:induction false} ReadNameExactly(name: string)
    ensures forall d :: ValidDate(d) ==> (NamesDate(name, d.year, d.month, d.day) <==> ReadName(name) == Named(DayNumber(d)))
    ensures ReadName(name).BadDate? <==>
              exists y, m, d :: NamesDate(name, y, m, d) && !ValidDate(Date(y, m, d))
  {
    hide FromDecimal, DayNumber;
    forall d | ValidDate(d)
      ensures NamesDate(name, d.year, d.month, d.day) <==> ReadName(name) == Named(DayNumber(d))
    {
      if ReadName(name) == Named(DayNumber(d)) {
        var e := Date(FromDecimal(name[7..11]), FromDecimal(name[12..14]), FromDecimal(name[15..17]));
        DayNumbersAreOrdered(d, e);
      }
    }
    if ReadName(name).BadDate? {
      assert NamesDate(name, FromDecimal(name[7..11]), FromDecimal(name[12..14]), FromDecimal(name[15..17]));
    }
  }

  // ---- create_daily_partitions ----

  predicate RestHasDay(s: Store, day: int) {
    exists k :: 0 <= k < |s.rest| && DayOf(s.rest[k].eventTime) == day
  }

  predicate Covered(s: Store, day: int) {
    exists name :: name in s.parts && s.parts[name].day == day
  }

  /**
   One turn of the loop; `None` is the error that undoes the whole function. A new partition must not
   overlap another one, and the default partition must hold no row of its day.
   */
  function CreateOne(s: Store, day: int): Option<Store>
    requires HasDate(day)
  {
    var name := NameOf(day);
    if name in s.parts then Some(s.(parts := s.parts[name := s.parts[name].(security := SECURED)]))
    else if Covered(s, day) || RestHasDay(s, day) then None
    else Some(s.(parts := s.parts[name := Partition(day, [], SECURED)]))
  }

  /** Every day of the range has a year from 1 to 9999. */
  predicate DatesExist(first: int, last: int) {
    first <= last ==> 1 <= first && last <= LAST_DAY
  }

  /** The loop over the days `first` to `last`. */
  function CreateRange(s: Store, first: int, last: int): Option<Store>
    requires DatesExist(first, last)
    decreases last - first
  {
    if last < first then Some(s)
    else
      var r := CreateRange(s, first, last - 1);
      if r.None? then None else CreateOne(r.value, last)
  }

  function Create(s: Store, today: int, back: int, ahead: int): Option<Store>
    requires DatesExist(today - back, today + ahead)
  {
    CreateRange(s, today - back, today + ahead)
  }

  // ---- drop_old_partitions ----

  predicate IsOld(name: string, bound: int) {
    ReadName(name).Named? && ReadName(name).day < bound
  }

  predicate SomeBadDate(s: Store) {
    exists name :: name in s.parts && ReadName(name).BadDate?
  }

  /** `to_date` raises on a name without a date, which undoes the whole function. */
  function Drop(s: Store, today: int, retain: int): Option<Store> {
    if SomeBadDate(s) then None
    else Some(s.(parts := map name | name in s.parts && !IsOld(name, today - retain) :: s.parts[name]))
  }

  /** `make partitions`: both calls in one transaction. */
  function Maintain(s: Store, today: int, back: int, ahead: int, retain: int): Option<Store>
    requires DatesExist(today - back, today + ahead)
  {
    var r := Create(s, today, back, ahead);
    if r.None? then None else Drop(r.value, today, retain)
  }

  // ---- Inserting ----

  /** A row goes to the partition whose range holds its time, and to the default partition if there is none. */
  function Insert(s: Store, row: Row): Store {
    var day := DayOf(row.eventTime);
    if Covered(s, day) then
      s.(parts := map name | name in s.parts ::
           if s.parts[name].day == day then s.parts[name].(rows := s.parts[name].rows + [row]) else s.parts[name])
    else s.(rest := s.rest + [row])
  }

  // ---- Both functions on any store ----

  /** A creation of one day fails if and only if the partition is missing and its range is taken, by partition or row. */
  lemma {:induction false} CreateOneFails(s: Store, day: int)
    requires HasDate(day)
    ensures CreateOne(s, day).None? <==>
              && NameOf(day) !in s.parts
              && ((exists name :: name in s.parts && s.parts[name].day == day)
                  || exists k :: 0 <= k < |s.rest| && DayOf(s.rest[k].eventTime) == day)
    ensures CreateOne(s, day).Some? ==>
              CreateOne(s, day).value == s.(parts := s.parts[NameOf(day) :=
                if NameOf(day) in s.parts then s.parts[NameOf(day)].(security := Security(true, true, true))
                else Partition(day, [], Security(true, true, true))])
  {
    hide NameOf;
  }

  /** Dropping fails if and only if some name has the digits of no date; else exactly the old dates' names go. */
  lemma {:induction false} DropIs(s: Store, today: int, retain: int)
    ensures Drop(s, today, retain).None? <==> exists name :: name in s.parts && ReadName(name) == BadDate
    ensures Drop(s, today, retain).Some? ==>
              var t := Drop(s, today, retain).value;
              && t.rest == s.rest
              && (forall name :: name in t.parts ==> name in s.parts && t.parts[name] == s.parts[name])
              && forall name :: name in s.parts ==>
                   (name in t.parts <==> ReadName(name) == Other || ReadName(name).day >= today - retain)
  {
    hide ReadName;
  }

  // ---- The invariant ----

  predicate RowsOfDay(rows: seq<Row>, day: int) {
    forall k :: 0 <= k < |rows| ==> DayOf(rows[k].eventTime) == day
  }

  predicate PartitionOk(name: string, p: Partition) {
    HasDate(p.day) && name == NameOf(p.day) && RowsOfDay(p.rows, p.day) && p.security == SECURED
  }

  /** Names, ranges and rows agree, every partition is secured, and the default holds only uncovered days. */
  predicate Ok(s: Store) {
    && (forall name :: name in s.parts ==> PartitionOk(name, s.parts[name]))
    && (forall k :: 0 <= k < |s.rest| ==> !Covered(s, DayOf(s.rest[k].eventTime)))
  }

  function Days(s: Store): set<int> {
    set name | name in s.parts :: s.parts[name].day
  }

  /** The rows of the partition of `day`. */
  function RowsOn(s: Store, day: int): seq<Row>
    requires HasDate(day)
  {
    if NameOf(day) in s.parts then s.parts[NameOf(day)].rows else []
  }

  lemma {:induction false} CoveredByName(s: Store, day: int)
    requires Ok(s)
    ensures Covered(s, day) <==> day in Days(s)
    ensures day in Days(s) ==> HasDate(day) && NameOf(day) in s.parts && s.parts[NameOf(day)].day == day
    ensures HasDate(day) && NameOf(day) in s.parts ==> day in Days(s)
  {
    if HasDate(day) && NameOf(day) in s.parts {
      var p := s.parts[NameOf(day)];
      assert PartitionOk(NameOf(day), p);
      NamesAreFaithful(day);
      NamesAreFaithful(p.day);
    }
  }

  /** Ranges of distinct partitions are disjoint. */
  lemma {:induction false} RangesAreDisjoint(s: Store, a: string, b: string)
    requires Ok(s) && a in s.parts && b in s.parts && a != b
    ensures s.parts[a].day != s.parts[b].day
  {
    assert PartitionOk(a, s.parts[a]) && PartitionOk(b, s.parts[b]);
  }

  // ---- What the operations do ----

  /** One creation: it fails exactly when the default holds a row of the day; it adds the day and nothing else. */
  lemma {:induction false} CreateOneDoes(s: Store, day: int)
    requires Ok(s) && HasDate(day)
    ensures CreateOne(s, day).None? <==> RestHasDay(s, day)
    ensures CreateOne(s, day).Some? ==>
              var t := CreateOne(s, day).value;
              && Ok(t) && t.rest == s.rest && Days(t) == Days(s) + {day}
              && s.parts.Keys <= t.parts.Keys && (forall name :: name in s.parts ==> t.parts[name] == s.parts[name])
              && forall name :: name in t.parts && name !in s.parts ==> t.parts[name].rows == []
  {
    hide NameOf, ReadName;
    CoveredByName(s, day);
    var name := NameOf(day);
    if name in s.parts {
      assert PartitionOk(name, s.parts[name]);
      assert s.parts[name].(security := SECURED) == s.parts[name];
      assert s.parts[name := s.parts[name]] == s.parts;
    } else if !RestHasDay(s, day) {
      var t := CreateOne(s, day).value;
      assert t.parts == s.parts[name := Partition(day, [], SECURED)];
      forall d
        ensures Covered(t, d) <==> Covered(s, d) || d == day
        ensures d in Days(t) <==> d in Days(s) + {day}
      {
        assert t.parts[name].day == day;
        if Covered(s, d) {
          var n :| n in s.parts && s.parts[n].day == d;
          assert t.parts[n].day == d;
        }
      }
    }
  }

  predicate InRange(d: int, first: int, last: int) {
    first <= d <= last
  }

  function DayRange(first: int, last: int): set<int> {
    set d | first <= d <= last && InRange(d, first, last)
  }

  /** The whole loop: it fails exactly when the default holds a row of a day in the range. */
  lemma {:induction false} CreateRangeDoes(s: Store, first: int, last: int)
    requires Ok(s) && DatesExist(first, last)
    ensures CreateRange(s, first, last).None? <==> exists d :: InRange(d, first, last) && RestHasDay(s, d)
    ensures CreateRange(s, first, last).Some? ==>
              var t := CreateRange(s, first, last).value;
              && Ok(t) && t.rest == s.rest && Days(t) == Days(s) + DayRange(first, last)
              && s.parts.Keys <= t.parts.Keys && (forall name :: name in s.parts ==> t.parts[name] == s.parts[name])
              && forall name :: name in t.parts && name !in s.parts ==> t.parts[name].rows == []
    decreases last - first
  {
    hide NameOf, ReadName;
    if first <= last {
      CreateRangeDoes(s, first, last - 1);
      assert forall d :: InRange(d, first, last) <==> InRange(d, first, last - 1) || d == last;
      var r := CreateRange(s, first, last - 1);
      if r.Some? {
        CreateOneDoes(r.value, last);
        assert RestHasDay(s, last) <==> RestHasDay(r.value, last);
        assert DayRange(first, last) == DayRange(first, last - 1) + {last};
      }
    }
  }

  function NotBefore(days: set<int>, bound: int): set<int> {
    set d | d in days && d >= bound
  }

  /** Dropping by name removes exactly the partitions of days before the bound, with their rows. */
  lemma {:induction false} DropDoes(s: Store, today: int, retain: int)
    requires Ok(s)
    ensures Drop(s, today, retain).Some?
    ensures var t := Drop(s, today, retain).value;
            && Ok(t) && t.rest == s.rest
            && (forall name :: name in t.parts <==> name in s.parts && s.parts[name].day >= today - retain)
            && (forall name :: name in t.parts ==> t.parts[name] == s.parts[name])
            && Days(t) == NotBefore(Days(s), today - retain)
  {
    forall name | name in s.parts
      ensures ReadName(name) == Named(s.parts[name].day)
    {
      assert PartitionOk(name, s.parts[name]);
      NamesAreFaithful(s.parts[name].day);
    }
    var t := Drop(s, today, retain).value;
    forall d | Covered(t, d)
      ensures Covered(s, d)
    {
      var n :| n in t.parts && t.parts[n].day == d;
      assert s.parts[n].day == d;
    }
    forall d | d in Days(s) && d >= today - retain
      ensures d in Days(t)
    {
      var n :| n in s.parts && s.parts[n].day == d;
      assert n in t.parts && t.parts[n].day == d;
    }
  }

  /** An insert puts the row, and only it, into the partition of its day, or else into the default. */
  lemma {:induction false} InsertDoes(s: Store, row: Row)
    requires Ok(s)
    ensures var t := Insert(s, row);
            var day := DayOf(row.eventTime);
            && Ok(t) && t.parts.Keys == s.parts.Keys && Days(t) == Days(s)
            && (day in Days(s) ==> HasDate(day) && RowsOn(t, day) == RowsOn(s, day) + [row] && t.rest == s.rest)
            && (day !in Days(s) ==> t.rest == s.rest + [row] && t.parts == s.parts)
            && forall d :: HasDate(d) && d != day ==> RowsOn(t, d) == RowsOn(s, d)
  {
    hide NameOf, ReadName;
    var t := Insert(s, row);
    var day := DayOf(row.eventTime);
    CoveredByName(s, day);
    assert forall name :: name in s.parts ==> t.parts[name].day == s.parts[name].day;
    forall name | name in t.parts
      ensures PartitionOk(name, t.parts[name])
    {
      assert PartitionOk(name, s.parts[name]);
    }
    forall d
      ensures Covered(t, d) <==> Covered(s, d)
    {
      if Covered(s, d) {
        var n :| n in s.parts && s.parts[n].day == d;
        assert t.parts[n].day == d;
      }
    }
    forall d | HasDate(d) && d != day
      ensures RowsOn(t, d) == RowsOn(s, d)
    {
      CoveredByName(s, d);
    }
  }

  /**
   Create, then drop: the days kept are the old ones and the requested range, as far as they are not
   too old; the rows of the kept days and the default are untouched; doing it again changes nothing.
   */
  lemma {:induction false} MaintainDoes(s: Store, today: int, back: int, ahead: int, retain: int)
    requires Ok(s) && DatesExist(today - back, today + ahead) && Maintain(s, today, back, ahead, retain).Some?
    ensures var t := Maintain(s, today, back, ahead, retain).value;
            && Ok(t) && t.rest == s.rest
            && Days(t) == NotBefore(Days(s) + DayRange(today - back, today + ahead), today - retain)
            && (forall d :: d in Days(t) ==> RowsOn(t, d) == RowsOn(s, d))
            && Maintain(t, today, back, ahead, retain) == Some(t)
  {
    hide NameOf, ReadName;
    var c := Create(s, today, back, ahead).value;
    CreateRangeDoes(s, today - back, today + ahead);
    DropDoes(c, today, retain);
    var t := Drop(c, today, retain).value;
    forall d | d in Days(t)
      ensures RowsOn(t, d) == RowsOn(s, d)
    {
      CoveredByName(t, d);
      CoveredByName(s, d);
      CoveredByName(c, d);
    }
    MaintainAgain(s, c, t, today, back, ahead, retain);
  }

  lemma {:induction false} NamedByDay(s: Store, name: string)
    requires Ok(s) && name in s.parts
    ensures var day := s.parts[name].day; HasDate(day) && name == NameOf(day) && day in Days(s)
  {
    assert PartitionOk(name, s.parts[name]);
  }

  lemma {:induction false} MaintainAgain(s: Store, c: Store, t: Store, today: int, back: int, ahead: int, retain: int)
    requires Ok(s) && DatesExist(today - back, today + ahead)
    requires Create(s, today, back, ahead) == Some(c) && Drop(c, today, retain) == Some(t)
    ensures Maintain(t, today, back, ahead, retain) == Some(t)
  {
    hide NameOf, ReadName, Ok;
    var first, last := today - back, today + ahead;
    CreateRangeDoes(s, first, last);
    DropDoes(c, today, retain);
    CreateRangeDoes(t, first, last);
    assert forall d :: RestHasDay(t, d) <==> RestHasDay(s, d);
    var c2 := Create(t, today, back, ahead).value;
    DropDoes(c2, today, retain);
    var t2 := Drop(c2, today, retain).value;
    forall name
      ensures name in t2.parts <==> name in t.parts
      ensures name in t.parts ==> t2.parts[name] == t.parts[name]
    {
      if name in t2.parts && name !in t.parts {
        var day := c2.parts[name].day;
        NamedByDay(c2, name);
        CoveredByName(c2, day);
        CoveredByName(c, day);
      }
    }
    assert t2.parts == t.parts;
  }
}
