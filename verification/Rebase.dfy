/** The batch loader's rebasing of a loaded batch to the present, and where the batch then lands. */
module Rebase {
  import opened Text
  import opened Calendar
  import opened Normalize
  import opened PartitionModel
  import opened Partitions

  /** An event of a batch, as the object whose time is changed in place. */
  class LoadedEvent {
    var eventTime: int
    const raw: Record

    constructor (eventTime: int, raw: Record)
      ensures this.eventTime == eventTime && this.raw == raw
    {
      this.eventTime, this.raw := eventTime, raw;
    }
  }

  predicate AllDistinct(events: seq<LoadedEvent>) {
    forall i, j :: 0 <= i < j < |events| ==> events[i] != events[j]
  }

  predicate IsEarliest(t: int, times: seq<int>) {
    t in times && forall k :: 0 <= k < |times| ==> t <= times[k]
  }

  ghost function TimesOf(events: seq<LoadedEvent>): (times: seq<int>)
    reads events
    ensures |times| == |events| && forall k :: 0 <= k < |events| ==> times[k] == events[k].eventTime
  {
    seq(|events|, k requires 0 <= k < |events| reads events => events[k].eventTime)
  }

  /** The batch moved as a whole so that its earliest time becomes `now`. */
  ghost predicate Rebased(before: seq<int>, after: seq<int>, now: int) {
    && |after| == |before|
    && (before != [] ==> IsEarliest(now, after))
    && forall i, j :: 0 <= i < |before| && 0 <= j < |before| ==> after[i] - after[j] == before[i] - before[j]
  }

  lemma {:induction false} ShiftIsRebased(before: seq<int>, after: seq<int>, now: int, earliest: int)
    requires |after| == |before| && (before != [] ==> IsEarliest(earliest, before))
    requires forall k :: 0 <= k < |before| ==> after[k] == before[k] + (now - earliest)
    ensures Rebased(before, after, now)
  {
    if before != [] {
      var k :| 0 <= k < |before| && before[k] == earliest;
      assert after[k] == now;
    }
  }

  /** `min(e.event_time for e in events)`. */
  method EarliestTime(events: seq<LoadedEvent>) returns (earliest: int)
    requires events != []
    ensures IsEarliest(earliest, TimesOf(events))
  {
    ghost var first := 0;
    earliest := events[0].eventTime;
    for k := 1 to |events|
      invariant 0 <= first < k && events[first].eventTime == earliest
      invariant forall j :: 0 <= j < k ==> earliest <= events[j].eventTime
    {
      if events[k].eventTime < earliest {
        earliest := events[k].eventTime;
        first := k;
      }
    }
    assert TimesOf(events)[first] == earliest;
  }

  method RebaseTimestamps(events: seq<LoadedEvent>, now: int)
    requires AllDistinct(events)
    modifies events
    ensures Rebased(old(TimesOf(events)), TimesOf(events), now)
  {
    hide Rebased, IsEarliest;
    if events == [] {
      ShiftIsRebased([], TimesOf(events), now, now);
      return;
    }
    ghost var before := TimesOf(events);
    var earliest := EarliestTime(events);
    var offset := now - earliest;
    for k := 0 to |events|
      invariant forall j :: 0 <= j < |events| ==> events[j].eventTime == if j < k then before[j] + offset else before[j]
    {
      events[k].eventTime := events[k].eventTime + offset;
    }
    ShiftIsRebased(before, TimesOf(events), now, earliest);
  }

  /** There is only one way to rebase: shifting every time by the same offset. */
  lemma {:induction false} RebasedIsShift(before: seq<int>, after: seq<int>, now: int, earliest: int)
    requires Rebased(before, after, now) && before != [] && IsEarliest(earliest, before)
    ensures forall k :: 0 <= k < |before| ==> after[k] == before[k] + (now - earliest)
  {
    var i :| 0 <= i < |after| && after[i] == now;
    var j :| 0 <= j < |before| && before[j] == earliest;
    assert after[i] - after[j] == before[i] - before[j];
  }

  function RowTimes(rows: seq<Row>): (times: seq<int>)
    ensures |times| == |rows| && forall k :: 0 <= k < |rows| ==> times[k] == rows[k].eventTime
  {
    if rows == [] then [] else RowTimes(rows[..|rows| - 1]) + [rows[|rows| - 1].eventTime]
  }

  function InsertAll(s: Store, rows: seq<Row>): Store {
    if rows == [] then s else Insert(InsertAll(s, rows[..|rows| - 1]), rows[|rows| - 1])
  }

  /** Rows of covered days all land in their dated partitions, and none in the default. */
  lemma {:induction false} CoveredRowsLand(s: Store, rows: seq<Row>)
    requires Ok(s) && forall k :: 0 <= k < |rows| ==> DayOf(rows[k].eventTime) in Days(s)
    ensures var t := InsertAll(s, rows);
            && Ok(t) && Days(t) == Days(s) && t.rest == s.rest
            && forall k :: 0 <= k < |rows| ==>
                             HasDate(DayOf(rows[k].eventTime)) && rows[k] in RowsOn(t, DayOf(rows[k].eventTime))
  {
    hide NameOf, ReadName;
    if rows != [] {
      var init, last := rows[..|rows| - 1], rows[|rows| - 1];
      CoveredRowsLand(s, init);
      var mid := InsertAll(s, init);
      InsertDoes(mid, last);
      var t := InsertAll(s, rows);
      forall k | 0 <= k < |rows|
        ensures HasDate(DayOf(rows[k].eventTime)) && rows[k] in RowsOn(t, DayOf(rows[k].eventTime))
      {
        var day := DayOf(rows[k].eventTime);
        CoveredByName(s, day);
        if k < |rows| - 1 {
          assert rows[k] == init[k];
          assert RowsOn(mid, day) <= RowsOn(t, day);
        }
      }
    }
  }

  /**
   A batch rebased to an instant of the day on which maintenance ran, and ending within its lookahead,
   lands in dated partitions, and every row survives any run whose drops are dated no later than
   `retain` days after that day.
   */
  lemma {:induction false} RebasedBatchIsKept(
    plan: Plan, before: Store, s: Store, today: int, now: int, times: seq<int>, rows: seq<Row>, steps: seq<Step>)
    requires Ok(before) && plan.retain >= 0 && plan.back >= 0 && DatesExist(today - plan.back, today + plan.ahead)
    requires Maintain(before, today, plan.back, plan.ahead, plan.retain) == Some(s)
    requires DayOf(now) == today && |rows| == |times| && rows != []
    requires Rebased(times, RowTimes(rows), now)
    requires forall k :: 0 <= k < |rows| ==> DayOf(rows[k].eventTime) <= today + plan.ahead
    requires AllDefined(plan, steps)
    requires forall k :: 0 <= k < |steps| && (steps[k].DropRun? || steps[k].MaintainRun?) ==>
                           steps[k].today <= today + plan.retain
    ensures InsertAll(s, rows).rest == s.rest
    ensures var end := DoAll(plan, Site(InsertAll(s, rows), Dates(today, today)), steps).store;
            forall k :: 0 <= k < |rows| ==>
                          && HasDate(DayOf(rows[k].eventTime))
                          && rows[k] in RowsOn(end, DayOf(rows[k].eventTime))
  {
    hide NameOf, ReadName;
    RebasedDaysAreCovered(plan, before, s, today, now, rows);
    CoveredRowsLand(s, rows);
    var start := Site(InsertAll(s, rows), Dates(today, today));
    forall k | 0 <= k < |rows|
      ensures HasDate(DayOf(rows[k].eventTime))
      ensures rows[k] in RowsOn(DoAll(plan, start, steps).store, DayOf(rows[k].eventTime))
    {
      RowSurvives(plan, start, steps, rows[k]);
    }
  }

  /** After maintenance every day of the lookahead has a partition. */
  lemma {:induction false} LookaheadIsCovered(plan: Plan, before: Store, s: Store, today: int, d: int)
    requires Ok(before) && plan.retain >= 0 && plan.back >= 0 && DatesExist(today - plan.back, today + plan.ahead)
    requires Maintain(before, today, plan.back, plan.ahead, plan.retain) == Some(s)
    ensures Ok(s) && (today <= d <= today + plan.ahead ==> d in Days(s))
  {
    hide NameOf, ReadName, Maintain, Ok;
    MaintainDoes(before, today, plan.back, plan.ahead, plan.retain);
    assert d in DayRange(today - plan.back, today + plan.ahead) <==> InRange(d, today - plan.back, today + plan.ahead);
  }

  lemma {:induction false} RebasedDaysAreCovered(plan: Plan, before: Store, s: Store, today: int, now: int, rows: seq<Row>)
    requires Ok(before) && plan.retain >= 0 && plan.back >= 0 && DatesExist(today - plan.back, today + plan.ahead)
    requires Maintain(before, today, plan.back, plan.ahead, plan.retain) == Some(s)
    requires DayOf(now) == today && rows != [] && IsEarliest(now, RowTimes(rows))
    requires forall k :: 0 <= k < |rows| ==> DayOf(rows[k].eventTime) <= today + plan.ahead
    ensures Ok(s)
    ensures forall k :: 0 <= k < |rows| ==> today <= DayOf(rows[k].eventTime) && DayOf(rows[k].eventTime) in Days(s)
  {
    hide NameOf, ReadName, Maintain, Ok, Days;
    LookaheadIsCovered(plan, before, s, today, today);
    forall k | 0 <= k < |rows|
      ensures today <= DayOf(rows[k].eventTime) && DayOf(rows[k].eventTime) in Days(s)
    {
      assert now <= RowTimes(rows)[k];
      DayOfIsMonotone(now, rows[k].eventTime);
      LookaheadIsCovered(plan, before, s, today, DayOf(rows[k].eventTime));
    }
  }

  lemma {:induction false} DayOfIsMonotone(a: int, b: int)
    requires a <= b
    ensures DayOf(a) <= DayOf(b)
  {
  }
}
