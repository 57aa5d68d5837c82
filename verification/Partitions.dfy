/** The partition functions as code over the catalog, and what maintenance guarantees over its runs. */
module Partitions {
  import opened Text
  import opened Calendar
  import opened PartitionModel

  class EventStore {
    var parts: map<string, Partition>
    var rest: seq<Row>

    function State(): Store
      reads this
    {
      Store(parts, rest)
    }

    /** Idempotent: the policy is created only where it is missing. */
    method ApplyTenantRls(name: string)
      requires name in parts
      modifies this`parts
      ensures parts == old(parts)[name := old(parts)[name].(security := SECURED)]
      ensures parts[name].security == Security(true, true, true)
    {
      var p := parts[name];
      p := p.(security := p.security.(enabled := true));
      p := p.(security := p.security.(forced := true));
      if !p.security.policy {
        p := p.(security := p.security.(policy := true));
      }
      parts := parts[name := p];
    }

    /** The result is false when an error has undone the call. */
    method CreateDailyPartitions(today: int, back: int, ahead: int) returns (done: bool)
      requires DatesExist(today - back, today + ahead)
      modifies this`parts
      ensures done <==> Create(old(State()), today, back, ahead).Some?
      ensures Some(State()) == if done then Create(old(State()), today, back, ahead) else Some(old(State()))
    {
      hide NameOf, ReadName;
      ghost var first := today - back;
      var saved := parts;
      var day := today - back;
      while day <= today + ahead
        invariant first == day || first < day <= today + ahead + 1
        invariant CreateRange(old(State()), first, day - 1) == Some(State())
        decreases today + ahead - day
      {
        var name := NameOf(day);
        ghost var before := State();
        if name !in parts {
          if Covered(State(), day) || RestHasDay(State(), day) {
            assert CreateOne(State(), day).None?;
            CreateRangeStops(old(State()), first, day, today + ahead);
            parts := saved;
            return false;
          }
          parts := parts[name := Partition(day, [], Security(false, false, false))];
        }
        ApplyTenantRls(name);
        assert CreateOne(before, day).value.parts == parts;
        day := day + 1;
      }
      return true;
    }

    /** The partitions are visited in any order. */
    method DropOldPartitions(today: int, retain: int) returns (done: bool)
      modifies this`parts
      ensures done <==> Drop(old(State()), today, retain).Some?
      ensures Some(State()) == if done then Drop(old(State()), today, retain) else Some(old(State()))
    {
      hide NameOf, ReadName;
      var saved := parts;
      var todo := parts.Keys;
      while todo != {}
        invariant todo <= saved.Keys
        invariant parts == map name | name in saved && (name in todo || !IsOld(name, today - retain)) :: saved[name]
        invariant forall name :: name in saved && name !in todo ==> !ReadName(name).BadDate?
        decreases |todo|
      {
        var name :| name in todo;
        todo := todo - {name};
        var read := ReadName(name);
        if read.BadDate? {
          parts := saved;
          return false;
        }
        if read.Named? && read.day < today - retain {
          parts := parts - {name};
        }
      }
      assert !SomeBadDate(old(State()));
      assert parts == Drop(old(State()), today, retain).value.parts;
      return true;
    }

    /** The row, and nothing else, is added: to the partition of its day, or to the default if there is none. */
    method InsertEvent(row: Row)
      modifies this
      ensures State() == Insert(old(State()), row)
      ensures Ok(old(State())) ==>
                var day := DayOf(row.eventTime);
                if day in Days(old(State())) then
                  HasDate(day) && rest == old(rest) && RowsOn(State(), day) == RowsOn(old(State()), day) + [row]
                else parts == old(parts) && rest == old(rest) + [row]
    {
      if Ok(State()) {
        InsertDoes(State(), row);
      }
      var day := DayOf(row.eventTime);
      if Covered(State(), day) {
        parts := map name | name in parts ::
          if parts[name].day == day then parts[name].(rows := parts[name].rows + [row]) else parts[name];
      } else {
        rest := rest + [row];
      }
    }

    /** `make partitions`: one transaction, so a failing creation leaves even old partitions in place. */
    method MakePartitions(today: int, back: int, ahead: int, retain: int) returns (done: bool)
      requires DatesExist(today - back, today + ahead)
      modifies this`parts
      ensures done <==> Maintain(old(State()), today, back, ahead, retain).Some?
      ensures Some(State()) == if done then Maintain(old(State()), today, back, ahead, retain) else Some(old(State()))
    {
      var saved := parts;
      done := CreateDailyPartitions(today, back, ahead);
      if done {
        done := DropOldPartitions(today, retain);
        if !done {
          parts := saved;
        }
      }
    }
  }

  /** An error on one day is an error of the whole range. */
  lemma {:induction false} CreateRangeStops(s: Store, first: int, day: int, last: int)
    requires DatesExist(first, last) && first <= day <= last
    requires CreateRange(s, first, day - 1).Some? && CreateOne(CreateRange(s, first, day - 1).value, day).None?
    ensures CreateRange(s, first, last).None?
    decreases last
  {
    hide NameOf, ReadName;
    if day < last {
      CreateRangeStops(s, first, day, last - 1);
    }
  }

  // ---- Runs ----

  /** The arguments that a deployment passes every time. */
  datatype Plan = Plan(back: int, ahead: int, retain: int)

  datatype Step = InsertRow(row: Row) | CreateRun(today: int) | DropRun(today: int) | MaintainRun(today: int)

  /** The dates of the last creation and of the last drop that succeeded. */
  datatype Dates = Dates(created: int, dropped: int)

  datatype Site = Site(store: Store, dates: Dates)

  function Later(c: Dates, step: Step): Dates {
    match step
    case InsertRow(_) => c
    case CreateRun(today) => c.(created := today)
    case DropRun(today) => c.(dropped := today)
    case MaintainRun(today) => Dates(today, today)
  }

  predicate Defined(plan: Plan, step: Step) {
    step.CreateRun? || step.MaintainRun? ==> DatesExist(step.today - plan.back, step.today + plan.ahead)
  }

  predicate AllDefined(plan: Plan, steps: seq<Step>) {
    forall k :: 0 <= k < |steps| ==> Defined(plan, steps[k])
  }

  function Perform(plan: Plan, s: Store, step: Step): Option<Store>
    requires Defined(plan, step)
  {
    match step
    case InsertRow(row) => Some(Insert(s, row))
    case CreateRun(today) => Create(s, today, plan.back, plan.ahead)
    case DropRun(today) => Drop(s, today, plan.retain)
    case MaintainRun(today) => Maintain(s, today, plan.back, plan.ahead, plan.retain)
  }

  /** A step that fails is undone. */
  function Do(plan: Plan, site: Site, step: Step): Site
    requires Defined(plan, step)
  {
    var r := Perform(plan, site.store, step);
    if r.None? then site else Site(r.value, Later(site.dates, step))
  }

  function DoAll(plan: Plan, site: Site, steps: seq<Step>): Site
    requires AllDefined(plan, steps)
    decreases |steps|
  {
    if steps == [] then site else DoAll(plan, Do(plan, site, steps[0]), steps[1..])
  }

  predicate AllSucceed(plan: Plan, site: Site, steps: seq<Step>)
    requires AllDefined(plan, steps)
    decreases |steps|
  {
    steps != [] ==>
      Perform(plan, site.store, steps[0]).Some? && AllSucceed(plan, Do(plan, site, steps[0]), steps[1..])
  }

  /** Maintenance is not dated before an earlier one that succeeded. */
  predicate InOrder(c: Dates, step: Step) {
    step.InsertRow? || (c.created <= step.today && c.dropped <= step.today)
  }

  predicate AllInOrder(plan: Plan, site: Site, steps: seq<Step>)
    requires AllDefined(plan, steps)
    decreases |steps|
  {
    steps != [] ==> InOrder(site.dates, steps[0]) && AllInOrder(plan, Do(plan, site, steps[0]), steps[1..])
  }

  /** The day of a row that arrives for a day beyond the lookahead of the last creation. */
  function EarlyDay(plan: Plan, c: Dates, step: Step): set<int> {
    if step.InsertRow? && DayOf(step.row.eventTime) > c.created + plan.ahead then {DayOf(step.row.eventTime)} else {}
  }

  /** The days of all rows that arrived too early. */
  function EarlyDays(plan: Plan, site: Site, steps: seq<Step>): set<int>
    requires AllDefined(plan, steps)
    decreases |steps|
  {
    if steps == [] then {}
    else EarlyDay(plan, site.dates, steps[0]) + EarlyDays(plan, Do(plan, site, steps[0]), steps[1..])
  }

  /** Every day from here to the last lookahead has a partition. */
  function Floor(plan: Plan, c: Dates): int {
    if c.created - plan.back < c.dropped - plan.retain then c.dropped - plan.retain else c.created - plan.back
  }

  /** From the floor on, exactly the days of the lookahead are covered, and the default holds exactly the early days. */
  predicate Tracked(plan: Plan, s: Store, c: Dates, early: set<int>) {
    && Ok(s)
    && (forall d :: Floor(plan, c) <= d <= c.created + plan.ahead ==> d in Days(s))
    && (forall d :: d in Days(s) ==> d <= c.created + plan.ahead)
    && (forall k :: 0 <= k < |s.rest| && DayOf(s.rest[k].eventTime) >= Floor(plan, c) ==>
          DayOf(s.rest[k].eventTime) in early)
    && (forall d :: d in early ==> RestHasDay(s, d))
  }

  /** A creation from the floor on fails exactly if its range includes an early day. */
  lemma {:induction false} TrackedCreate(plan: Plan, s: Store, c: Dates, early: set<int>, today: int)
    requires plan.back <= plan.retain && Tracked(plan, s, c, early) && c.created <= today && c.dropped <= today
    requires DatesExist(today - plan.back, today + plan.ahead)
    ensures Create(s, today, plan.back, plan.ahead).None? <==>
              exists d :: d in early && InRange(d, today - plan.back, today + plan.ahead)
    ensures Create(s, today, plan.back, plan.ahead).Some? ==>
              Tracked(plan, Create(s, today, plan.back, plan.ahead).value, c.(created := today), early)
  {
    hide NameOf, ReadName, Ok;
    var first, last := today - plan.back, today + plan.ahead;
    CreateRangeDoes(s, first, last);
    assert Floor(plan, c) <= first;
    if Create(s, today, plan.back, plan.ahead).None? {
      var d :| InRange(d, first, last) && RestHasDay(s, d);
      assert d in early;
    } else {
      var t := Create(s, today, plan.back, plan.ahead).value;
      forall d | first <= d <= last
        ensures d in Days(t)
      {
        assert InRange(d, first, last) && d in DayRange(first, last);
      }
      assert forall d :: RestHasDay(t, d) <==> RestHasDay(s, d);
    }
  }

  lemma {:induction false} TrackedDrop(plan: Plan, s: Store, c: Dates, early: set<int>, today: int)
    requires Tracked(plan, s, c, early) && c.dropped <= today
    ensures Drop(s, today, plan.retain).Some?
    ensures Tracked(plan, Drop(s, today, plan.retain).value, c.(dropped := today), early)
  {
    hide NameOf, ReadName, Ok;
    DropDoes(s, today, plan.retain);
    assert forall d :: RestHasDay(Drop(s, today, plan.retain).value, d) <==> RestHasDay(s, d);
  }

  lemma {:induction false} TrackedInsert(plan: Plan, s: Store, c: Dates, early: set<int>, row: Row)
    requires Tracked(plan, s, c, early)
    ensures Tracked(plan, Insert(s, row), c, early + EarlyDay(plan, c, InsertRow(row)))
  {
    hide NameOf, ReadName, Ok;
    InsertDoes(s, row);
    var t := Insert(s, row);
    assert forall k :: 0 <= k < |s.rest| ==> t.rest[k] == s.rest[k];
    if t.rest != s.rest {
      assert t.rest[|s.rest|] == row;
    }
    forall d | RestHasDay(s, d)
      ensures RestHasDay(t, d)
    {
      var k :| 0 <= k < |s.rest| && DayOf(s.rest[k].eventTime) == d;
      assert DayOf(t.rest[k].eventTime) == d;
    }
  }

  lemma {:induction false} TrackedStep(plan: Plan, site: Site, early: set<int>, step: Step)
    requires plan.back <= plan.retain && Tracked(plan, site.store, site.dates, early)
    requires InOrder(site.dates, step) && Defined(plan, step)
    ensures var after := Do(plan, site, step);
            Tracked(plan, after.store, after.dates, early + EarlyDay(plan, site.dates, step))
    ensures Perform(plan, site.store, step).None? <==>
              && (step.CreateRun? || step.MaintainRun?)
              && exists d :: d in early && InRange(d, step.today - plan.back, step.today + plan.ahead)
  {
    hide NameOf, ReadName, Tracked, Create, Drop, Insert;
    var (s, c) := (site.store, site.dates);
    assert early + {} == early;
    match step
    case InsertRow(row) => TrackedInsert(plan, s, c, early, row);
    case CreateRun(today) => TrackedCreate(plan, s, c, early, today);
    case DropRun(today) => TrackedDrop(plan, s, c, early, today);
    case MaintainRun(today) =>
      TrackedCreate(plan, s, c, early, today);
      if Create(s, today, plan.back, plan.ahead).Some? {
        TrackedDrop(plan, Create(s, today, plan.back, plan.ahead).value, c.(created := today), early, today);
      }
  }

  lemma {:induction false} TrackedRun(plan: Plan, site: Site, early: set<int>, steps: seq<Step>)
    requires plan.back <= plan.retain && Tracked(plan, site.store, site.dates, early)
    requires AllDefined(plan, steps) && AllInOrder(plan, site, steps)
    ensures var end := DoAll(plan, site, steps);
            Tracked(plan, end.store, end.dates, early + EarlyDays(plan, site, steps))
    ensures early + EarlyDays(plan, site, steps) == {} ==> AllSucceed(plan, site, steps)
    decreases |steps|
  {
    hide Tracked, Do, Perform, EarlyDay;
    if steps == [] {
      assert early + {} == early;
    } else {
      TrackedStep(plan, site, early, steps[0]);
      var head := EarlyDay(plan, site.dates, steps[0]);
      var tail := EarlyDays(plan, Do(plan, site, steps[0]), steps[1..]);
      TrackedRun(plan, Do(plan, site, steps[0]), early + head, steps[1..]);
      assert early + (head + tail) == (early + head) + tail;
    }
  }

  const EMPTY := Store(map[], [])

  /** An empty store after the first creation, which cannot fail. */
  function Seeded(plan: Plan, today: int): Site
    requires DatesExist(today - plan.back, today + plan.ahead)
  {
    Do(plan, Site(EMPTY, Dates(today, today)), CreateRun(today))
  }

  lemma {:induction false} SeedingIsTracked(plan: Plan, today: int)
    requires DatesExist(today - plan.back, today + plan.ahead)
    ensures Create(EMPTY, today, plan.back, plan.ahead) == Some(Seeded(plan, today).store)
    ensures Seeded(plan, today).dates == Dates(today, today)
    ensures Ok(EMPTY) && Ok(Seeded(plan, today).store) && Seeded(plan, today).store.rest == []
    ensures Tracked(plan, Seeded(plan, today).store, Dates(today, today), {})
  {
    hide NameOf, ReadName;
    var first, last := today - plan.back, today + plan.ahead;
    CreateRangeDoes(EMPTY, first, last);
    var t := Create(EMPTY, today, plan.back, plan.ahead).value;
    forall d | first <= d <= last
      ensures d in Days(t)
    {
      assert InRange(d, first, last) && d in DayRange(first, last);
    }
  }

  /**
   When maintenance fails. After seeding an empty store, whatever rows arrive and whichever steps have
   failed on the way: a creation fails if and only if its range includes the day of a row that
   arrived beyond the lookahead of the creation before it. Nothing else ever fails.
   */
  lemma {:induction false} FailsExactly(plan: Plan, seed: int, steps: seq<Step>, last: Step)
    requires plan.back <= plan.retain && DatesExist(seed - plan.back, seed + plan.ahead)
    requires AllDefined(plan, steps) && AllInOrder(plan, Seeded(plan, seed), steps)
    requires Defined(plan, last) && InOrder(DoAll(plan, Seeded(plan, seed), steps).dates, last)
    ensures Perform(plan, DoAll(plan, Seeded(plan, seed), steps).store, last).None? <==>
              && (last.CreateRun? || last.MaintainRun?)
              && exists d :: d in EarlyDays(plan, Seeded(plan, seed), steps)
                             && InRange(d, last.today - plan.back, last.today + plan.ahead)
  {
    hide Tracked, Do, Perform, EarlyDay, Seeded;
    SeedingIsTracked(plan, seed);
    TrackedRun(plan, Seeded(plan, seed), {}, steps);
    var early := EarlyDays(plan, Seeded(plan, seed), steps);
    assert {} + early == early;
    TrackedStep(plan, DoAll(plan, Seeded(plan, seed), steps), early, last);
  }

  /**
   Maintenance never gets stuck: after seeding, no step of a run without early rows ever fails,
   provided partitions are kept at least as long as they are created back.
   */
  lemma {:induction false} NeverStuck(plan: Plan, seed: int, steps: seq<Step>)
    requires plan.back <= plan.retain && DatesExist(seed - plan.back, seed + plan.ahead)
    requires AllDefined(plan, steps) && AllInOrder(plan, Seeded(plan, seed), steps)
    requires EarlyDays(plan, Seeded(plan, seed), steps) == {}
    ensures AllSucceed(plan, Seeded(plan, seed), steps)
  {
    hide Tracked, Seeded;
    SeedingIsTracked(plan, seed);
    TrackedRun(plan, Seeded(plan, seed), {}, steps);
  }

  /** The run that gets stuck when partitions are dropped sooner than they are created back. */
  function StuckRun(plan: Plan, today: int): seq<Step> {
    [DropRun(today), InsertRow(Row(0, "tenant", (today - plan.back) * MICROS_PER_DAY)), CreateRun(today)]
  }

  /** The condition is needed: with a shorter retention a run without early rows fails, on any date. */
  lemma {:induction false} ShorterRetentionGetsStuck(plan: Plan, seed: int)
    requires plan.back > plan.retain && 0 <= plan.back + plan.ahead && DatesExist(seed - plan.back, seed + plan.ahead)
    ensures AllDefined(plan, StuckRun(plan, seed)) && AllInOrder(plan, Seeded(plan, seed), StuckRun(plan, seed))
    ensures EarlyDays(plan, Seeded(plan, seed), StuckRun(plan, seed)) == {}
    ensures !AllSucceed(plan, Seeded(plan, seed), StuckRun(plan, seed))
  {
    hide NameOf, ReadName, Do, Perform, Seeded, Ok;
    SeedingIsTracked(plan, seed);
    var start, steps := Seeded(plan, seed), StuckRun(plan, seed);
    var dropped := StuckDrop(plan, start, seed);
    var full := StuckInsert(plan, dropped, seed);
    RunOfThree(plan, start, dropped, full, steps);
  }

  lemma {:induction false} StuckDrop(plan: Plan, start: Site, seed: int) returns (dropped: Site)
    requires Ok(start.store) && plan.back > plan.retain && start.dates == Dates(seed, seed)
    ensures dropped == Do(plan, start, DropRun(seed)) && dropped.dates == start.dates
    ensures Ok(dropped.store) && seed - plan.back !in Days(dropped.store)
  {
    hide NameOf, ReadName, Ok;
    DropDoes(start.store, seed, plan.retain);
    dropped := Do(plan, start, DropRun(seed));
  }

  lemma {:induction false} StuckInsert(plan: Plan, dropped: Site, seed: int) returns (full: Site)
    requires Ok(dropped.store) && seed - plan.back !in Days(dropped.store) && dropped.dates == Dates(seed, seed)
    requires 0 <= plan.back + plan.ahead && DatesExist(seed - plan.back, seed + plan.ahead)
    ensures full == Do(plan, dropped, StuckRun(plan, seed)[1]) && full.dates == dropped.dates
    ensures EarlyDay(plan, dropped.dates, StuckRun(plan, seed)[1]) == {}
    ensures Perform(plan, full.store, CreateRun(seed)).None?
  {
    hide NameOf, ReadName, Ok;
    var first, last := seed - plan.back, seed + plan.ahead;
    var row := StuckRun(plan, seed)[1].row;
    assert DayOf(row.eventTime) == first;
    InsertDoes(dropped.store, row);
    full := Do(plan, dropped, StuckRun(plan, seed)[1]);
    assert full.store.rest[|dropped.store.rest|] == row;
    CreateRangeDoes(full.store, first, last);
    assert InRange(first, first, last) && RestHasDay(full.store, first);
  }

  lemma {:induction false} RunOfThree(plan: Plan, s: Site, t: Site, u: Site, steps: seq<Step>)
    requires |steps| == 3 && AllDefined(plan, steps)
    requires t == Do(plan, s, steps[0]) && u == Do(plan, t, steps[1])
    requires InOrder(s.dates, steps[0]) && InOrder(t.dates, steps[1]) && InOrder(u.dates, steps[2])
    requires EarlyDay(plan, s.dates, steps[0]) == EarlyDay(plan, t.dates, steps[1]) == {}
    requires EarlyDay(plan, u.dates, steps[2]) == {}
    requires Perform(plan, u.store, steps[2]).None?
    ensures AllInOrder(plan, s, steps) && EarlyDays(plan, s, steps) == {} && !AllSucceed(plan, s, steps)
  {
    hide Do, Perform, EarlyDay, InOrder;
    var two, one := steps[1..], steps[1..][1..];
    assert two[0] == steps[1] && one[0] == steps[2] && one[1..] == [];
    assert AllInOrder(plan, u, one) && EarlyDays(plan, u, one) == {} && !AllSucceed(plan, u, one);
    assert AllInOrder(plan, t, two) && EarlyDays(plan, t, two) == {} && !AllSucceed(plan, t, two);
  }

  /** A step keeps the store in order, and never takes a row out of the default partition. */
  lemma {:induction false} StepKeepsRest(plan: Plan, site: Site, step: Step)
    requires Ok(site.store) && Defined(plan, step)
    ensures var t := Do(plan, site, step).store; Ok(t) && forall row :: row in site.store.rest ==> row in t.rest
  {
    hide NameOf, ReadName, Ok;
    var s := site.store;
    if Perform(plan, s, step).Some? {
      match step
      case InsertRow(r) => InsertDoes(s, r);
      case CreateRun(today) => CreateRangeDoes(s, today - plan.back, today + plan.ahead);
      case DropRun(today) => DropDoes(s, today, plan.retain);
      case MaintainRun(today) => MaintainDoes(s, today, plan.back, plan.ahead, plan.retain);
    }
  }

  lemma {:induction false} OkMeansSecured(s: Store)
    requires Ok(s)
    ensures forall a :: a in s.parts ==> s.parts[a].security == Security(true, true, true)
  {
    hide NameOf;
    assert forall a :: a in s.parts ==> PartitionOk(a, s.parts[a]);
  }

  /**
   In every run, failing steps included, the ranges of the partitions stay disjoint, names and rows stay
   where they belong, every partition stays secured, and the default partition never loses a row.
   */
  lemma {:induction false} RunKeepsOk(plan: Plan, site: Site, steps: seq<Step>)
    requires Ok(site.store) && AllDefined(plan, steps)
    ensures var t := DoAll(plan, site, steps).store;
            && Ok(t)
            && (forall a, b :: a in t.parts && b in t.parts && a != b ==> t.parts[a].day != t.parts[b].day)
            && (forall a :: a in t.parts ==> t.parts[a].security == Security(true, true, true))
            && (forall row :: row in site.store.rest ==> row in t.rest)
    decreases |steps|
  {
    hide NameOf, ReadName, Ok, Do;
    if steps == [] {
      var t := site.store;
      OkMeansSecured(t);
      forall a, b | a in t.parts && b in t.parts && a != b
        ensures t.parts[a].day != t.parts[b].day
      {
        RangesAreDisjoint(t, a, b);
      }
    } else {
      StepKeepsRest(plan, site, steps[0]);
      RunKeepsOk(plan, Do(plan, site, steps[0]), steps[1..]);
    }
  }

  /** Rows in the default partition stay there, and block every creation that includes their day, for ever. */
  lemma {:induction false} StuckForever(plan: Plan, site: Site, steps: seq<Step>, row: Row, today: int)
    requires Ok(site.store) && row in site.store.rest && AllDefined(plan, steps)
    requires DatesExist(today - plan.back, today + plan.ahead)
    ensures var t := DoAll(plan, site, steps).store;
            && row in t.rest
            && (today - plan.back <= DayOf(row.eventTime) <= today + plan.ahead ==>
                  && Create(t, today, plan.back, plan.ahead).None?
                  && Maintain(t, today, plan.back, plan.ahead, plan.retain).None?)
  {
    hide NameOf, ReadName, Ok, DoAll;
    RunKeepsOk(plan, site, steps);
    var t := DoAll(plan, site, steps).store;
    CreateRangeDoes(t, today - plan.back, today + plan.ahead);
    var d := DayOf(row.eventTime);
    assert RestHasDay(t, d);
    assert InRange(d, today - plan.back, today + plan.ahead) <==> today - plan.back <= d <= today + plan.ahead;
  }

  /** A step neither drops nor changes a stored row, unless it drops the row's day as too old. */
  lemma {:induction false} StepKeepsRow(plan: Plan, site: Site, step: Step, row: Row)
    requires Ok(site.store) && Defined(plan, step)
    requires HasDate(DayOf(row.eventTime)) && row in RowsOn(site.store, DayOf(row.eventTime))
    requires step.DropRun? || step.MaintainRun? ==> step.today - plan.retain <= DayOf(row.eventTime)
    ensures var t := Do(plan, site, step).store; Ok(t) && row in RowsOn(t, DayOf(row.eventTime))
  {
    hide NameOf, ReadName;
    var s := site.store;
    CoveredByName(s, DayOf(row.eventTime));
    if Perform(plan, s, step).Some? {
      match step
      case InsertRow(r) => InsertDoes(s, r);
      case CreateRun(today) => CreateRangeDoes(s, today - plan.back, today + plan.ahead);
      case DropRun(today) => DropDoes(s, today, plan.retain);
      case MaintainRun(today) => MaintainDoes(s, today, plan.back, plan.ahead, plan.retain);
    }
  }

  /** A row in a dated partition survives every run whose drops are dated at most `retain` days after it. */
  lemma {:induction false} RowSurvives(plan: Plan, site: Site, steps: seq<Step>, row: Row)
    requires Ok(site.store) && AllDefined(plan, steps)
    requires HasDate(DayOf(row.eventTime)) && row in RowsOn(site.store, DayOf(row.eventTime))
    requires forall k :: 0 <= k < |steps| && (steps[k].DropRun? || steps[k].MaintainRun?) ==>
                           steps[k].today <= DayOf(row.eventTime) + plan.retain
    ensures row in RowsOn(DoAll(plan, site, steps).store, DayOf(row.eventTime))
    decreases |steps|
  {
    hide NameOf, ReadName, Do, Ok;
    if steps != [] {
      StepKeepsRow(plan, site, steps[0], row);
      RowSurvives(plan, Do(plan, site, steps[0]), steps[1..], row);
    }
  }
}
