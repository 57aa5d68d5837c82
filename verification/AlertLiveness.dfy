/** No burst is missed, and a lasting burst is reported again and again: bounds on when alerts come. */
module AlertLiveness {
  import opened Text
  import opened Calendar
  import opened AlertModel
  import opened AlertRuns
  import opened AlertSpacing

  /** Step `n` evaluates the tenant and commits. */
  predicate Commits(steps: seq<Step>, tenant: string, n: nat) {
    n < |steps| && steps[n].Eval? && steps[n].tenant == tenant && steps[n].env.fault.None?
  }

  /** From `start` on the clock does not go back. */
  predicate Monotone(states: seq<State>, start: nat) {
    forall i, j :: start <= i <= j < |states| ==> states[i].clock <= states[j].clock
  }

  /** From `start` on each committed evaluation is followed by one at most `gap` later, as long as the run lasts. */
  ghost predicate EvaluatedEvery(states: seq<State>, steps: seq<Step>, tenant: string, start: nat, gap: int)
    requires |states| == |steps| + 1
  {
    forall n :: start <= n && Commits(steps, tenant, n) && states[n].clock + gap <= states[|steps|].clock ==>
                  exists m :: n < m && Commits(steps, tenant, m) && states[m].clock <= states[n].clock + gap
  }

  /** From `start` on the tenant has this enabled rule, unchanged. */
  predicate RuleSteady(states: seq<State>, rule: Rule, start: nat) {
    forall n :: start <= n < |states| ==> SelectRule(states[n].db.rules, rule.tenant) == Some(rule)
  }

  /** The last committed evaluation that satisfies the bound, at most at `n`. */
  function LastCommit(steps: seq<Step>, tenant: string, start: nat, n: nat): (r: nat)
    requires start <= n && Commits(steps, tenant, start)
    ensures start <= r <= n && Commits(steps, tenant, r)
    ensures forall k :: r < k <= n ==> !Commits(steps, tenant, k)
  {
    if Commits(steps, tenant, n) then n else LastCommit(steps, tenant, start, n - 1)
  }

  // ---- Stored rows stay and are found ----

  function Arrivals(steps: seq<Step>, first: nat, end: nat): seq<Event>
    requires first <= end <= |steps|
    decreases end
  {
    if first == end then []
    else Arrivals(steps, first, end - 1) + if steps[end - 1].Store? then [steps[end - 1].event] else []
  }

  /** No step from `first` on drops the day of one of these rows. */
  predicate Spared(steps: seq<Step>, first: nat, rows: seq<Event>) {
    forall k, i :: first <= k < |steps| && steps[k].DropDay? && 0 <= i < |rows| ==>
                     DayOf(rows[i].eventTime) != steps[k].day
  }

  lemma {:induction false} DropKeepsRows(events: seq<Event>, day: int, rows: seq<Event>)
    requires multiset(rows) <= multiset(events) && forall i :: 0 <= i < |rows| ==> DayOf(rows[i].eventTime) != day
    ensures multiset(rows) <= multiset(NotOfDay(events, day))
  {
    forall e | e in multiset(rows)
      ensures multiset(rows)[e] <= multiset(NotOfDay(events, day))[e]
    {
      assert e in rows;
      DropDayDoes(events, day, e);
    }
  }

  lemma {:induction false} StepKeepsRows(s: State, step: Step, rows: seq<Event>)
    requires Enabled(s, step) && multiset(rows) <= multiset(s.db.events)
    requires step.DropDay? ==> forall i :: 0 <= i < |rows| ==> DayOf(rows[i].eventTime) != step.day
    ensures multiset(rows) <= multiset(Apply(s, step).db.events)
  {
    if step.DropDay? {
      DropKeepsRows(s.db.events, step.day, rows);
    }
  }

  lemma {:induction false} StoreAddsRow(s: State, step: Step, rows: seq<Event>)
    requires Enabled(s, step) && step.Store? && multiset(rows) <= multiset(s.db.events)
    ensures multiset(rows + [step.event]) <= multiset(Apply(s, step).db.events)
  {
    assert multiset(rows + [step.event]) == multiset(rows) + multiset{step.event};
    assert multiset(s.db.events + [step.event]) == multiset(s.db.events) + multiset{step.event};
  }

  /** The rows stored since `first` are all still there at `end`, unless their day was dropped. */
  lemma {:induction false} ArrivalsAreStored(states: seq<State>, steps: seq<Step>, first: nat, end: nat)
    requires Run(states, steps) && first <= end <= |steps| && Spared(steps, first, Arrivals(steps, first, end))
    ensures multiset(Arrivals(steps, first, end)) <= multiset(states[end].db.events)
    decreases end
  {
    hide Apply, Enabled;
    if first < end {
      var before := Arrivals(steps, first, end - 1);
      assert forall i :: 0 <= i < |before| ==> before[i] == Arrivals(steps, first, end)[i];
      ArrivalsAreStored(states, steps, first, end - 1);
      assert StepAt(states, steps, end - 1);
      if steps[end - 1].Store? {
        StoreAddsRow(states[end - 1], steps[end - 1], before);
      } else {
        StepKeepsRows(states[end - 1], steps[end - 1], before);
        assert before + [] == before;
      }
    }
  }

  lemma {:induction false} RowsStay(states: seq<State>, steps: seq<Step>, n: nat, end: nat, rows: seq<Event>)
    requires Run(states, steps) && n <= end <= |steps| && Spared(steps, n, rows)
    requires multiset(rows) <= multiset(states[n].db.events)
    ensures multiset(rows) <= multiset(states[end].db.events)
    decreases end
  {
    if n < end {
      RowsStay(states, steps, n, end - 1, rows);
      assert StepAt(states, steps, end - 1);
      StepKeepsRows(states[end - 1], steps[end - 1], rows);
    }
  }

  /** A query whose window reaches at least as far back finds at least as many rows. */
  lemma {:induction false} WiderWindow(events: seq<Event>, q: Query, wide: Query, ip: Ip)
    requires q.tenant == wide.tenant && wide.now - Seconds(wide.window) <= q.now - Seconds(q.window)
    ensures |Times(events, q, ip)| <= |Times(events, wide, ip)|
  {
    if events != [] {
      WiderWindow(events[..|events| - 1], q, wide, ip);
    }
  }

  /** The query sees the burst among everything else that is stored. */
  lemma {:induction false} BurstIsDetected(events: seq<Event>, burst: seq<Event>, rule: Rule, since: int, now: int, ip: Ip)
    requires rule.threshold > 0 && rule.threshold <= |Times(burst, Query(rule.tenant, since, 0), ip)|
    requires multiset(burst) <= multiset(events) && now - Seconds(rule.window) <= since
    ensures ip in Detect(events, Query(rule.tenant, now, rule.window), rule.threshold)
  {
    var q := Query(rule.tenant, now, rule.window);
    WiderWindow(burst, Query(rule.tenant, since, 0), q, ip);
    TimesOfSubBag(burst, events, q, ip);
    GroupsAreGroupBy(events, q, ip);
  }

  // ---- What a committed evaluation leaves behind ----

  predicate KeyedAt(alerts: seq<Alert>, j: int, rule: Rule, ip: Ip) {
    0 <= j < |alerts| && Keyed(alerts[j], rule.tenant, rule.id, ip)
  }

  ghost predicate NewKeyed(before: seq<Alert>, after: seq<Alert>, rule: Rule, ip: Ip) {
    exists j :: |before| <= j && KeyedAt(after, j, rule, ip)
  }

  /** Step `n` stores an alert of the key. */
  ghost predicate Fires(states: seq<State>, rule: Rule, ip: Ip, n: nat)
    requires n + 1 < |states|
  {
    NewKeyed(states[n].db.alerts, states[n + 1].db.alerts, rule, ip)
  }

  lemma {:induction false} EligibleFires(states: seq<State>, steps: seq<Step>, rule: Rule, ip: Ip, n: nat)
    requires Run(states, steps) && Commits(steps, rule.tenant, n)
    requires SelectRule(states[n].db.rules, rule.tenant) == Some(rule)
    requires ip in Found(states[n].db, rule, states[n].clock)
    requires PastCooldown(states[n].db.alerts, rule, ip, states[n].clock)
    ensures Fires(states, rule, ip, n)
  {
    assert StepAt(states, steps, n);
    var db, env := states[n].db, steps[n].env;
    CommitAdds(db, rule.tenant, env);
    EligibleMembers(db.alerts, rule, env.order, env.now);
    var el := Eligible(db.alerts, rule, env.order, env.now);
    assert ip in el;
    var k :| 0 <= k < |el| && el[k] == ip;
    var j := |db.alerts| + k;
    assert states[n + 1].db.alerts[j] == Added(db, rule, env)[k];
    assert KeyedAt(states[n + 1].db.alerts, j, rule, ip);
  }

  /** A firing happens only in a committed evaluation of the tenant, at least a cooldown after the last one. */
  lemma {:induction false} FiringIsSpaced(states: seq<State>, steps: seq<Step>, rule: Rule, ip: Ip, n: nat)
    requires Run(states, steps) && Inv(states[0].db) && n < |steps| && Fires(states, rule, ip, n)
    requires SelectRule(states[n].db.rules, rule.tenant) == Some(rule)
    ensures Commits(steps, rule.tenant, n)
    ensures forall i :: 0 <= i < |states[n].db.alerts| && Keyed(states[n].db.alerts[i], rule.tenant, rule.id, ip) ==>
                          states[n].db.alerts[i].triggeredAt + Seconds(rule.cooldown) <= states[n].clock
  {
    RunKeepsInvariant(states, steps, 0, n);
    assert StepAt(states, steps, n);
    StepAddsAlerts(states[n], steps[n]);
    var alerts := states[n + 1].db.alerts;
    var j :| |states[n].db.alerts| <= j && KeyedAt(alerts, j, rule, ip);
    assert FiredBy(states[n], steps[n], alerts, j);
    forall i | 0 <= i < |states[n].db.alerts| && Keyed(states[n].db.alerts[i], rule.tenant, rule.id, ip)
      ensures states[n].db.alerts[i].triggeredAt + Seconds(rule.cooldown) <= states[n].clock
    {
      assert alerts[i] == states[n].db.alerts[i] && SameKey(alerts[i], alerts[j]);
    }
  }

  ghost predicate HasAlertSince(alerts: seq<Alert>, rule: Rule, ip: Ip, since: int) {
    exists k :: 0 <= k < |alerts| && Keyed(alerts[k], rule.tenant, rule.id, ip) && alerts[k].triggeredAt > since
  }

  lemma {:induction false} FiredIsCovered(states: seq<State>, steps: seq<Step>, rule: Rule, ip: Ip, n: nat)
    requires Run(states, steps) && n < |steps| && Inv(states[n].db) && Fires(states, rule, ip, n) && rule.cooldown > 0
    ensures HasAlertSince(states[n + 1].db.alerts, rule, ip, states[n].clock - Seconds(rule.cooldown))
  {
    var before, after := states[n].db.alerts, states[n + 1].db.alerts;
    assert StepAt(states, steps, n);
    StepAddsAlerts(states[n], steps[n]);
    var j :| |before| <= j && KeyedAt(after, j, rule, ip);
    assert FiredBy(states[n], steps[n], after, j);
  }

  lemma {:induction false} RecentIsCovered(alerts: seq<Alert>, rule: Rule, ip: Ip, now: int)
    requires !PastCooldown(alerts, rule, ip, now)
    ensures HasAlertSince(alerts, rule, ip, now - Seconds(rule.cooldown))
  {
    LastTriggeredIsMax(alerts, rule.tenant, rule.id, ip);
  }

  /** After a committed evaluation that detects an address, its latest alert is less than a cooldown old. */
  lemma {:induction false} DetectedIsCovered(states: seq<State>, steps: seq<Step>, rule: Rule, ip: Ip, n: nat)
    requires Run(states, steps) && Inv(states[0].db) && Commits(steps, rule.tenant, n)
    requires SelectRule(states[n].db.rules, rule.tenant) == Some(rule)
    requires ip in Found(states[n].db, rule, states[n].clock)
    ensures HasAlertSince(states[n + 1].db.alerts, rule, ip, states[n].clock - Seconds(rule.cooldown))
  {
    RunKeepsInvariant(states, steps, 0, n);
    RunKeepsInvariant(states, steps, n, n + 1);
    SelectedRule(states[n].db, rule.tenant);
    if PastCooldown(states[n].db.alerts, rule, ip, states[n].clock) {
      EligibleFires(states, steps, rule, ip, n);
      FiredIsCovered(states, steps, rule, ip, n);
    } else {
      RecentIsCovered(states[n].db.alerts, rule, ip, states[n].clock);
      var since := states[n].clock - Seconds(rule.cooldown);
      var k :| 0 <= k < |states[n].db.alerts| && Keyed(states[n].db.alerts[k], rule.tenant, rule.id, ip)
               && states[n].db.alerts[k].triggeredAt > since;
      assert states[n + 1].db.alerts[k] == states[n].db.alerts[k];
    }
  }

  /** Evaluations that are never more than `gap` apart leave one within `gap` after any step. */
  lemma {:induction false} NextEvaluation(
    states: seq<State>, steps: seq<Step>, tenant: string, start: nat, last: nat, gap: int) returns (m: nat)
    requires |states| == |steps| + 1 && start <= last < |steps| && Commits(steps, tenant, start)
    requires Monotone(states, start) && EvaluatedEvery(states, steps, tenant, start, gap)
    requires states[last].clock + gap <= states[|steps|].clock
    ensures last < m && Commits(steps, tenant, m) && states[m].clock <= states[last].clock + gap
  {
    var n := LastCommit(steps, tenant, start, last);
    assert states[n].clock <= states[last].clock;
    m :| n < m && Commits(steps, tenant, m) && states[m].clock <= states[n].clock + gap;
  }

  lemma {:induction false} BurstIsFoundAt(
    states: seq<State>, steps: seq<Step>, rule: Rule, ip: Ip, first: nat, last: nat, since: int, m: nat)
    requires Run(states, steps) && Inv(states[0].db) && first <= last < m < |steps|
    requires SelectRule(states[m].db.rules, rule.tenant) == Some(rule)
    requires Spared(steps, first, Arrivals(steps, first, last + 1))
    requires |Times(Arrivals(steps, first, last + 1), Query(rule.tenant, since, 0), ip)| >= rule.threshold
    requires states[m].clock - Seconds(rule.window) <= since
    ensures ip in Found(states[m].db, rule, states[m].clock)
  {
    hide Times, Detect;
    RunKeepsInvariant(states, steps, 0, m);
    SelectedRule(states[m].db, rule.tenant);
    var burst := Arrivals(steps, first, last + 1);
    ArrivalsAreStored(states, steps, first, last + 1);
    RowsStay(states, steps, last + 1, m, burst);
    BurstIsDetected(states[m].db.events, burst, rule, since, states[m].clock, ip);
  }

  /**
   No missed burst. At least `threshold` failed logins of one address, received since `since`, are
   stored in steps `first` to `last`, the last at most `span` after `since`. Evaluations of the tenant
   are running and never more than `gap` apart, with `span + gap` within the window; from `last` on
   the rule stays as it is, and no day of a row of the burst is dropped. Then an evaluation not later than
   `since + span + gap` detects the address, and leaves an alert less than a cooldown old.
   */
  lemma {:induction false} NoMissedBurst(
    states: seq<State>, steps: seq<Step>, rule: Rule, ip: Ip,
    start: nat, first: nat, last: nat, since: int, span: int, gap: int) returns (m: nat)
    requires Run(states, steps) && Inv(states[0].db)
    requires start <= last && first <= last < |steps| && Commits(steps, rule.tenant, start)
    requires Monotone(states, start) && EvaluatedEvery(states, steps, rule.tenant, start, gap)
    requires RuleSteady(states, rule, last)
    requires Spared(steps, first, Arrivals(steps, first, last + 1))
    requires |Times(Arrivals(steps, first, last + 1), Query(rule.tenant, since, 0), ip)| >= rule.threshold
    requires states[last].clock <= since + span && span + gap <= Seconds(rule.window)
    requires states[last].clock + gap <= states[|steps|].clock
    ensures last < m && Commits(steps, rule.tenant, m) && states[m].clock <= since + span + gap
    ensures ip in Found(states[m].db, rule, states[m].clock)
    ensures HasAlertSince(states[m + 1].db.alerts, rule, ip, states[m].clock - Seconds(rule.cooldown))
  {
    hide Inv, Found, Times, HasAlertSince, SelectRule, Arrivals, Spared;
    m := NextEvaluation(states, steps, rule.tenant, start, last, gap);
    BurstIsFoundAt(states, steps, rule, ip, first, last, since, m);
    DetectedIsCovered(states, steps, rule, ip, m);
  }

  /** Step `n` stores a failed Windows logon of the address, received since `since`. */
  predicate StoresLogonFailure(steps: seq<Step>, n: nat, tenant: string, ip: Ip, since: int) {
    n < |steps| && steps[n].Store? && IsLogonFailure(steps[n].event, tenant, ip) && steps[n].event.ingestedAt >= since
  }

  lemma {:induction false} LogonFailuresAreTimes(
    steps: seq<Step>, first: nat, end: nat, burst: set<nat>, tenant: string, ip: Ip, since: int)
    requires first <= end <= |steps|
    requires forall n :: n in burst ==> first <= n < end && StoresLogonFailure(steps, n, tenant, ip, since)
    ensures |burst| <= |Times(Arrivals(steps, first, end), Query(tenant, since, 0), ip)|
    decreases end
  {
    hide Selected, IsLogonFailure;
    if first < end {
      var n: nat := end - 1;
      var q := Query(tenant, since, 0);
      LogonFailuresAreTimes(steps, first, n, burst - {n}, tenant, ip, since);
      if steps[n].Store? {
        TimesOfConcat(Arrivals(steps, first, n), [steps[n].event], q, ip);
        if n in burst {
          LogonFailureIsCounted(steps[n].event, q, ip);
        }
      } else {
        assert Arrivals(steps, first, n) + [] == Arrivals(steps, first, n);
      }
      assert n in burst ==> |burst - {n}| == |burst| - 1;
      assert n !in burst ==> burst - {n} == burst;
    } else {
      assert burst == {};
    }
  }

  lemma {:induction false} LogonFailureIsCounted(e: Event, q: Query, ip: Ip)
    requires IsLogonFailure(e, q.tenant, ip) && e.ingestedAt >= q.now && q.window == 0
    ensures |Times([e], q, ip)| == 1
  {
    LogonFailureIsSelected(e, q, ip);
    assert [e][..0] == [];
  }

  /** A Windows brute force is not missed: `threshold` steps that store failed logons of one address are a burst. */
  lemma {:induction false} LogonBurstIsReported(
    states: seq<State>, steps: seq<Step>, rule: Rule, ip: Ip,
    start: nat, first: nat, last: nat, burst: set<nat>, since: int, span: int, gap: int) returns (m: nat)
    requires Run(states, steps) && Inv(states[0].db)
    requires start <= last && first <= last < |steps| && Commits(steps, rule.tenant, start)
    requires Monotone(states, start) && EvaluatedEvery(states, steps, rule.tenant, start, gap)
    requires RuleSteady(states, rule, last)
    requires Spared(steps, first, Arrivals(steps, first, last + 1))
    requires |burst| >= rule.threshold
    requires forall n :: n in burst ==> first <= n <= last && StoresLogonFailure(steps, n, rule.tenant, ip, since)
    requires states[last].clock <= since + span && span + gap <= Seconds(rule.window)
    requires states[last].clock + gap <= states[|steps|].clock
    ensures last < m && Commits(steps, rule.tenant, m) && states[m].clock <= since + span + gap
    ensures ip in Found(states[m].db, rule, states[m].clock)
    ensures HasAlertSince(states[m + 1].db.alerts, rule, ip, states[m].clock - Seconds(rule.cooldown))
  {
    hide Inv, Found, Times, HasAlertSince, SelectRule, Arrivals, Spared, StoresLogonFailure;
    LogonFailuresAreTimes(steps, first, last + 1, burst, rule.tenant, ip, since);
    m := NoMissedBurst(states, steps, rule, ip, start, first, last, since, span, gap);
  }

  // ---- Re-alerting ----

  /** Alerts of the key stored between `from` and `n` come from firings between them. */
  lemma {:induction false} QuietKeepsLast(states: seq<State>, steps: seq<Step>, rule: Rule, ip: Ip, from: nat, n: nat, i: nat)
    requires Run(states, steps) && Inv(states[0].db) && from <= n <= |steps|
    requires forall k :: from <= k < n ==> !Fires(states, rule, ip, k)
    requires i < |states[n].db.alerts| && Keyed(states[n].db.alerts[i], rule.tenant, rule.id, ip)
    ensures i < |states[from].db.alerts|
  {
    if i >= |states[from].db.alerts| {
      var k := BirthStep(states, steps, from, n, i);
      assert KeyedAt(states[k + 1].db.alerts, i, rule, ip);
      assert Fires(states, rule, ip, k);
      assert false;
    }
  }

  /** Without a firing since `n`, an evaluation a cooldown later finds the address past its cooldown. */
  lemma {:induction false} QuietIsPastCooldown(states: seq<State>, steps: seq<Step>, rule: Rule, ip: Ip, n: nat, m: nat)
    requires Run(states, steps) && Inv(states[0].db) && n < m <= |steps| && RuleSteady(states, rule, n)
    requires Fires(states, rule, ip, n) && forall k :: n < k < m ==> !Fires(states, rule, ip, k)
    requires states[n].clock + Seconds(rule.cooldown) <= states[m].clock
    ensures PastCooldown(states[m].db.alerts, rule, ip, states[m].clock)
  {
    var alerts := states[m].db.alerts;
    LastTriggeredIsMax(alerts, rule.tenant, rule.id, ip);
    RunKeepsInvariant(states, steps, 0, n);
    SelectedRule(states[n].db, rule.tenant);
    FiringIsSpaced(states, steps, rule, ip, n);
    RunKeepsInvariant(states, steps, n, n + 1);
    RunKeepsInvariant(states, steps, n + 1, m);
    assert StepAt(states, steps, n);
    StepAddsAlerts(states[n], steps[n]);
    forall i | 0 <= i < |alerts| && Keyed(alerts[i], rule.tenant, rule.id, ip)
      ensures alerts[i].triggeredAt <= states[n].clock
    {
      QuietKeepsLast(states, steps, rule, ip, n + 1, m, i);
      assert alerts[i] == states[n + 1].db.alerts[i];
      if i < |states[n].db.alerts| {
        assert alerts[i] == states[n].db.alerts[i];
      } else {
        assert FiredBy(states[n], steps[n], states[n + 1].db.alerts, i);
      }
    }
  }

  /** The first firing after `n` and not after `m`, if there is one. */
  ghost function NextFiring(states: seq<State>, rule: Rule, ip: Ip, n: nat, m: nat): (r: Option<nat>)
    requires n <= m && m + 1 < |states|
    ensures r.Some? ==> n < r.value <= m && Fires(states, rule, ip, r.value)
                        && forall k :: n < k < r.value ==> !Fires(states, rule, ip, k)
    ensures r.None? ==> forall k :: n < k <= m ==> !Fires(states, rule, ip, k)
    decreases m
  {
    if n == m then None
    else
      var earlier := NextFiring(states, rule, ip, n, m - 1);
      if earlier.Some? then earlier else if Fires(states, rule, ip, m) then Some(m) else None
  }

  /** The last committed evaluation whose clock is below `bound`. */
  function LastCommitBelow(states: seq<State>, steps: seq<Step>, tenant: string, bound: int, n: nat, m: nat): (r: nat)
    requires n <= m < |states| && Commits(steps, tenant, n) && states[n].clock < bound
    ensures n <= r <= m && Commits(steps, tenant, r) && states[r].clock < bound
    ensures forall k :: r < k <= m && Commits(steps, tenant, k) ==> bound <= states[k].clock
  {
    if Commits(steps, tenant, m) && states[m].clock < bound then m
    else LastCommitBelow(states, steps, tenant, bound, n, m - 1)
  }

  /**
   While an address stays over the threshold, its next alert comes at least one cooldown and less than
   one cooldown plus `gap` after the last: never silenced for good, never repeated at every tick.
   */
  lemma {:induction false} NextAlertIsDue(
    states: seq<State>, steps: seq<Step>, rule: Rule, ip: Ip, n: nat, gap: int) returns (m: nat)
    requires Run(states, steps) && Inv(states[0].db) && n < |steps| && Fires(states, rule, ip, n)
    requires RuleSteady(states, rule, n) && Monotone(states, n)
    requires EvaluatedEvery(states, steps, rule.tenant, n, gap)
    requires forall k :: n <= k && Commits(steps, rule.tenant, k) ==> ip in Found(states[k].db, rule, states[k].clock)
    requires states[n].clock + Seconds(rule.cooldown) + gap <= states[|steps|].clock
    ensures n < m < |steps| && Fires(states, rule, ip, m)
    ensures forall k :: n < k < m ==> !Fires(states, rule, ip, k)
    ensures Seconds(rule.cooldown) <= states[m].clock - states[n].clock < Seconds(rule.cooldown) + gap
  {
    FiringIsSpaced(states, steps, rule, ip, n);
    RunKeepsInvariant(states, steps, 0, n);
    SelectedRule(states[n].db, rule.tenant);
    var bound := states[n].clock + Seconds(rule.cooldown);
    var u := LastCommitBelow(states, steps, rule.tenant, bound, n, |steps|);
    var v :| u < v && Commits(steps, rule.tenant, v) && states[v].clock <= states[u].clock + gap;
    var next := NextFiring(states, rule, ip, n, v);
    if next.None? {
      QuietIsPastCooldown(states, steps, rule, ip, n, v);
      EligibleFires(states, steps, rule, ip, v);
      assert false;
    }
    m := next.value;
    FiringIsSpaced(states, steps, rule, ip, m);
    FiredRowStays(states, steps, rule, ip, n, m);
  }

  lemma {:induction false} FiredRowStays(states: seq<State>, steps: seq<Step>, rule: Rule, ip: Ip, n: nat, m: nat)
    requires Run(states, steps) && Inv(states[0].db) && n < m <= |steps| && Fires(states, rule, ip, n)
    requires SelectRule(states[n].db.rules, rule.tenant) == Some(rule)
    ensures exists i :: 0 <= i < |states[m].db.alerts| && Keyed(states[m].db.alerts[i], rule.tenant, rule.id, ip)
                        && states[m].db.alerts[i].triggeredAt == states[n].clock
  {
    RunKeepsInvariant(states, steps, 0, n);
    RunKeepsInvariant(states, steps, n + 1, m);
    assert StepAt(states, steps, n);
    StepAddsAlerts(states[n], steps[n]);
    var alerts := states[n + 1].db.alerts;
    var i :| |states[n].db.alerts| <= i && KeyedAt(alerts, i, rule, ip);
    assert FiredBy(states[n], steps[n], alerts, i);
    assert states[m].db.alerts[i] == alerts[i];
  }
}
