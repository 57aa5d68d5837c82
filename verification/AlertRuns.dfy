/**
 Runs of the alerting system: events are stored and dropped, rules created and edited, the clock is
 set, and single tenants are evaluated, in any order. A tick of the engine is a row of evaluations,
 with whatever other transactions commit in between. An identity column may skip a number, as it does
 when the transaction of a creation is rolled back.
 */
module AlertRuns {
  import opened Text
  import opened Calendar
  import opened AlertModel
  import opened AlertEngine

  datatype State = State(clock: int, db: Db)

  datatype Step =
    | Store(event: Event)
    | DropDay(day: int)
    | Create(owner: string, settings: Settings)
    | Update(owner: string, id: int, patch: Patch)
    | SkipRuleId
    | SetClock(now: int)
    | Eval(tenant: string, env: Env)

  /** An evaluation sees the clock of its transaction; a stored row arrived no later than now. */
  ghost predicate Enabled(s: State, step: Step) {
    match step
    case Store(e) => e.ingestedAt <= s.clock
    case Eval(tenant, env) => env.now == s.clock && RowOrder(s.db, tenant, env)
    case _ => true
  }

  function NotOfDay(events: seq<Event>, day: int): seq<Event> {
    if events == [] then []
    else (if DayOf(events[0].eventTime) == day then [] else [events[0]]) + NotOfDay(events[1..], day)
  }

  function Apply(s: State, step: Step): State
    requires Enabled(s, step)
  {
    match step
    case Store(e) => s.(db := s.db.(events := s.db.events + [e]))
    case DropDay(day) => s.(db := s.db.(events := NotOfDay(s.db.events, day)))
    case Create(owner, settings) => s.(db := CreateRule(s.db, owner, settings).0)
    case Update(owner, id, patch) => s.(db := UpdateRule(s.db, owner, id, patch).0)
    case SkipRuleId => s.(db := s.db.(nextRule := s.db.nextRule + 1))
    case SetClock(now) => s.(clock := now)
    case Eval(tenant, env) => s.(db := Evaluate(s.db, tenant, env))
  }

  ghost predicate Run(states: seq<State>, steps: seq<Step>) {
    && |states| == |steps| + 1
    && forall n :: 0 <= n < |steps| ==> StepAt(states, steps, n)
  }

  ghost predicate StepAt(states: seq<State>, steps: seq<Step>, n: nat)
    requires n < |steps| && |states| == |steps| + 1
  {
    Enabled(states[n], steps[n]) && states[n + 1] == Apply(states[n], steps[n])
  }

  // ---- What one evaluation adds ----

  lemma {:induction false} LastTriggeredAfter(before: seq<Alert>, more: seq<Alert>, tenant: string, ruleId: nat, ip: Ip)
    requires forall k :: 0 <= k < |more| ==> !Keyed(more[k], tenant, ruleId, ip)
    ensures LastTriggered(before + more, tenant, ruleId, ip) == LastTriggered(before, tenant, ruleId, ip)
  {
    if more == [] {
      assert before + more == before;
    } else {
      assert (before + more)[..|before + more| - 1] == before + more[..|more| - 1];
      LastTriggeredAfter(before, more[..|more| - 1], tenant, ruleId, ip);
    }
  }

  /** The addresses of `order` that are past the cooldown, given the alerts stored before. */
  function Eligible(alerts: seq<Alert>, rule: Rule, order: seq<Ip>, now: int): seq<Ip> {
    if order == [] then []
    else
      var ip := order[|order| - 1];
      Eligible(alerts, rule, order[..|order| - 1], now) + if PastCooldown(alerts, rule, ip, now) then [ip] else []
  }

  lemma {:induction false} EligibleMembers(alerts: seq<Alert>, rule: Rule, order: seq<Ip>, now: int)
    requires Distinct(order)
    ensures var el := Eligible(alerts, rule, order, now);
            && Distinct(el)
            && forall ip :: ip in el <==> ip in order && PastCooldown(alerts, rule, ip, now)
  {
    if order != [] {
      var init, last := order[..|order| - 1], order[|order| - 1];
      EligibleMembers(alerts, rule, init, now);
      assert forall ip :: ip in order <==> ip in init || ip == last;
      assert last !in init;
    }
  }

  function NewRows(nextAlert: nat, rule: Rule, ips: seq<Ip>, found: map<Ip, Group>, env: Env): (rows: seq<Alert>)
    requires forall k :: 0 <= k < |ips| ==> ips[k] in found
    ensures |rows| == |ips|
    ensures forall j :: 0 <= j < |ips| ==> rows[j] == NewAlert(nextAlert + j, rule, ips[j], found[ips[j]], env)
  {
    if ips == [] then []
    else
      var n := |ips| - 1;
      NewRows(nextAlert, rule, ips[..n], found, env) + [NewAlert(nextAlert + n, rule, ips[n], found[ips[n]], env)]
  }

  lemma {:induction false} RowsHaveAddresses(nextAlert: nat, rule: Rule, ips: seq<Ip>, found: map<Ip, Group>, env: Env)
    requires forall k :: 0 <= k < |ips| ==> ips[k] in found
    ensures forall k :: 0 <= k < |ips| ==> NewRows(nextAlert, rule, ips, found, env)[k].srcIp in ips
  {
  }

  lemma {:induction false} PastCooldownAfter(before: seq<Alert>, more: seq<Alert>, rule: Rule, ip: Ip, now: int)
    requires forall k :: 0 <= k < |more| ==> more[k].srcIp != ip
    ensures PastCooldown(before + more, rule, ip, now) == PastCooldown(before, rule, ip, now)
  {
    LastTriggeredAfter(before, more, rule.tenant, rule.id, ip);
  }

  /** What the loop has done after the candidates `order`: it has fired those that were eligible at the start. */
  ghost predicate HasFired(f: Fired, g: Fired, rule: Rule, order: seq<Ip>, found: map<Ip, Group>, env: Env) {
    var el := Eligible(f.alerts, rule, order, env.now);
    && (forall k :: 0 <= k < |el| ==> el[k] in found)
    && g == Fired(f.alerts + NewRows(f.nextAlert, rule, el, found, env), f.nextAlert + |el|)
  }

  lemma {:induction false} NewRowsSnoc(next: nat, rule: Rule, ips: seq<Ip>, ip: Ip, found: map<Ip, Group>, env: Env)
    requires ip in found && forall k :: 0 <= k < |ips| ==> ips[k] in found
    ensures NewRows(next, rule, ips + [ip], found, env)
         == NewRows(next, rule, ips, found, env) + [NewAlert(next + |ips|, rule, ip, found[ip], env)]
  {
    assert (ips + [ip])[..|ips|] == ips;
  }

  lemma {:induction false} EligibleSnoc(alerts: seq<Alert>, rule: Rule, order: seq<Ip>, ip: Ip, now: int)
    ensures Eligible(alerts, rule, order + [ip], now)
         == Eligible(alerts, rule, order, now) + if PastCooldown(alerts, rule, ip, now) then [ip] else []
  {
    assert (order + [ip])[..|order|] == order;
  }

  /** Rows fired earlier in a transaction do not affect later candidates: the addresses are distinct. */
  lemma {:induction false} FireOneMore(f: Fired, g: Fired, rule: Rule, order: seq<Ip>, ip: Ip, found: map<Ip, Group>, env: Env)
    requires Distinct(order) && ip !in order && ip in found && HasFired(f, g, rule, order, found, env)
    ensures HasFired(f, FireOne(g, rule, ip, found[ip], env), rule, order + [ip], found, env)
  {
    hide PastCooldown, NewAlert, Eligible, NewRows;
    var el := Eligible(f.alerts, rule, order, env.now);
    var rows := NewRows(f.nextAlert, rule, el, found, env);
    EligibleMembers(f.alerts, rule, order, env.now);
    EligibleSnoc(f.alerts, rule, order, ip, env.now);
    RowsHaveAddresses(f.nextAlert, rule, el, found, env);
    PastCooldownAfter(f.alerts, rows, rule, ip, env.now);
    if PastCooldown(f.alerts, rule, ip, env.now) {
      NewRowsSnoc(f.nextAlert, rule, el, ip, found, env);
      var a := NewAlert(f.nextAlert + |el|, rule, ip, found[ip], env);
      assert f.alerts + rows + [a] == f.alerts + (rows + [a]);
    } else {
      assert el + [] == el;
    }
  }

  lemma {:induction false} FireAllAdds(f: Fired, rule: Rule, order: seq<Ip>, found: map<Ip, Group>, env: Env)
    requires Distinct(order) && forall k :: 0 <= k < |order| ==> order[k] in found
    ensures HasFired(f, FireAll(f, rule, order, found, env), rule, order, found, env)
  {
    if order != [] {
      hide HasFired, FireOne;
      var init, ip := order[..|order| - 1], order[|order| - 1];
      FireAllAdds(f, rule, init, found, env);
      FireOneMore(f, FireAll(f, rule, init, found, env), rule, init, ip, found, env);
      assert order == init + [ip];
    } else {
      assert f.alerts + [] == f.alerts;
    }
  }

  /** The rows that a committed evaluation adds. */
  function Added(db: Db, rule: Rule, env: Env): seq<Alert>
    requires Distinct(env.order) && forall ip :: ip in env.order ==> ip in Found(db, rule, env.now)
  {
    EligibleMembers(db.alerts, rule, env.order, env.now);
    var el := Eligible(db.alerts, rule, env.order, env.now);
    assert forall k :: 0 <= k < |el| ==> el[k] in el;
    NewRows(db.nextAlert, rule, el, Found(db, rule, env.now), env)
  }

  lemma {:induction false} CommitAdds(db: Db, tenant: string, env: Env)
    requires RowOrder(db, tenant, env) && env.fault.None? && SelectRule(db.rules, tenant).Some?
    ensures Evaluate(db, tenant, env).alerts == db.alerts + Added(db, SelectRule(db.rules, tenant).value, env)
  {
    var rule := SelectRule(db.rules, tenant).value;
    FireAllAdds(Fired(db.alerts, db.nextAlert), rule, env.order, Found(db, rule, env.now), env);
  }

  /** The row that an evaluation stores for an address it found. */
  ghost predicate IsAlertFor(a: Alert, id: nat, rule: Rule, ip: Ip, g: Group, env: Env) {
    && a.id == id && a.tenant == rule.tenant && a.ruleId == rule.id && a.srcIp == ip && a.triggeredAt == env.now
    && a.eventCount == g.count && a.windowStart == g.first && a.windowEnd == g.last
    && a.threshold == rule.threshold && a.window == rule.window
    && (ip in env.delivered ==> a.webhookSentAt == Some(env.now))
    && (ip !in env.delivered ==> a.webhookSentAt == None)
  }

  ghost predicate FiresFor(alerts: seq<Alert>, from: nat, ip: Ip) {
    exists j :: from <= j < |alerts| && alerts[j].srcIp == ip
  }

  /** The alerts after a commit: one for each address that may fire, in the form given, with the next ids. */
  ghost predicate AppendsAlerts(
    before: seq<Alert>, after: seq<Alert>, next: nat, rule: Rule, found: map<Ip, Group>, env: Env)
  {
    && before <= after
    && (forall ip :: FiresFor(after, |before|, ip) <==> ip in found && Quiet(before, rule, ip, env.now))
    && (forall i, j :: |before| <= i < j < |after| ==> after[i].srcIp != after[j].srcIp)
    && forall j :: |before| <= j < |after| ==>
         && after[j].srcIp in found
         && IsAlertFor(after[j], next + (j - |before|), rule, after[j].srcIp, found[after[j].srcIp], env)
  }

  lemma {:induction false} AddedRowIsAlert(db: Db, rule: Rule, env: Env, j: nat)
    requires Distinct(env.order) && forall ip :: ip in env.order ==> ip in Found(db, rule, env.now)
    requires j < |Added(db, rule, env)|
    ensures var row := Added(db, rule, env)[j];
            && row.srcIp in env.order && PastCooldown(db.alerts, rule, row.srcIp, env.now)
            && IsAlertFor(row, db.nextAlert + j, rule, row.srcIp, Found(db, rule, env.now)[row.srcIp], env)
            && forall k :: 0 <= k < j ==> Added(db, rule, env)[k].srcIp != row.srcIp
  {
    hide Found, PastCooldown, Eligible, Distinct;
    AddedRow(db, rule, env, j);
  }

  lemma {:induction false} AddedIsAppended(db: Db, rule: Rule, env: Env)
    requires Distinct(env.order) && forall ip :: ip in env.order <==> ip in Found(db, rule, env.now)
    ensures AppendsAlerts(db.alerts, db.alerts + Added(db, rule, env), db.nextAlert, rule, Found(db, rule, env.now), env)
  {
    hide Found, PastCooldown, Quiet, Distinct, Added, IsAlertFor;
    var rows, n := Added(db, rule, env), |db.alerts|;
    var after := db.alerts + rows;
    forall j | 0 <= j < |rows|
      ensures rows[j].srcIp in env.order && PastCooldown(db.alerts, rule, rows[j].srcIp, env.now)
      ensures IsAlertFor(rows[j], db.nextAlert + j, rule, rows[j].srcIp, Found(db, rule, env.now)[rows[j].srcIp], env)
      ensures forall k :: 0 <= k < j ==> rows[k].srcIp != rows[j].srcIp
    {
      AddedRowIsAlert(db, rule, env, j);
    }
    assert forall j :: n <= j < |after| ==> after[j] == rows[j - n];
    forall ip
      ensures FiresFor(after, n, ip) <==> ip in env.order && Quiet(db.alerts, rule, ip, env.now)
    {
      PastCooldownExactly(db.alerts, rule, ip, env.now);
      AddedFor(db, rule, env, ip);
    }
  }

  lemma {:induction false} AddedFor(db: Db, rule: Rule, env: Env, ip: Ip)
    requires Distinct(env.order) && forall ip :: ip in env.order <==> ip in Found(db, rule, env.now)
    ensures ip in env.order && PastCooldown(db.alerts, rule, ip, env.now) ==>
              FiresFor(db.alerts + Added(db, rule, env), |db.alerts|, ip)
  {
    hide Found, PastCooldown, Distinct;
    EligibleMembers(db.alerts, rule, env.order, env.now);
    var el := Eligible(db.alerts, rule, env.order, env.now);
    if ip in el {
      var k :| 0 <= k < |el| && el[k] == ip;
      assert (db.alerts + Added(db, rule, env))[|db.alerts| + k].srcIp == ip;
    }
  }

  /**
   What an evaluation does. Without an enabled rule, nothing; after an exception, no alert is kept. Otherwise it
   appends one alert, with the next id, for each address that is found and has no alert within the
   cooldown, and for no other address.
   */
  lemma {:induction false} EvaluationDoes(db: Db, tenant: string, env: Env)
    requires RowOrder(db, tenant, env)
    ensures var r := Evaluate(db, tenant, env);
            && r.events == db.events && r.rules == db.rules && r.nextRule == db.nextRule
            && (env.fault.Some? ==> r.alerts == db.alerts)
            && (SelectRule(db.rules, tenant).None? ==> r == db)
            && (env.fault == Some(0) ==> r == db)
    ensures env.fault.None? && SelectRule(db.rules, tenant).Some? ==>
              var r := Evaluate(db, tenant, env);
              var rule := SelectRule(db.rules, tenant).value;
              && AppendsAlerts(db.alerts, r.alerts, db.nextAlert, rule, Found(db, rule, env.now), env)
              && r.nextAlert == db.nextAlert + (|r.alerts| - |db.alerts|)
  {
    if env.fault.None? && SelectRule(db.rules, tenant).Some? {
      hide Found, SelectRule, AppendsAlerts;
      var rule := SelectRule(db.rules, tenant).value;
      CommitAdds(db, tenant, env);
      AddedIsAppended(db, rule, env);
      FireAllAdds(Fired(db.alerts, db.nextAlert), rule, env.order, Found(db, rule, env.now), env);
    }
  }

  lemma {:induction false} DropDayDoes(events: seq<Event>, day: int, e: Event)
    ensures multiset(NotOfDay(events, day))[e] == if DayOf(e.eventTime) == day then 0 else multiset(events)[e]
  {
    if events != [] {
      DropDayDoes(events[1..], day, e);
      assert events == [events[0]] + events[1..];
      assert multiset(events) == multiset{events[0]} + multiset(events[1..]);
      var head := if DayOf(events[0].eventTime) == day then [] else [events[0]];
      assert multiset(NotOfDay(events, day)) == multiset(head) + multiset(NotOfDay(events[1..], day));
    }
  }

  /** What the steps other than evaluations and edits do, and when a row may be stored. */
  lemma {:induction false} StepDoes(s: State, step: Step)
    requires Enabled(s, step)
    ensures var t := Apply(s, step);
            && (step.Store? ==>
                  step.event.ingestedAt <= s.clock && t == s.(db := s.db.(events := s.db.events + [step.event])))
            && (step.DropDay? ==>
                  && t == s.(db := s.db.(events := t.db.events))
                  && forall e :: multiset(t.db.events)[e]
                              == if DayOf(e.eventTime) == step.day then 0 else multiset(s.db.events)[e])
            && (step.SkipRuleId? ==> t == s.(db := s.db.(nextRule := s.db.nextRule + 1)))
            && (step.SetClock? ==> t == s.(clock := step.now))
            && (step.Eval? ==> step.env.now == s.clock)
            && (!step.SetClock? ==> t.clock == s.clock)
  {
    hide NotOfDay;
    if step.DropDay? {
      forall e {
        DropDayDoes(s.db.events, step.day, e);
      }
    }
  }

  // ---- The invariant ----

  predicate RulesOk(db: Db) {
    && (forall k :: 0 <= k < |db.rules| ==> RuleOk(db.rules[k], db.nextRule))
    && forall i, j :: 0 <= i < j < |db.rules| ==> db.rules[i].id != db.rules[j].id && db.rules[i].tenant != db.rules[j].tenant
  }

  predicate RuleOk(r: Rule, next: nat) {
    && r.id < next && r.tenant != ""
    && 0 < r.threshold <= MAX_INTEGER && 0 < r.window <= MAX_INTEGER && 0 < r.cooldown <= MAX_INTEGER
  }

  /** The row reports a burst that reached its threshold, and a span of time. */
  predicate AlertOk(a: Alert) {
    a.eventCount >= a.threshold > 0 && a.window > 0 && a.windowStart <= a.windowEnd
  }

  predicate RefersToRule(a: Alert, rules: seq<Rule>) {
    exists k :: 0 <= k < |rules| && rules[k].id == a.ruleId && rules[k].tenant == a.tenant
  }

  predicate SameKey(a: Alert, b: Alert) {
    a.tenant == b.tenant && a.ruleId == b.ruleId && a.srcIp == b.srcIp
  }

  predicate AlertsOk(db: Db) {
    && IdsBelow(db.alerts, db.nextAlert)
    && (forall k :: 0 <= k < |db.alerts| ==> AlertOk(db.alerts[k]) && RefersToRule(db.alerts[k], db.rules))
    && (forall i, j :: 0 <= i < j < |db.alerts| ==> db.alerts[i].id < db.alerts[j].id)
  }

  /** Alerts of one key are at least `gap` apart and in order of time. */
  predicate Spaced(alerts: seq<Alert>, gap: int) {
    forall i, j :: 0 <= i < j < |alerts| && SameKey(alerts[i], alerts[j]) ==>
      alerts[i].triggeredAt + gap <= alerts[j].triggeredAt
  }

  predicate Inv(db: Db) {
    RulesOk(db) && AlertsOk(db) && Spaced(db.alerts, 1)
  }

  /** The rule an evaluation works with is the only one of its tenant. */
  lemma {:induction false} SelectedRule(db: Db, tenant: string)
    requires RulesOk(db) && SelectRule(db.rules, tenant).Some?
    ensures var r := SelectRule(db.rules, tenant).value;
            && r.tenant == tenant && RuleOk(r, db.nextRule)
            && exists k :: 0 <= k < |db.rules| && db.rules[k] == r
  {
    SelectedRuleIsOfTenant(db.rules, tenant);
  }

  /** Everything about the row an evaluation stores at index `j`. */
  ghost predicate FiredBy(s: State, step: Step, alerts: seq<Alert>, j: nat)
    requires j < |alerts|
  {
    && step.Eval? && step.env.fault.None? && SelectRule(s.db.rules, step.tenant).Some?
    && var rule := SelectRule(s.db.rules, step.tenant).value;
    && Keyed(alerts[j], rule.tenant, rule.id, alerts[j].srcIp) && rule.tenant == step.tenant
    && alerts[j].triggeredAt == s.clock
    && alerts[j].threshold == rule.threshold && alerts[j].window == rule.window
    && alerts[j].webhookSentAt == (if alerts[j].srcIp in step.env.delivered then Some(s.clock) else None)
    && alerts[j].srcIp in Found(s.db, rule, s.clock)
    && var g := Found(s.db, rule, s.clock)[alerts[j].srcIp];
    && alerts[j].eventCount == g.count && alerts[j].windowStart == g.first && alerts[j].windowEnd == g.last
    && forall i :: 0 <= i < j && SameKey(alerts[i], alerts[j]) ==>
                     alerts[i].triggeredAt + Seconds(rule.cooldown) <= alerts[j].triggeredAt
  }

  /** A step never changes a stored alert, and a row it adds was fired by an evaluation, past the cooldown. */
  lemma {:induction false} StepAddsAlerts(s: State, step: Step)
    requires Inv(s.db) && Enabled(s, step)
    ensures s.db.alerts <= Apply(s, step).db.alerts
    ensures forall j :: |s.db.alerts| <= j < |Apply(s, step).db.alerts| ==>
                          FiredBy(s, step, Apply(s, step).db.alerts, j)
  {
    if step.Eval? && SelectRule(s.db.rules, step.tenant).Some? && step.env.fault.None? {
      var rule := SelectRule(s.db.rules, step.tenant).value;
      CommitAdds(s.db, step.tenant, step.env);
      var alerts := Apply(s, step).db.alerts;
      forall j | |s.db.alerts| <= j < |alerts|
        ensures FiredBy(s, step, alerts, j)
      {
        NewRowIsFired(s, step, rule, j);
      }
    }
  }

  lemma {:induction false} NewRowIsFired(s: State, step: Step, rule: Rule, j: nat)
    requires Inv(s.db) && Enabled(s, step) && step.Eval? && step.env.fault.None?
    requires SelectRule(s.db.rules, step.tenant) == Some(rule)
    requires |s.db.alerts| <= j < |s.db.alerts + Added(s.db, rule, step.env)|
    ensures FiredBy(s, step, s.db.alerts + Added(s.db, rule, step.env), j)
  {
    SelectedRule(s.db, step.tenant);
    var rows := Added(s.db, rule, step.env);
    var n := j - |s.db.alerts|;
    AddedRow(s.db, rule, step.env, n);
    PastMeansSpaced(s.db.alerts, rows[..n], rows[n], rule);
    var alerts := s.db.alerts + rows;
    assert alerts[..j] == s.db.alerts + rows[..n];
    assert forall i :: 0 <= i < j ==> alerts[i] == alerts[..j][i];
  }

  /** Row `n` of an evaluation: its address is detected, past the cooldown, and not among the rows before. */
  lemma {:induction false} AddedRow(db: Db, rule: Rule, env: Env, n: nat)
    requires Distinct(env.order) && forall ip :: ip in env.order ==> ip in Found(db, rule, env.now)
    requires n < |Added(db, rule, env)|
    ensures var rows := Added(db, rule, env);
            && rows[n].srcIp in env.order && PastCooldown(db.alerts, rule, rows[n].srcIp, env.now)
            && rows[n] == NewAlert(db.nextAlert + n, rule, rows[n].srcIp, Found(db, rule, env.now)[rows[n].srcIp], env)
            && forall k :: 0 <= k < n ==> rows[k].srcIp != rows[n].srcIp
  {
    EligibleMembers(db.alerts, rule, env.order, env.now);
    var el := Eligible(db.alerts, rule, env.order, env.now);
    assert el[n] in el;
  }

  lemma {:induction false} PastMeansSpaced(before: seq<Alert>, rows: seq<Alert>, a: Alert, rule: Rule)
    requires Keyed(a, rule.tenant, rule.id, a.srcIp) && PastCooldown(before, rule, a.srcIp, a.triggeredAt)
    requires forall k :: 0 <= k < |rows| ==> rows[k].srcIp != a.srcIp
    ensures forall i :: 0 <= i < |before + rows| && SameKey((before + rows)[i], a) ==>
                          (before + rows)[i].triggeredAt + Seconds(rule.cooldown) <= a.triggeredAt
  {
    LastTriggeredIsMax(before, rule.tenant, rule.id, a.srcIp);
    forall i | 0 <= i < |before + rows| && SameKey((before + rows)[i], a)
      ensures (before + rows)[i].triggeredAt + Seconds(rule.cooldown) <= a.triggeredAt
    {
      assert Keyed(before[i], rule.tenant, rule.id, a.srcIp);
    }
  }

  lemma {:induction false} FoundIsOk(db: Db, rule: Rule, now: int, ip: Ip)
    requires ip in Found(db, rule, now)
    ensures Found(db, rule, now)[ip].count >= rule.threshold
    ensures Found(db, rule, now)[ip].first <= Found(db, rule, now)[ip].last
  {
    GroupsAreGroupBy(db.events, Query(rule.tenant, now, rule.window), ip);
  }
}
