/** What every run keeps: rows are never changed, and alerts of one key keep their distance. */
module AlertSpacing {
  import opened Text
  import opened AlertModel
  import opened AlertEngine
  import opened AlertRuns

  // ---- Every step keeps the invariant ----

  lemma {:induction false} RulesStayOk(db: Db, owner: string, s: Settings, id: int, p: Patch)
    requires RulesOk(db)
    ensures RulesOk(CreateRule(db, owner, s).0) && RulesOk(UpdateRule(db, owner, id, p).0)
  {
  }

  /** Rules keep their id and tenant, whatever is edited. */
  lemma {:induction false} EditsKeepKeys(db: Db, owner: string, s: Settings, id: int, p: Patch, a: Alert)
    requires RefersToRule(a, db.rules)
    ensures RefersToRule(a, CreateRule(db, owner, s).0.rules) && RefersToRule(a, UpdateRule(db, owner, id, p).0.rules)
  {
    var k :| 0 <= k < |db.rules| && db.rules[k].id == a.ruleId && db.rules[k].tenant == a.tenant;
    var created, updated := CreateRule(db, owner, s).0.rules, UpdateRule(db, owner, id, p).0.rules;
    assert created[k] == db.rules[k];
    assert updated[k].id == a.ruleId && updated[k].tenant == a.tenant;
  }

  /** A creation is refused exactly for four reasons; it touches no other row, and takes an id once it is planned. */
  lemma {:induction false} CreateRuleDoes(db: Db, owner: string, s: Settings)
    requires RulesOk(db)
    ensures var (after, response) := CreateRule(db, owner, s);
            var planned := 0 < s.threshold <= 2147483647 && 0 < s.window <= 2147483647 && 0 < s.cooldown <= 2147483647;
            && (response == Unprocessable <==> !(s.threshold > 0 && s.window > 0 && s.cooldown > 0))
            && (response == ServerError <==> response != Unprocessable && (!planned || owner == ""))
            && (response == Conflict <==> planned && owner != "" && exists r :: r in db.rules && r.tenant == owner)
            && (response != Created ==> after.rules == db.rules)
            && (response == Created ==>
                  && after.rules == db.rules + [Rule(db.nextRule, owner, s.threshold, s.window, s.cooldown, s.enabled)]
                  && (s.enabled ==> SelectRule(after.rules, owner) == Some(after.rules[|db.rules|])))
            && after.alerts == db.alerts && after.events == db.events
            && after.nextRule == db.nextRule + if planned then 1 else 0
  {
    var after := CreateRule(db, owner, s).0;
    if HasRule(db.rules, owner) {
      var k :| 0 <= k < |db.rules| && db.rules[k].tenant == owner;
      assert db.rules[k] in db.rules;
    } else if |after.rules| > |db.rules| {
      SelectRuleAppended(db.rules, after.rules[|db.rules|], owner);
    }
  }

  lemma {:induction false} SelectRuleAppended(rules: seq<Rule>, r: Rule, tenant: string)
    requires forall k :: 0 <= k < |rules| ==> rules[k].tenant != tenant
    ensures SelectRule(rules + [r], tenant) == if r.tenant == tenant && r.enabled then Some(r) else None
  {
    if rules == [] {
      assert SelectRule([r][1..], tenant) == None;
    } else {
      assert (rules + [r])[1..] == rules[1..] + [r];
      SelectRuleAppended(rules[1..], r, tenant);
    }
  }

  /** Something is named, and every named setting is in the column's range. */
  predicate ValidPatch(p: Patch) {
    && p != NO_PATCH
    && (p.threshold.Some? ==> 0 < p.threshold.value <= MAX_INTEGER)
    && (p.window.Some? ==> 0 < p.window.value <= MAX_INTEGER)
    && (p.cooldown.Some? ==> 0 < p.cooldown.value <= MAX_INTEGER)
  }

  lemma {:induction false} FoundByKey(db: Db, owner: string, id: int, k: nat)
    requires RulesOk(db) && k < |db.rules| && db.rules[k].id == id && db.rules[k].tenant == owner
    ensures FindRule(db.rules, owner, id) == k
  {
  }

  /** Some setting that the patch names satisfies the test. */
  predicate SomeNamed(p: Patch, test: int -> bool) {
    || (p.threshold.Some? && test(p.threshold.value))
    || (p.window.Some? && test(p.window.value))
    || (p.cooldown.Some? && test(p.cooldown.value))
  }

  /** Which answer an edit gets. */
  lemma {:induction false} UpdateRuleAnswers(db: Db, owner: string, id: int, p: Patch)
    ensures var response := UpdateRule(db, owner, id, p).1;
            var refused := SomeNamed(p, v => v <= 0);
            var empty := p == Patch(None, None, None, None);
            var tooLarge := SomeNamed(p, v => v > 2147483647);
            var found := exists r :: r in db.rules && r.id == id && r.tenant == owner;
            && (response == Unprocessable <==> refused)
            && (response == BadRequest <==> empty)
            && (response == ServerError <==> !refused && tooLarge)
            && (response == NotFound <==> !refused && !empty && !tooLarge && !found)
            && (response == Updated <==> !refused && !empty && !tooLarge && found)
  {
    var k := FindRule(db.rules, owner, id);
    if exists r :: r in db.rules && r.id == id && r.tenant == owner {
      var r :| r in db.rules && r.id == id && r.tenant == owner;
      var j :| 0 <= j < |db.rules| && db.rules[j] == r;
      assert k <= j;
    }
    if k < |db.rules| {
      assert db.rules[k] in db.rules;
    }
  }

  /** An edit changes the named settings of the caller's own rule of that id, and nothing else anywhere. */
  lemma {:induction false} UpdateRuleDoes(db: Db, owner: string, id: int, p: Patch, k: nat)
    requires RulesOk(db) && k < |db.rules|
    ensures var (after, response) := UpdateRule(db, owner, id, p);
            var r := after.rules[k];
            && |after.rules| == |db.rules| && after == db.(rules := after.rules)
            && (response != Updated || db.rules[k].id != id || db.rules[k].tenant != owner ==> r == db.rules[k])
            && (response == Updated && db.rules[k].id == id && db.rules[k].tenant == owner ==>
                  && r.id == id && r.tenant == owner
                  && (if p.threshold.Some? then r.threshold == p.threshold.value else r.threshold == db.rules[k].threshold)
                  && (if p.window.Some? then r.window == p.window.value else r.window == db.rules[k].window)
                  && (if p.cooldown.Some? then r.cooldown == p.cooldown.value else r.cooldown == db.rules[k].cooldown)
                  && (if p.enabled.Some? then r.enabled == p.enabled.value else r.enabled == db.rules[k].enabled))
            && (response == NotFound ==> db.rules[k].id != id || db.rules[k].tenant != owner)
            && (db.rules[k].id == id && db.rules[k].tenant == owner ==> (response == Updated <==> ValidPatch(p)))
            && (response == Updated ==> ValidPatch(p))
  {
    hide RulesOk;
    if db.rules[k].id == id && db.rules[k].tenant == owner {
      FoundByKey(db, owner, id, k);
    }
  }

  lemma {:induction false} FiredIsOk(s: State, step: Step, alerts: seq<Alert>, j: nat)
    requires RulesOk(s.db) && j < |alerts| && FiredBy(s, step, alerts, j)
    ensures AlertOk(alerts[j]) && RefersToRule(alerts[j], s.db.rules)
    ensures forall i :: 0 <= i < j && SameKey(alerts[i], alerts[j]) ==> alerts[i].triggeredAt + 1 <= alerts[j].triggeredAt
  {
    var rule := SelectRule(s.db.rules, step.tenant).value;
    SelectedRule(s.db, step.tenant);
    FoundIsOk(s.db, rule, s.clock, alerts[j].srcIp);
  }

  lemma {:induction false} EvaluateKeepsIds(db: Db, tenant: string, env: Env)
    requires AlertsOk(db) && RowOrder(db, tenant, env)
    ensures var r := Evaluate(db, tenant, env);
            && r.rules == db.rules && r.nextRule == db.nextRule && r.events == db.events
            && IdsBelow(r.alerts, r.nextAlert)
            && forall i, j :: 0 <= i < j < |r.alerts| ==> r.alerts[i].id < r.alerts[j].id
  {
    hide Found, SelectRule, Eligible, FireAll, AlertOk, RefersToRule;
    var selected := SelectRule(db.rules, tenant);
    if selected.Some? {
      var rule := selected.value;
      var found := Found(db, rule, env.now);
      var order := Reached(env);
      assert forall k :: 0 <= k < |order| ==> order[k] in env.order;
      FireAllAdds(Fired(db.alerts, db.nextAlert), rule, order, found, env);
    }
  }

  lemma {:induction false} EvaluationKeepsInvariant(s: State, step: Step)
    requires Inv(s.db) && Enabled(s, step) && step.Eval?
    ensures Inv(Apply(s, step).db)
  {
    hide AlertOk, RefersToRule, FiredBy, Found, SelectRule, Evaluate;
    StepAddsAlerts(s, step);
    EvaluateKeepsIds(s.db, step.tenant, step.env);
    var alerts := Apply(s, step).db.alerts;
    var n := |s.db.alerts|;
    assert forall k :: 0 <= k < n ==> alerts[k] == s.db.alerts[k];
    forall j | n <= j < |alerts|
      ensures AlertOk(alerts[j]) && RefersToRule(alerts[j], s.db.rules)
      ensures forall i :: 0 <= i < j && SameKey(alerts[i], alerts[j]) ==> alerts[i].triggeredAt + 1 <= alerts[j].triggeredAt
    {
      FiredIsOk(s, step, alerts, j);
    }
  }

  lemma {:induction false} EditsKeepInvariant(db: Db, owner: string, s: Settings, id: int, p: Patch)
    requires Inv(db)
    ensures Inv(CreateRule(db, owner, s).0) && Inv(UpdateRule(db, owner, id, p).0)
  {
    hide RulesOk, RefersToRule;
    RulesStayOk(db, owner, s, id, p);
    forall k | 0 <= k < |db.alerts|
      ensures RefersToRule(db.alerts[k], CreateRule(db, owner, s).0.rules)
      ensures RefersToRule(db.alerts[k], UpdateRule(db, owner, id, p).0.rules)
    {
      EditsKeepKeys(db, owner, s, id, p, db.alerts[k]);
    }
  }

  /** Storing, dropping, editing, setting the clock and evaluating, committed or not, keep the invariant. */
  lemma {:induction false} StepKeepsInvariant(s: State, step: Step)
    requires Inv(s.db) && Enabled(s, step)
    ensures Inv(Apply(s, step).db)
  {
    hide CreateRule, UpdateRule, Evaluate, RowOrder;
    match step
    case Create(owner, settings) => EditsKeepInvariant(s.db, owner, settings, 0, NO_PATCH);
    case Update(owner, id, patch) => EditsKeepInvariant(s.db, owner, Settings(0, 0, 0, false), id, patch);
    case Eval(_, _) => EvaluationKeepsInvariant(s, step);
    case _ =>
  }

  /** In every reachable state the invariant holds, and stored alerts stay as they are, in place. */
  lemma {:induction false} RunKeepsInvariant(states: seq<State>, steps: seq<Step>, m: nat, n: nat)
    requires Run(states, steps) && Inv(states[0].db) && m <= n <= |steps|
    ensures Inv(states[n].db)
    ensures states[m].db.alerts <= states[n].db.alerts
    decreases n
  {
    if n > 0 {
      RunKeepsInvariant(states, steps, if m < n then m else n - 1, n - 1);
      assert StepAt(states, steps, n - 1);
      StepKeepsInvariant(states[n - 1], steps[n - 1]);
      StepAddsAlerts(states[n - 1], steps[n - 1]);
    }
  }

  // ---- Spacing over runs ----

  /** The step that stored alert `j`. */
  lemma {:induction false} BirthStep(states: seq<State>, steps: seq<Step>, from: nat, until: nat, j: nat) returns (n: nat)
    requires Run(states, steps) && Inv(states[0].db) && from <= until <= |steps|
    requires |states[from].db.alerts| <= j < |states[until].db.alerts|
    ensures from <= n < until && |states[n].db.alerts| <= j < |states[n + 1].db.alerts|
    ensures states[n + 1].db.alerts[j] == states[until].db.alerts[j]
    ensures FiredBy(states[n], steps[n], states[n + 1].db.alerts, j)
    decreases until
  {
    RunKeepsInvariant(states, steps, until - 1, until);
    RunKeepsInvariant(states, steps, 0, until - 1);
    if |states[until - 1].db.alerts| > j {
      n := BirthStep(states, steps, from, until - 1, j);
    } else {
      n := until - 1;
      assert StepAt(states, steps, n);
      StepAddsAlerts(states[n], steps[n]);
    }
  }

  /**
   Every alert of a run was stored by a committed evaluation of its tenant's rule, at the instant it
   carries, and each earlier alert of its key is at least the cooldown then in force older. The clock
   may have gone back in between, rules may have been edited, and evaluations rolled back.
   */
  lemma {:induction false} CooldownIsKept(states: seq<State>, steps: seq<Step>, j: nat) returns (n: nat, rule: Rule)
    requires Run(states, steps) && Inv(states[0].db)
    requires |states[0].db.alerts| <= j < |states[|steps|].db.alerts|
    ensures n < |steps| && steps[n].Eval? && steps[n].env.fault.None?
    ensures SelectRule(states[n].db.rules, steps[n].tenant) == Some(rule) && rule.cooldown > 0
    ensures var alerts := states[|steps|].db.alerts;
            && Keyed(alerts[j], steps[n].tenant, rule.id, alerts[j].srcIp)
            && alerts[j].triggeredAt == states[n].clock
            && forall i :: 0 <= i < j && SameKey(alerts[i], alerts[j]) ==>
                             alerts[i].triggeredAt + Seconds(rule.cooldown) <= alerts[j].triggeredAt
  {
    n := BirthStep(states, steps, 0, |steps|, j);
    rule := SelectRule(states[n].db.rules, steps[n].tenant).value;
    RunKeepsInvariant(states, steps, n + 1, |steps|);
    RunKeepsInvariant(states, steps, 0, n);
    SelectedRule(states[n].db, steps[n].tenant);
    var alerts := states[|steps|].db.alerts;
    assert forall i :: 0 <= i <= j ==> states[n + 1].db.alerts[i] == alerts[i];
  }

  /** A stored alert reports what its evaluation found, and reports it for ever. */
  lemma {:induction false} AlertsReportTheirBurst(states: seq<State>, steps: seq<Step>, j: nat, later: nat) returns (n: nat)
    requires Run(states, steps) && Inv(states[0].db) && later <= |steps|
    requires |states[0].db.alerts| <= j < |states[later].db.alerts|
    ensures n < later && steps[n].Eval? && SelectRule(states[n].db.rules, steps[n].tenant).Some?
    ensures var a := states[later].db.alerts[j];
            var rule := SelectRule(states[n].db.rules, steps[n].tenant).value;
            var times := Times(states[n].db.events, Query(a.tenant, a.triggeredAt, a.window), a.srcIp);
            && j < |states[|steps|].db.alerts| && a == states[|steps|].db.alerts[j]
            && a.threshold == rule.threshold && a.window == rule.window
            && a.eventCount == |times| >= a.threshold > 0
            && IsMinimum(a.windowStart, times) && IsMaximum(a.windowEnd, times)
  {
    n := BirthStep(states, steps, 0, later, j);
    RunKeepsInvariant(states, steps, later, |steps|);
    RunKeepsInvariant(states, steps, 0, n);
    var rule := SelectRule(states[n].db.rules, steps[n].tenant).value;
    SelectedRule(states[n].db, steps[n].tenant);
    var a := states[later].db.alerts[j];
    GroupsAreGroupBy(states[n].db.events, Query(rule.tenant, states[n].clock, rule.window), a.srcIp);
  }

  /** If no rule's cooldown is ever below `cooldown`, alerts of a key are at least that far apart. */
  lemma {:induction false} SpacedByLeastCooldown(states: seq<State>, steps: seq<Step>, cooldown: int)
    requires Run(states, steps) && Inv(states[0].db) && states[0].db.alerts == []
    requires forall n, k :: 0 <= n < |states| && 0 <= k < |states[n].db.rules| ==>
                              cooldown <= states[n].db.rules[k].cooldown
    ensures Spaced(states[|steps|].db.alerts, Seconds(cooldown))
  {
    var alerts := states[|steps|].db.alerts;
    forall i, j | 0 <= i < j < |alerts| && SameKey(alerts[i], alerts[j])
      ensures alerts[i].triggeredAt + Seconds(cooldown) <= alerts[j].triggeredAt
    {
      var n, rule := CooldownIsKept(states, steps, j);
      RunKeepsInvariant(states, steps, 0, n);
      SelectedRule(states[n].db, steps[n].tenant);
    }
  }

  /** How many alerts of one key lie in an interval. */
  function CountIn(alerts: seq<Alert>, tenant: string, ruleId: nat, ip: Ip, from: int, to: int): nat {
    if alerts == [] then 0
    else
      var a := alerts[|alerts| - 1];
      CountIn(alerts[..|alerts| - 1], tenant, ruleId, ip, from, to)
      + if Keyed(a, tenant, ruleId, ip) && from <= a.triggeredAt <= to then 1 else 0
  }

  lemma {:induction false} CountIgnoresLater(
    alerts: seq<Alert>, tenant: string, ruleId: nat, ip: Ip, from: int, mid: int, to: int)
    requires mid <= to
    requires forall k :: 0 <= k < |alerts| && Keyed(alerts[k], tenant, ruleId, ip) ==> alerts[k].triggeredAt <= mid
    ensures CountIn(alerts, tenant, ruleId, ip, from, mid) == CountIn(alerts, tenant, ruleId, ip, from, to)
  {
    if alerts != [] {
      CountIgnoresLater(alerts[..|alerts| - 1], tenant, ruleId, ip, from, mid, to);
    }
  }

  lemma {:induction false} NoneInEmptyInterval(alerts: seq<Alert>, tenant: string, ruleId: nat, ip: Ip, from: int, to: int)
    requires to < from
    ensures CountIn(alerts, tenant, ruleId, ip, from, to) == 0
  {
    if alerts != [] {
      NoneInEmptyInterval(alerts[..|alerts| - 1], tenant, ruleId, ip, from, to);
    }
  }

  lemma {:induction false} OneMore(gap: int, c: int)
    ensures gap * c == gap * (c - 1) + gap
  {
  }

  /** One alert less than the interval holds times the gap fits into it: at most 1 + floor(length / gap). */
  lemma {:induction false} IntervalHoldsFew(
    alerts: seq<Alert>, gap: int, tenant: string, ruleId: nat, ip: Ip, from: int, to: int)
    requires Spaced(alerts, gap) && gap > 0 && from <= to
    ensures gap * (CountIn(alerts, tenant, ruleId, ip, from, to) - 1) <= to - from
    decreases |alerts|
  {
    if alerts != [] {
      var init, a := alerts[..|alerts| - 1], alerts[|alerts| - 1];
      if Keyed(a, tenant, ruleId, ip) && from <= a.triggeredAt <= to {
        var mid := a.triggeredAt - gap;
        forall k | 0 <= k < |init| && Keyed(init[k], tenant, ruleId, ip)
          ensures init[k].triggeredAt <= mid
        {
          assert SameKey(alerts[k], a);
        }
        CountIgnoresLater(init, tenant, ruleId, ip, from, mid, to);
        if mid < from {
          NoneInEmptyInterval(init, tenant, ruleId, ip, from, mid);
        } else {
          IntervalHoldsFew(init, gap, tenant, ruleId, ip, from, mid);
          OneMore(gap, CountIn(init, tenant, ruleId, ip, from, mid));
        }
      } else {
        IntervalHoldsFew(init, gap, tenant, ruleId, ip, from, to);
      }
    }
  }

  /** In every run from an empty history, an interval holds at most 1 + floor(length / least cooldown) alerts of a key. */
  lemma {:induction false} RunsFireRarely(
    states: seq<State>, steps: seq<Step>, cooldown: int, tenant: string, ruleId: nat, ip: Ip, from: int, to: int)
    requires Run(states, steps) && Inv(states[0].db) && states[0].db.alerts == []
    requires cooldown > 0 && from <= to
    requires forall n, k :: 0 <= n < |states| && 0 <= k < |states[n].db.rules| ==>
                              cooldown <= states[n].db.rules[k].cooldown
    ensures Seconds(cooldown) * (CountIn(states[|steps|].db.alerts, tenant, ruleId, ip, from, to) - 1) <= to - from
  {
    SpacedByLeastCooldown(states, steps, cooldown);
    IntervalHoldsFew(states[|steps|].db.alerts, Seconds(cooldown), tenant, ruleId, ip, from, to);
  }
}
