/** One tick over all tenants gives each tenant what evaluating it alone would have given. */
module AlertIsolation {
  import opened AlertModel
  import opened AlertEngine
  import opened AlertRuns

  // ---- The part of the tables that belongs to one tenant ----

  function EventsOf(events: seq<Event>, tenant: string): seq<Event> {
    if events == [] then []
    else
      var e := events[|events| - 1];
      EventsOf(events[..|events| - 1], tenant) + if e.tenant == tenant then [e] else []
  }

  function RulesOf(rules: seq<Rule>, tenant: string): seq<Rule> {
    if rules == [] then []
    else (if rules[0].tenant == tenant then [rules[0]] else []) + RulesOf(rules[1..], tenant)
  }

  function AlertsOf(alerts: seq<Alert>, tenant: string): seq<Alert> {
    if alerts == [] then []
    else
      var a := alerts[|alerts| - 1];
      AlertsOf(alerts[..|alerts| - 1], tenant) + if a.tenant == tenant then [a] else []
  }

  /** The tenant's rows alone. */
  function Alone(db: Db, tenant: string): Db {
    Db(EventsOf(db.events, tenant), RulesOf(db.rules, tenant), AlertsOf(db.alerts, tenant), db.nextRule, db.nextAlert)
  }

  /** The rows without the ids that the shared identity column happened to give out. */
  function WithoutIds(alerts: seq<Alert>): (r: seq<Alert>)
    ensures |r| == |alerts| && forall k :: 0 <= k < |alerts| ==> r[k] == alerts[k].(id := 0)
  {
    if alerts == [] then [] else WithoutIds(alerts[..|alerts| - 1]) + [alerts[|alerts| - 1].(id := 0)]
  }

  function AlertView(db: Db, tenant: string): seq<Alert> {
    WithoutIds(AlertsOf(db.alerts, tenant))
  }

  /** What the tenant can see of its rules and alerts, up to ids. */
  function View(db: Db, tenant: string): (seq<Rule>, seq<Alert>) {
    (RulesOf(db.rules, tenant), AlertView(db, tenant))
  }

  // ---- A tenant's evaluation reads nothing of other tenants ----

  lemma {:induction false} GroupsAlone(events: seq<Event>, q: Query)
    ensures Groups(EventsOf(events, q.tenant), q) == Groups(events, q)
  {
    hide Groups, FailedLogin, AddTo, Lookup;
    if events != [] {
      var init, e := events[..|events| - 1], events[|events| - 1];
      assert events == init + [e];
      GroupsAlone(init, q);
      OneMoreRow(init, e, q);
      OneMoreRow(EventsOf(init, q.tenant), e, q);
      assert EventsOf(init, q.tenant) + [] == EventsOf(init, q.tenant);
    }
  }

  lemma {:induction false} SelectRuleAlone(rules: seq<Rule>, tenant: string)
    ensures SelectRule(RulesOf(rules, tenant), tenant) == SelectRule(rules, tenant)
  {
    if rules != [] {
      SelectRuleAlone(rules[1..], tenant);
      var rest := RulesOf(rules[1..], tenant);
      if rules[0].tenant == tenant {
        assert ([rules[0]] + rest)[1..] == rest;
      } else {
        assert [] + rest == rest;
      }
    }
  }

  lemma {:induction false} LastTriggeredAlone(alerts: seq<Alert>, tenant: string, ruleId: nat, ip: Ip)
    ensures LastTriggered(AlertsOf(alerts, tenant), tenant, ruleId, ip) == LastTriggered(alerts, tenant, ruleId, ip)
  {
    if alerts != [] {
      var init, a := alerts[..|alerts| - 1], alerts[|alerts| - 1];
      LastTriggeredAlone(init, tenant, ruleId, ip);
      var own := AlertsOf(init, tenant);
      if a.tenant == tenant {
        assert (own + [a])[..|own|] == own;
      } else {
        assert own + [] == own;
      }
    }
  }

  lemma {:induction false} EligibleAlone(alerts: seq<Alert>, rule: Rule, order: seq<Ip>, now: int)
    ensures Eligible(AlertsOf(alerts, rule.tenant), rule, order, now) == Eligible(alerts, rule, order, now)
  {
    if order != [] {
      EligibleAlone(alerts, rule, order[..|order| - 1], now);
      LastTriggeredAlone(alerts, rule.tenant, rule.id, order[|order| - 1]);
    }
  }

  lemma {:induction false} AlertsOfConcat(a: seq<Alert>, b: seq<Alert>, tenant: string)
    ensures AlertsOf(a + b, tenant) == AlertsOf(a, tenant) + AlertsOf(b, tenant)
  {
    if b == [] {
      assert a + b == a;
    } else {
      assert (a + b)[..|a + b| - 1] == a + b[..|b| - 1];
      AlertsOfConcat(a, b[..|b| - 1], tenant);
    }
  }

  lemma {:induction false} AlertsOfOne(alerts: seq<Alert>, owner: string, tenant: string)
    requires forall k :: 0 <= k < |alerts| ==> alerts[k].tenant == owner
    ensures AlertsOf(alerts, tenant) == if owner == tenant then alerts else []
  {
    if alerts != [] {
      AlertsOfOne(alerts[..|alerts| - 1], owner, tenant);
    }
  }

  /** The rows a committed evaluation adds, up to ids, depend on the tenant's own rows only. */
  lemma {:induction false} AddedAlone(db: Db, tenant: string, env: Env)
    requires RowOrder(db, tenant, env) && SelectRule(db.rules, tenant).Some?
    requires SelectRule(db.rules, tenant).value.tenant == tenant
    ensures var rule := SelectRule(db.rules, tenant).value;
            && Found(Alone(db, tenant), rule, env.now) == Found(db, rule, env.now)
            && WithoutIds(Added(Alone(db, tenant), rule, env)) == WithoutIds(Added(db, rule, env))
  {
    var rule := SelectRule(db.rules, tenant).value;
    GroupsAlone(db.events, Query(tenant, env.now, rule.window));
    EligibleAlone(db.alerts, rule, env.order, env.now);
  }

  /** Evaluating the tenant among the rows of all tenants shows it what evaluating it alone shows. */
  lemma {:induction false} EvaluateAlone(db: Db, tenant: string, env: Env)
    requires RowOrder(db, tenant, env)
    ensures RowOrder(Alone(db, tenant), tenant, env)
    ensures View(Evaluate(db, tenant, env), tenant) == View(Evaluate(Alone(db, tenant), tenant, env), tenant)
    ensures env.fault.Some? ==> View(Evaluate(db, tenant, env), tenant) == View(db, tenant)
  {
    var own := Alone(db, tenant);
    SelectRuleAlone(db.rules, tenant);
    SelectedRuleIsOfTenant(db.rules, tenant);
    RulesOfTwice(db.rules, tenant);
    AlertsOfTwice(db.alerts, tenant);
    if SelectRule(db.rules, tenant).Some? {
      var rule := SelectRule(db.rules, tenant).value;
      AddedAlone(db, tenant, env);
      if env.fault.None? {
        CommitAdds(db, tenant, env);
        CommitAdds(own, tenant, env);
        ViewOfAdded(db.alerts, Added(db, rule, env), tenant);
        ViewOfAdded(own.alerts, Added(own, rule, env), tenant);
      }
    }
  }

  lemma {:induction false} ViewOfAdded(alerts: seq<Alert>, more: seq<Alert>, tenant: string)
    requires forall k :: 0 <= k < |more| ==> more[k].tenant == tenant
    ensures WithoutIds(AlertsOf(alerts + more, tenant)) == WithoutIds(AlertsOf(alerts, tenant)) + WithoutIds(more)
  {
    AlertsOfConcat(alerts, more, tenant);
    AlertsOfOne(more, tenant, tenant);
    hide AlertsOf;
    WithoutIdsConcat(AlertsOf(alerts, tenant), more);
  }

  lemma {:induction false} WithoutIdsConcat(a: seq<Alert>, b: seq<Alert>)
    ensures WithoutIds(a + b) == WithoutIds(a) + WithoutIds(b)
  {
    hide WithoutIds;
  }

  lemma {:induction false} RulesOfTwice(rules: seq<Rule>, tenant: string)
    ensures RulesOf(RulesOf(rules, tenant), tenant) == RulesOf(rules, tenant)
  {
    if rules != [] {
      RulesOfTwice(rules[1..], tenant);
      var rest := RulesOf(rules[1..], tenant);
      if rules[0].tenant == tenant {
        assert ([rules[0]] + rest)[1..] == rest;
      } else {
        assert [] + rest == rest;
      }
    }
  }

  lemma {:induction false} AlertsOfTwice(alerts: seq<Alert>, tenant: string)
    ensures AlertsOf(AlertsOf(alerts, tenant), tenant) == AlertsOf(alerts, tenant)
    ensures forall k :: 0 <= k < |AlertsOf(alerts, tenant)| ==> AlertsOf(alerts, tenant)[k].tenant == tenant
  {
    if alerts != [] {
      AlertsOfTwice(alerts[..|alerts| - 1], tenant);
      AlertsOfOne(AlertsOf(alerts, tenant), tenant, tenant);
    }
  }

  /** Evaluating one tenant shows nothing to another. */
  lemma {:induction false} EvaluateOther(db: Db, tenant: string, env: Env, other: string)
    requires RowOrder(db, tenant, env) && other != tenant
    ensures Alone(Evaluate(db, tenant, env), other).(nextAlert := 0) == Alone(db, other).(nextAlert := 0)
  {
    SelectedRuleIsOfTenant(db.rules, tenant);
    if SelectRule(db.rules, tenant).Some? && env.fault.None? {
      var rule := SelectRule(db.rules, tenant).value;
      CommitAdds(db, tenant, env);
      AlertsOfConcat(db.alerts, Added(db, rule, env), other);
      AlertsOfOne(Added(db, rule, env), tenant, other);
    }
  }

  lemma {:induction false} LastTriggeredIgnoresIds(a: seq<Alert>, b: seq<Alert>, tenant: string, ruleId: nat, ip: Ip)
    requires WithoutIds(a) == WithoutIds(b)
    ensures LastTriggered(a, tenant, ruleId, ip) == LastTriggered(b, tenant, ruleId, ip)
  {
    if a != [] {
      var n := |a| - 1;
      assert |WithoutIds(a)| == |WithoutIds(b)|;
      assert WithoutIds(a)[n] == WithoutIds(b)[n];
      assert WithoutIds(a[..n]) == WithoutIds(a)[..n] == WithoutIds(b)[..n] == WithoutIds(b[..n]);
      LastTriggeredIgnoresIds(a[..n], b[..n], tenant, ruleId, ip);
    }
  }

  lemma {:induction false} EligibleIgnoresIds(a: seq<Alert>, b: seq<Alert>, rule: Rule, order: seq<Ip>, now: int)
    requires WithoutIds(a) == WithoutIds(b)
    ensures Eligible(a, rule, order, now) == Eligible(b, rule, order, now)
  {
    hide LastTriggered, WithoutIds;
    if order != [] {
      EligibleIgnoresIds(a, b, rule, order[..|order| - 1], now);
      LastTriggeredIgnoresIds(a, b, rule.tenant, rule.id, order[|order| - 1]);
    }
  }

  /** The same tables, up to the ids of alerts. */
  predicate SameUpToIds(d: Db, db: Db) {
    WithoutIds(d.alerts) == WithoutIds(db.alerts) && d == db.(alerts := d.alerts, nextAlert := d.nextAlert)
  }

  /** The ids that alerts have, and the next one, do not matter to an evaluation. */
  lemma {:induction false} EvaluateIgnoresIds(d: Db, db: Db, tenant: string, env: Env)
    requires RowOrder(db, tenant, env) && SameUpToIds(d, db)
    ensures RowOrder(d, tenant, env)
    ensures SameUpToIds(Evaluate(d, tenant, env), Evaluate(db, tenant, env))
  {
    SelectedRuleIsOfTenant(db.rules, tenant);
    if SelectRule(db.rules, tenant).Some? && env.fault.None? {
      var rule := SelectRule(db.rules, tenant).value;
      CommitAdds(db, tenant, env);
      CommitAdds(d, tenant, env);
      EligibleIgnoresIds(d.alerts, db.alerts, rule, env.order, env.now);
      assert WithoutIds(Added(db, rule, env)) == WithoutIds(Added(d, rule, env));
      WithoutIdsConcat(db.alerts, Added(db, rule, env));
      WithoutIdsConcat(d.alerts, Added(d, rule, env));
    }
  }

  // ---- Ticks ----

  lemma {:induction false} SameAlertView(d: Db, db: Db, tenant: string)
    requires SameUpToIds(d, db)
    ensures View(d, tenant) == View(db, tenant)
  {
    AlertsOfIgnoresIds(d.alerts, db.alerts, tenant);
  }

  lemma {:induction false} AlertsOfIgnoresIds(a: seq<Alert>, b: seq<Alert>, tenant: string)
    requires WithoutIds(a) == WithoutIds(b)
    ensures WithoutIds(AlertsOf(a, tenant)) == WithoutIds(AlertsOf(b, tenant))
  {
    if a != [] {
      var n := |a| - 1;
      assert |WithoutIds(a)| == |WithoutIds(b)|;
      assert WithoutIds(a)[n] == WithoutIds(b)[n];
      assert WithoutIds(a[..n]) == WithoutIds(a)[..n] == WithoutIds(b)[..n] == WithoutIds(b[..n]);
      AlertsOfIgnoresIds(a[..n], b[..n], tenant);
      if a[n].tenant == tenant {
        WithoutIdsConcat(AlertsOf(a[..n], tenant), [a[n]]);
        WithoutIdsConcat(AlertsOf(b[..n], tenant), [b[n]]);
      }
    }
  }

  ghost predicate TickReady(visits: seq<Visit>) {
    forall k :: 0 <= k < |visits| ==> Ready(visits[k])
  }

  lemma {:induction false} ReadyAmongAny(db: Db, v: Visit)
    requires Ready(v)
    ensures RowOrder(Meanwhile(db, v), v.tenant, v.env)
  {
  }

  lemma {:induction false} TickLeavesOthers(db: Db, visits: seq<Visit>, other: string)
    requires TickReady(visits) && forall k :: 0 <= k < |visits| ==> visits[k].tenant != other
    ensures AlertsOf(RunOnce(db, visits).alerts, other) == AlertsOf(db.alerts, other)
  {
    if visits != [] {
      var init, v := visits[..|visits| - 1], visits[|visits| - 1];
      TickLeavesOthers(db, init, other);
      assert Ready(v);
      EvaluateOther(Meanwhile(RunOnce(db, init), v), v.tenant, v.env, other);
    }
  }

  /**
   Fault isolation. After a tick over distinct tenants, in any order and with any commits in between, the
   alerts of a tenant are the result of evaluating alone the rows of its own that its turn found; a
   tenant whose evaluation raised, and a tenant not visited, has the alerts it had before. No other
   tenant's rows, order or failure matter.
   */
  lemma {:induction false} TickIsolatesTenants(db: Db, visits: seq<Visit>, tenant: string)
    requires TickReady(visits) && forall i, j :: 0 <= i < j < |visits| ==> visits[i].tenant != visits[j].tenant
    ensures forall k :: 0 <= k < |visits| && visits[k].tenant == tenant ==>
              var own := Alone(Meanwhile(db, visits[k]), tenant);
              && RowOrder(own, tenant, visits[k].env)
              && AlertView(RunOnce(db, visits), tenant) == AlertView(Evaluate(own, tenant, visits[k].env), tenant)
              && (visits[k].env.fault.Some? ==> AlertView(RunOnce(db, visits), tenant) == AlertView(db, tenant))
    ensures (forall k :: 0 <= k < |visits| ==> visits[k].tenant != tenant) ==>
              AlertView(RunOnce(db, visits), tenant) == AlertView(db, tenant)
  {
    hide Evaluate, RowOrder, Ready, WithoutIds, RulesOf, EventsOf;
    if visits != [] {
      var n := |visits| - 1;
      var init, v := visits[..n], visits[n];
      assert TickReady(init) && Ready(v);
      var mid := Meanwhile(RunOnce(db, init), v);
      ReadyAmongAny(mid, v);
      ReadyAmongAny(db, v);
      if v.tenant == tenant {
        TickLeavesOthers(db, init, tenant);
        EvaluateAlone(mid, tenant, v.env);
        var own := Alone(Meanwhile(db, v), tenant);
        assert Alone(mid, tenant) == own.(nextAlert := mid.nextAlert);
        EvaluateAlone(Meanwhile(db, v), tenant, v.env);
        EvaluateIgnoresIds(Alone(mid, tenant), own, tenant, v.env);
        SameAlertView(Evaluate(Alone(mid, tenant), tenant, v.env), Evaluate(own, tenant, v.env), tenant);
      } else {
        TickIsolatesTenants(db, init, tenant);
        EvaluateOther(mid, v.tenant, v.env, tenant);
        assert forall k :: 0 <= k < n ==> visits[k] == init[k];
      }
    }
  }
}
