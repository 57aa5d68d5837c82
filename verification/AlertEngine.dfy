/** The engine's code over the tables: transactions that insert alerts one by one and may be rolled back. */
module AlertEngine {
  import opened Text
  import opened AlertModel

  /** Every stored id was given out before. */
  predicate IdsBelow(alerts: seq<Alert>, next: nat) {
    forall k :: 0 <= k < |alerts| ==> alerts[k].id < next
  }

  /** `UPDATE alerts SET webhook_sent_at = now() WHERE id = ...`, under row-level security. */
  function MarkSent(alerts: seq<Alert>, tenant: string, id: nat, now: int): (r: seq<Alert>)
    ensures |r| == |alerts|
    ensures forall k :: 0 <= k < |alerts| ==>
                          r[k] == if alerts[k].id == id && alerts[k].tenant == tenant
                                  then alerts[k].(webhookSentAt := Some(now)) else alerts[k]
  {
    seq(|alerts|, k requires 0 <= k < |alerts| =>
      if alerts[k].id == id && alerts[k].tenant == tenant
      then alerts[k].(webhookSentAt := Some(now)) else alerts[k])
  }

  /** Only the row just inserted carries the fresh id. */
  lemma {:induction false} MarksOnlyTheNewAlert(alerts: seq<Alert>, a: Alert, now: int)
    requires IdsBelow(alerts, a.id)
    ensures MarkSent(alerts + [a], a.tenant, a.id, now) == alerts + [a.(webhookSentAt := Some(now))]
  {
  }

  lemma {:induction false} SelectedRuleIsOfTenant(rules: seq<Rule>, tenant: string)
    ensures SelectRule(rules, tenant).Some? ==>
              var r := SelectRule(rules, tenant).value; r in rules && r.tenant == tenant && r.enabled
    ensures SelectRule(rules, tenant).None? ==> forall r :: r in rules ==> r.tenant != tenant || !r.enabled
  {
    if rules != [] {
      SelectedRuleIsOfTenant(rules[1..], tenant);
      assert forall r :: r in rules <==> r == rules[0] || r in rules[1..];
    }
  }

  class AlertDatabase {
    var events: seq<Event>
    var rules: seq<Rule>
    var alerts: seq<Alert>
    var nextRule: nat
    var nextAlert: nat

    function State(): Db
      reads this
    {
      Db(events, rules, alerts, nextRule, nextAlert)
    }

    predicate Valid()
      reads this
    {
      IdsBelow(alerts, nextAlert)
    }

    method EvaluateTenant(tenant: string, env: Env) returns (raised: bool)
      requires Valid() && RowOrder(State(), tenant, env)
      modifies this`alerts, this`nextAlert
      ensures Valid() && State() == Evaluate(old(State()), tenant, env)
      ensures raised <==> env.fault.Some?
      ensures raised ==> alerts == old(alerts)
    {
      hide Found, SelectRule, PastCooldown, Distinct, MarkSent;
      var saved := alerts;
      var selected := SelectRule(rules, tenant);
      SelectedRuleIsOfTenant(rules, tenant);
      if selected.None? {
        return env.fault.Some?;
      }
      var rule := selected.value;
      var found := Found(State(), rule, env.now);
      assert forall k :: 0 <= k < |env.order| ==> env.order[k] in found;
      var i := 0;
      while i < |env.order| && env.fault != Some(i)
        invariant 0 <= i <= |env.order|
        invariant env.fault.Some? && env.fault.value <= |env.order| ==> i <= env.fault.value
        invariant IdsBelow(alerts, nextAlert) && old(nextAlert) <= nextAlert
        invariant Fired(alerts, nextAlert) == FireAll(Fired(saved, old(nextAlert)), rule, env.order[..i], found, env)
      {
        var ip := env.order[i];
        assert env.order[..i + 1][..i] == env.order[..i];
        if PastCooldown(alerts, rule, ip, env.now) {
          var id := nextAlert;
          var g := found[ip];
          var row := Alert(id, tenant, rule.id, ip, env.now, g.count, rule.threshold, rule.window, g.first, g.last, None);
          ghost var before := alerts;
          alerts, nextAlert := alerts + [row], nextAlert + 1;
          if ip in env.delivered {
            MarksOnlyTheNewAlert(before, row, env.now);
            alerts := MarkSent(alerts, tenant, id, env.now);
          }
        }
        i := i + 1;
      }
      assert env.order[..i] == Reached(env);
      if env.fault.Some? {
        alerts := saved;
        return true;
      }
      return false;
    }

    /**
     A tenant whose evaluation raises is skipped; the others are evaluated all the same. What other
     transactions commit before a turn is what the turn finds.
     */
    method RunOnceOver(visits: seq<Visit>)
      requires Valid() && forall k :: 0 <= k < |visits| ==> Ready(visits[k])
      modifies this
      ensures Valid() && State() == RunOnce(old(State()), visits)
    {
      for i := 0 to |visits|
        invariant Valid()
        invariant State() == RunOnce(old(State()), visits[..i])
      {
        var v := visits[i];
        assert visits[..i + 1][..i] == visits[..i] && Ready(v);
        events, rules, nextRule := v.events, v.rules, v.nextRule;
        var raised := EvaluateTenant(v.tenant, v.env);
      }
      assert visits[..|visits|] == visits;
    }

    /** One row is added, or none: an answer other than `Created` leaves the rules as they are. */
    method CreateAlertRule(tenant: string, s: Settings) returns (response: Response)
      modifies this`rules, this`nextRule
      ensures (State(), response) == CreateRule(old(State()), tenant, s)
      ensures response == Created ==>
                rules == old(rules) + [Rule(old(nextRule), tenant, s.threshold, s.window, s.cooldown, s.enabled)]
      ensures response == Created ==> tenant != "" && forall r :: r in old(rules) ==> r.tenant != tenant
      ensures response != Created ==> rules == old(rules)
    {
      if !Positive(s) {
        return Unprocessable;
      }
      if !FitsColumns(s) {
        return ServerError;
      }
      var id := nextRule;
      nextRule := nextRule + 1;
      if tenant == "" {
        return ServerError;
      }
      if HasRule(rules, tenant) {
        return Conflict;
      }
      rules := rules + [Rule(id, tenant, s.threshold, s.window, s.cooldown, s.enabled)];
      return Created;
    }

    /** Only a rule of the caller's tenant with the given id changes, and only in the settings that are named. */
    method UpdateAlertRule(tenant: string, id: int, p: Patch) returns (response: Response)
      modifies this`rules
      ensures (State(), response) == UpdateRule(old(State()), tenant, id, p)
      ensures |rules| == |old(rules)|
      ensures response == Updated ==> exists r :: r in old(rules) && r.id == id && r.tenant == tenant
      ensures forall k :: 0 <= k < |rules| && rules[k] != old(rules)[k] ==>
                response == Updated && old(rules)[k].id == id && old(rules)[k].tenant == tenant
                && rules[k] == Patched(old(rules)[k], p)
    {
      if !Positive(Named(p)) {
        return Unprocessable;
      }
      if p == NO_PATCH {
        return BadRequest;
      }
      if !FitsColumns(Named(p)) {
        return ServerError;
      }
      var k := FindRule(rules, tenant, id);
      if k == |rules| {
        return NotFound;
      }
      rules := rules[k := Patched(rules[k], p)];
      return Updated;
    }
  }
}
