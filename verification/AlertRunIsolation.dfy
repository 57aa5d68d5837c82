/** In every run each tenant sees what its own steps, run alone, would have shown it. */
module AlertRunIsolation {
  import opened Calendar
  import opened AlertModel
  import opened AlertEngine
  import opened AlertRuns
  import opened AlertIsolation

  /**
   What is left of a step when only one tenant is there. Dropped days and the clock concern all tenants;
   another tenant's creation leaves the number that it took.
   */
  function OwnStep(step: Step, tenant: string): seq<Step> {
    match step
    case Store(e) => if e.tenant == tenant then [step] else []
    case Create(owner, s) =>
      if owner == tenant then [step] else if Positive(s) && FitsColumns(s) then [SkipRuleId] else []
    case Update(owner, _, _) => if owner == tenant then [step] else []
    case Eval(t, _) => if t == tenant then [step] else []
    case DropDay(_) => [step]
    case SkipRuleId => [step]
    case SetClock(_) => [step]
  }

  function OwnSteps(steps: seq<Step>, tenant: string): seq<Step> {
    if steps == [] then []
    else OwnSteps(steps[..|steps| - 1], tenant) + OwnStep(steps[|steps| - 1], tenant)
  }

  /** `t` holds the tenant's part of `s`, up to the ids of alerts. */
  predicate HasPartOf(t: State, s: State, tenant: string) {
    t.clock == s.clock && SameUpToIds(t.db, Alone(s.db, tenant))
  }

  lemma {:induction false} EventsOfConcat(a: seq<Event>, b: seq<Event>, tenant: string)
    ensures EventsOf(a + b, tenant) == EventsOf(a, tenant) + EventsOf(b, tenant)
  {
    if b == [] {
      assert a + b == a;
    } else {
      assert (a + b)[..|a + b| - 1] == a + b[..|b| - 1];
      EventsOfConcat(a, b[..|b| - 1], tenant);
    }
  }

  lemma {:induction false} EventsOfHead(e: Event, rest: seq<Event>, tenant: string)
    ensures EventsOf([e] + rest, tenant)
         == if e.tenant == tenant then [e] + EventsOf(rest, tenant) else EventsOf(rest, tenant)
  {
    EventsOfConcat([e], rest, tenant);
    assert [e][..0] == [];
  }

  lemma {:induction false} NotOfDayHead(e: Event, rest: seq<Event>, day: int)
    ensures NotOfDay([e] + rest, day)
         == if DayOf(e.eventTime) == day then NotOfDay(rest, day) else [e] + NotOfDay(rest, day)
  {
    assert ([e] + rest)[1..] == rest;
  }

  lemma {:induction false} DropAlone(events: seq<Event>, day: int, tenant: string)
    ensures EventsOf(NotOfDay(events, day), tenant) == NotOfDay(EventsOf(events, tenant), day)
  {
    if events != [] {
      hide EventsOf, NotOfDay, DayOf;
      var e, rest := events[0], events[1..];
      assert events == [e] + rest;
      DropAlone(rest, day, tenant);
      EventsOfHead(e, rest, tenant);
      EventsOfHead(e, NotOfDay(rest, day), tenant);
      NotOfDayHead(e, rest, day);
      NotOfDayHead(e, EventsOf(rest, tenant), day);
    }
  }

  lemma {:induction false} RulesOfConcat(a: seq<Rule>, b: seq<Rule>, tenant: string)
    ensures RulesOf(a + b, tenant) == RulesOf(a, tenant) + RulesOf(b, tenant)
  {
    if a == [] {
      assert a + b == b;
    } else {
      assert (a + b)[1..] == a[1..] + b;
      RulesOfConcat(a[1..], b, tenant);
    }
  }

  lemma {:induction false} RulesOfHead(r: Rule, rest: seq<Rule>, tenant: string)
    ensures RulesOf([r] + rest, tenant)
         == if r.tenant == tenant then [r] + RulesOf(rest, tenant) else RulesOf(rest, tenant)
  {
    assert ([r] + rest)[1..] == rest;
  }

  lemma {:induction false} HasRuleAlone(rules: seq<Rule>, tenant: string)
    ensures HasRule(RulesOf(rules, tenant), tenant) <==> HasRule(rules, tenant)
  {
    RulesOfMembers(rules, tenant);
    if HasRule(rules, tenant) {
      var k :| 0 <= k < |rules| && rules[k].tenant == tenant;
      assert rules[k] in RulesOf(rules, tenant);
    }
    if HasRule(RulesOf(rules, tenant), tenant) {
      var k :| 0 <= k < |RulesOf(rules, tenant)| && RulesOf(rules, tenant)[k].tenant == tenant;
      assert RulesOf(rules, tenant)[k] in rules;
    }
  }

  lemma {:induction false} RulesOfMembers(rules: seq<Rule>, tenant: string)
    ensures forall r :: r in RulesOf(rules, tenant) <==> r in rules && r.tenant == tenant
  {
    if rules != [] {
      RulesOfMembers(rules[1..], tenant);
      assert forall r :: r in rules <==> r == rules[0] || r in rules[1..];
    }
  }

  /** The rules after an edit of the row that `FindRule` finds. */
  function Edited(rules: seq<Rule>, owner: string, id: int, p: Patch): seq<Rule> {
    var k := FindRule(rules, owner, id);
    if k == |rules| then rules else rules[k := Patched(rules[k], p)]
  }

  lemma {:induction false} EditedHead(r: Rule, rest: seq<Rule>, owner: string, id: int, p: Patch)
    ensures var found := FindRule([r] + rest, owner, id) < |[r] + rest|;
            if r.id == id && r.tenant == owner then found && Edited([r] + rest, owner, id, p) == [Patched(r, p)] + rest
            else (found <==> FindRule(rest, owner, id) < |rest|)
                 && Edited([r] + rest, owner, id, p) == [r] + Edited(rest, owner, id, p)
  {
    assert ([r] + rest)[1..] == rest;
  }

  lemma {:induction false} EditAlone(rules: seq<Rule>, owner: string, id: int, p: Patch, tenant: string)
    ensures owner == tenant ==>
              && RulesOf(Edited(rules, owner, id, p), tenant) == Edited(RulesOf(rules, tenant), owner, id, p)
              && (FindRule(RulesOf(rules, tenant), owner, id) < |RulesOf(rules, tenant)|
                  <==> FindRule(rules, owner, id) < |rules|)
    ensures owner != tenant ==> RulesOf(Edited(rules, owner, id, p), tenant) == RulesOf(rules, tenant)
  {
    if rules != [] {
      hide FindRule, Edited, RulesOf;
      var r, rest := rules[0], rules[1..];
      assert rules == [r] + rest;
      EditAlone(rest, owner, id, p, tenant);
      EditedHead(r, rest, owner, id, p);
      EditedHead(r, RulesOf(rest, tenant), owner, id, p);
      RulesOfHead(r, rest, tenant);
      RulesOfHead(Patched(r, p), rest, tenant);
      RulesOfHead(r, Edited(rest, owner, id, p), tenant);
    }
  }

  /** A step of the tenant, or of all, does to its part what it does among all rows. */
  lemma {:induction false} OwnEvaluation(s: State, t: State, step: Step, tenant: string)
    requires HasPartOf(t, s, tenant) && Enabled(s, step) && step.Eval? && step.tenant == tenant
    ensures Enabled(t, step) && HasPartOf(Apply(t, step), Apply(s, step), tenant)
  {
    hide Evaluate, AlertsOf, EventsOf, RulesOf, WithoutIds, RowOrder;
    var alone := Alone(s.db, tenant);
    AlertsOfTwice(s.db.alerts, tenant);
    EvaluateAlone(s.db, tenant, step.env);
    EvaluateIgnoresIds(t.db, alone, tenant, step.env);
    EvaluateKeepsOthers(s.db, tenant, step.env);
    EvaluateKeepsOthers(alone, tenant, step.env);
    EvaluationIsAlone(alone, tenant, step.env);
  }

  lemma {:induction false} EvaluateKeepsOthers(db: Db, tenant: string, env: Env)
    requires RowOrder(db, tenant, env)
    ensures var r := Evaluate(db, tenant, env); r == db.(alerts := r.alerts, nextAlert := r.nextAlert)
  {
  }

  /** Evaluated alone, a tenant's tables hold alerts of this tenant only. */
  lemma {:induction false} EvaluationIsAlone(db: Db, tenant: string, env: Env)
    requires RowOrder(db, tenant, env) && AlertsOf(db.alerts, tenant) == db.alerts
    ensures AlertsOf(Evaluate(db, tenant, env).alerts, tenant) == Evaluate(db, tenant, env).alerts
  {
    SelectedRuleIsOfTenant(db.rules, tenant);
    if SelectRule(db.rules, tenant).Some? && env.fault.None? {
      var rule := SelectRule(db.rules, tenant).value;
      CommitAdds(db, tenant, env);
      AlertsOfConcat(db.alerts, Added(db, rule, env), tenant);
      AlertsOfOne(Added(db, rule, env), tenant, tenant);
    }
  }

  lemma {:induction false} OwnEdit(s: State, t: State, step: Step, tenant: string)
    requires HasPartOf(t, s, tenant) && (step.Create? || step.Update?) && step.owner == tenant
    ensures HasPartOf(Apply(t, step), Apply(s, step), tenant)
  {
    hide AlertsOf, EventsOf, WithoutIds;
    if step.Create? {
      HasRuleAlone(s.db.rules, tenant);
      var rule := Rule(s.db.nextRule, tenant, step.settings.threshold, step.settings.window, step.settings.cooldown,
        step.settings.enabled);
      RulesOfConcat(s.db.rules, [rule], tenant);
      assert RulesOf([rule], tenant) == [rule];
    } else {
      EditAlone(s.db.rules, tenant, step.id, step.patch, tenant);
    }
  }

  lemma {:induction false} OwnStepAgrees(s: State, t: State, step: Step, tenant: string)
    requires HasPartOf(t, s, tenant) && Enabled(s, step) && OwnStep(step, tenant) == [step]
    ensures Enabled(t, step) && HasPartOf(Apply(t, step), Apply(s, step), tenant)
  {
    hide AlertsOf, WithoutIds, Evaluate, CreateRule, UpdateRule, NotOfDay;
    match step
    case Store(e) => EventsOfConcat(s.db.events, [e], tenant);
    case DropDay(day) => DropAlone(s.db.events, day, tenant);
    case Create(_, _) => OwnEdit(s, t, step, tenant);
    case Update(_, _, _) => OwnEdit(s, t, step, tenant);
    case Eval(_, _) => OwnEvaluation(s, t, step, tenant);
    case SkipRuleId =>
    case SetClock(_) =>
  }

  /** A step of another tenant leaves the tenant's part as it is, but for the number a creation takes. */
  lemma {:induction false} OtherStepLeaves(s: State, step: Step, tenant: string)
    requires Enabled(s, step) && OwnStep(step, tenant) != [step]
    ensures var skipped := if OwnStep(step, tenant) == [] then 0 else 1;
            var (before, after) := (Alone(s.db, tenant), Alone(Apply(s, step).db, tenant));
            && after == before.(nextRule := before.nextRule + skipped, nextAlert := after.nextAlert)
            && Apply(s, step).clock == s.clock
  {
    hide AlertsOf;
    match step
    case Store(e) => EventsOfConcat(s.db.events, [e], tenant);
    case Create(owner, settings) =>
      var rule := Rule(s.db.nextRule, owner, settings.threshold, settings.window, settings.cooldown, settings.enabled);
      RulesOfConcat(s.db.rules, [rule], tenant);
      assert RulesOf([rule], tenant) == [];
    case Update(owner, id, patch) => EditAlone(s.db.rules, owner, id, patch, tenant);
    case Eval(t, env) =>
      EvaluateOther(s.db, t, env, tenant);
      EvaluateKeepsOthers(s.db, t, env);
  }

  lemma {:induction false} RunSnoc(states: seq<State>, steps: seq<Step>, step: Step)
    requires Run(states, steps) && Enabled(states[|steps|], step)
    ensures Run(states + [Apply(states[|steps|], step)], steps + [step])
  {
    hide Enabled, Apply;
    var longer, all := states + [Apply(states[|steps|], step)], steps + [step];
    forall n | 0 <= n < |all|
      ensures StepAt(longer, all, n)
    {
      if n < |steps| {
        assert StepAt(states, steps, n);
      }
    }
  }

  lemma {:induction false} WholePart(s: State, tenant: string)
    ensures HasPartOf(State(s.clock, Alone(s.db, tenant)), s, tenant)
  {
  }

  lemma {:induction false} PartIsSeen(t: State, s: State, tenant: string)
    requires HasPartOf(t, s, tenant)
    ensures View(t.db, tenant) == View(s.db, tenant)
  {
    SameAlertView(t.db, Alone(s.db, tenant), tenant);
    RulesOfTwice(s.db.rules, tenant);
    AlertsOfTwice(s.db.alerts, tenant);
  }

  lemma {:induction false} OneStepIsolates(s: State, t: State, step: Step, tenant: string)
    requires HasPartOf(t, s, tenant) && Enabled(s, step)
    ensures var own := OwnStep(step, tenant);
            && |own| <= 1
            && (own == [] ==> HasPartOf(t, Apply(s, step), tenant) && View(t.db, tenant) == View(Apply(s, step).db, tenant))
            && (own != [] ==>
                  && Enabled(t, own[0]) && HasPartOf(Apply(t, own[0]), Apply(s, step), tenant)
                  && View(Apply(t, own[0]).db, tenant) == View(Apply(s, step).db, tenant))
  {
    hide View, Alone, AlertsOf, WithoutIds, RulesOf, EventsOf;
    var own := OwnStep(step, tenant);
    if own == [step] {
      OwnStepAgrees(s, t, step, tenant);
      PartIsSeen(Apply(t, step), Apply(s, step), tenant);
    } else {
      OtherStepLeaves(s, step, tenant);
      PartIsSeen(if own == [] then t else Apply(t, SkipRuleId), Apply(s, step), tenant);
    }
  }

  /**
   Isolation over runs. Whatever other tenants store, edit, evaluate or fail to, in any interleaving: the
   tenant's own steps, run alone from its own rows, with the same clock and the same environment, make
   up a run, and what the tenant sees after it is what it sees among all.
   */
  lemma {:induction false} RunIsolatesTenants(states: seq<State>, steps: seq<Step>, n: nat, tenant: string)
      returns (alone: seq<State>)
    requires Run(states, steps) && n <= |steps|
    ensures Run(alone, OwnSteps(steps[..n], tenant)) && alone[0] == State(states[0].clock, Alone(states[0].db, tenant))
    ensures var t := alone[|alone| - 1];
            HasPartOf(t, states[n], tenant) && View(t.db, tenant) == View(states[n].db, tenant)
    decreases n
  {
    hide OwnStep, Apply, Enabled, Alone, View, HasPartOf;
    if n == 0 {
      var t := State(states[0].clock, Alone(states[0].db, tenant));
      alone := [t];
      assert steps[..0] == [];
      assert HasPartOf(t, states[0], tenant) by {
        WholePart(states[0], tenant);
      }
      PartIsSeen(t, states[0], tenant);
    } else {
      alone := RunIsolatesTenants(states, steps, n - 1, tenant);
      assert StepAt(states, steps, n - 1);
      assert steps[..n][..n - 1] == steps[..n - 1];
      var own := OwnStep(steps[n - 1], tenant);
      assert OwnSteps(steps[..n], tenant) == OwnSteps(steps[..n - 1], tenant) + own;
      var t := alone[|alone| - 1];
      OneStepIsolates(states[n - 1], t, steps[n - 1], tenant);
      if own != [] {
        assert own == [own[0]];
        RunSnoc(alone, OwnSteps(steps[..n - 1], tenant), own[0]);
        alone := alone + [Apply(t, own[0])];
      } else {
        assert OwnSteps(steps[..n - 1], tenant) + [] == OwnSteps(steps[..n - 1], tenant);
      }
    }
  }
}
