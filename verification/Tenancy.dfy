/** Row-level security on reused connections: a transaction-local `app.tenant` decides what is read and stored. */
module Tenancy {
  import opened Text
  import PartitionModel

  datatype Row = Row(tenant: string, content: string)

  /**
   A connection. `setting` is `app.tenant`: `None` before it was ever set, the empty string once a
   transaction that set it has ended. `chosen` is the tenant set in the transaction now open.
   */
  datatype Conn = Conn(setting: Option<string>, open: bool, failed: bool, chosen: Option<string>, pending: seq<Row>)

  const FRESH := Conn(None, false, false, None, [])

  datatype State = State(rows: seq<Row>, conns: map<nat, Conn>)

  /** Every path of the code sets the tenant once in a transaction. */
  datatype Step =
    | Connect(c: nat)
    | Begin(c: nat)
    | SetTenant(c: nat, tenant: string)
    | Read(c: nat)
    | Store(c: nat, row: Row)
    | End(c: nat, commit: bool)

  // ---- The policy ----

  function OfTenant(rows: seq<Row>, tenant: string): seq<Row> {
    if rows == [] then []
    else
      var r := rows[|rows| - 1];
      OfTenant(rows[..|rows| - 1], tenant) + if r.tenant == tenant then [r] else []
  }

  /** USING (tenant = current_setting('app.tenant', true)): comparing with NULL is never true. */
  function Visible(rows: seq<Row>, setting: Option<string>): seq<Row> {
    if setting.None? then [] else OfTenant(rows, setting.value)
  }

  /** WITH CHECK of the policy, and CHECK (tenant <> ''). */
  predicate MayStore(row: Row, setting: Option<string>) {
    setting == Some(row.tenant) && row.tenant != ""
  }

  /** A partition addressed by its own name: its own security decides, not that of the parent. */
  function VisibleDirectly(rows: seq<Row>, security: PartitionModel.Security, setting: Option<string>): seq<Row> {
    if !security.enabled then rows else if !security.policy then [] else Visible(rows, setting)
  }

  // ---- Steps ----

  predicate Enabled(s: State, step: Step) {
    match step
    case Connect(c) => c !in s.conns
    case Begin(c) => c in s.conns && !s.conns[c].open
    case SetTenant(c, _) => c in s.conns && !s.conns[c].failed && s.conns[c].chosen.None?
    case Read(c) => c in s.conns && !s.conns[c].failed
    case Store(c, _) => c in s.conns && !s.conns[c].failed
    case End(c, _) => c in s.conns && s.conns[c].open
  }

  /** `set_config(..., true)`; on an autocommit connection its own transaction ends with it. */
  function Set(k: Conn, tenant: string): Conn {
    if k.open then k.(setting := Some(tenant), chosen := Some(tenant)) else k.(setting := Some(""))
  }

  /** An insert the policy or the constraint refuses raises, and fails the open transaction. */
  function Insert(s: State, c: nat, row: Row): State
    requires c in s.conns
  {
    var k := s.conns[c];
    if !MayStore(row, k.setting) then s.(conns := s.conns[c := k.(failed := k.open)])
    else if k.open then s.(conns := s.conns[c := k.(pending := k.pending + [row])])
    else s.(rows := s.rows + [row])
  }

  /** The end of a transaction resets a setting made in it; a failed one is rolled back. */
  function Close(s: State, c: nat, commit: bool): State
    requires c in s.conns
  {
    var k := s.conns[c];
    var closed := Conn(if k.chosen.Some? then Some("") else k.setting, false, false, None, []);
    State(if commit && !k.failed then s.rows + k.pending else s.rows, s.conns[c := closed])
  }

  function Apply(s: State, step: Step): State
    requires Enabled(s, step)
  {
    match step
    case Connect(c) => s.(conns := s.conns[c := FRESH])
    case Begin(c) => s.(conns := s.conns[c := s.conns[c].(open := true)])
    case SetTenant(c, tenant) => s.(conns := s.conns[c := Set(s.conns[c], tenant)])
    case Read(c) => s
    case Store(c, row) => Insert(s, c, row)
    case End(c, commit) => Close(s, c, commit)
  }

  /** What a read on the connection returns. */
  function ReadResult(s: State, c: nat): seq<Row>
    requires c in s.conns
  {
    Visible(s.rows + s.conns[c].pending, s.conns[c].setting)
  }

  /** What each step does to the connection it is made on and to the stored rows; no other connection changes. */
  lemma {:induction false} StepDoes(s: State, step: Step)
    requires Enabled(s, step)
    ensures var t := Apply(s, step);
            && t.conns.Keys == s.conns.Keys + {step.c}
            && (forall d :: d in s.conns && d != step.c ==> t.conns[d] == s.conns[d])
            && (step.Connect? ==> t.rows == s.rows && t.conns[step.c] == Conn(None, false, false, None, []))
            && (!step.Connect? ==>
                  var (k, l) := (s.conns[step.c], t.conns[step.c]);
                  && (step.Begin? ==> t.rows == s.rows && l == k.(open := true))
                  && (step.SetTenant? && k.open ==>
                        t.rows == s.rows && l == k.(setting := Some(step.tenant), chosen := Some(step.tenant)))
                  && (step.SetTenant? && !k.open ==> t.rows == s.rows && l == k.(setting := Some("")))
                  && (step.Read? ==> t == s)
                  && (step.Store? ==>
                        if k.setting != Some(step.row.tenant) || step.row.tenant == "" then
                          t.rows == s.rows && l == k.(failed := k.open)
                        else if k.open then t.rows == s.rows && l == k.(pending := k.pending + [step.row])
                        else t.rows == s.rows + [step.row] && l == k)
                  && (step.End? ==>
                        && t.rows == s.rows + (if step.commit && !k.failed then k.pending else [])
                        && !l.open && !l.failed && l.chosen == None && l.pending == []
                        && l.setting == if k.chosen.Some? then Some("") else k.setting))
  {
  }

  ghost predicate Run(states: seq<State>, steps: seq<Step>) {
    && |states| == |steps| + 1
    && forall n :: 0 <= n < |steps| ==> StepAt(states, steps, n)
  }

  predicate StepAt(states: seq<State>, steps: seq<Step>, n: nat)
    requires n < |steps| && |states| == |steps| + 1
  {
    Enabled(states[n], steps[n]) && states[n + 1] == Apply(states[n], steps[n])
  }

  // ---- The invariant ----

  predicate Named(rows: seq<Row>) {
    forall k :: 0 <= k < |rows| ==> rows[k].tenant != ""
  }

  /** Unless the open transaction has set it, the setting is NULL or empty; and no row has an empty tenant. */
  predicate ConnOk(k: Conn) {
    && (k.chosen.Some? ==> k.open && k.setting == k.chosen)
    && (k.chosen.None? ==> k.setting == None || k.setting == Some(""))
    && (!k.open ==> k.pending == [] && !k.failed)
    && (forall i :: 0 <= i < |k.pending| ==> k.chosen == Some(k.pending[i].tenant))
    && Named(k.pending)
  }

  predicate Inv(s: State) {
    Named(s.rows) && forall c :: c in s.conns ==> ConnOk(s.conns[c])
  }

  lemma {:induction false} StepKeepsInvariant(s: State, step: Step)
    requires Inv(s) && Enabled(s, step)
    ensures Inv(Apply(s, step))
  {
  }

  lemma {:induction false} RunKeepsInvariant(states: seq<State>, steps: seq<Step>, n: nat)
    requires Run(states, steps) && Inv(states[0]) && n <= |steps|
    ensures Inv(states[n])
    decreases n
  {
    if n > 0 {
      RunKeepsInvariant(states, steps, n - 1);
      assert StepAt(states, steps, n - 1);
      StepKeepsInvariant(states[n - 1], steps[n - 1]);
    }
  }

  lemma {:induction false} NoneOfEmptyTenant(rows: seq<Row>)
    requires Named(rows)
    ensures OfTenant(rows, "") == []
  {
    if rows != [] {
      NoneOfEmptyTenant(rows[..|rows| - 1]);
    }
  }

  lemma {:induction false} OfTenantMembers(rows: seq<Row>, tenant: string)
    ensures forall r :: r in OfTenant(rows, tenant) <==> r in rows && r.tenant == tenant
  {
    if rows != [] {
      var init, last := rows[..|rows| - 1], rows[|rows| - 1];
      OfTenantMembers(init, tenant);
      assert forall r :: r in rows <==> r in init || r == last;
    }
  }

  /** Each row of the tenant as often as it is there, and none of others. */
  lemma {:induction false} OfTenantCounts(rows: seq<Row>, tenant: string, r: Row)
    ensures multiset(OfTenant(rows, tenant))[r] == if r.tenant == tenant then multiset(rows)[r] else 0
  {
    if rows != [] {
      var init, last := rows[..|rows| - 1], rows[|rows| - 1];
      OfTenantCounts(init, tenant, r);
      assert rows == init + [last];
      var more := if last.tenant == tenant then [last] else [];
      assert multiset(OfTenant(rows, tenant)) == multiset(OfTenant(init, tenant)) + multiset(more);
    }
  }

  /**
   In any interleaving of connections, a read returns exactly the rows of the tenant that its own open
   transaction has set, and nothing when it has set none: nothing left behind by an earlier user of
   the connection matters.
   */
  lemma {:induction false} ReadsAreScoped(states: seq<State>, steps: seq<Step>, n: nat, c: nat)
    requires Run(states, steps) && Inv(states[0]) && n <= |steps| && c in states[n].conns
    ensures var k := states[n].conns[c];
            && (k.chosen.None? ==> ReadResult(states[n], c) == [])
            && (k.chosen.Some? ==> forall r :: r in ReadResult(states[n], c) <==>
                                     (r in states[n].rows || r in k.pending) && r.tenant == k.chosen.value)
  {
    RunKeepsInvariant(states, steps, n);
    var s := states[n];
    var rows := s.rows + s.conns[c].pending;
    assert Named(rows);
    NoneOfEmptyTenant(rows);
    if s.conns[c].chosen.Some? {
      OfTenantMembers(rows, s.conns[c].chosen.value);
      assert forall r :: r in rows <==> r in s.rows || r in s.conns[c].pending;
    }
  }

  /** The same on a secured partition addressed by name; without security it shows all rows, without policy none. */
  lemma {:induction false} DirectReadsAreScoped(rows: seq<Row>, k: Conn)
    requires Named(rows) && ConnOk(k)
    ensures VisibleDirectly(rows, PartitionModel.SECURED, k.setting)
         == if k.chosen.Some? then OfTenant(rows, k.chosen.value) else []
    ensures forall forced, policy ::
              VisibleDirectly(rows, PartitionModel.Security(false, forced, policy), k.setting) == rows
    ensures forall forced :: VisibleDirectly(rows, PartitionModel.Security(true, forced, false), k.setting) == []
  {
    NoneOfEmptyTenant(rows);
  }

  lemma {:induction false} OfTenantConcat(a: seq<Row>, b: seq<Row>, tenant: string)
    ensures OfTenant(a + b, tenant) == OfTenant(a, tenant) + OfTenant(b, tenant)
  {
    if b == [] {
      assert a + b == a;
    } else {
      assert (a + b)[..|a + b| - 1] == a + b[..|b| - 1];
      OfTenantConcat(a, b[..|b| - 1], tenant);
    }
  }

  lemma {:induction false} OfTenantAll(rows: seq<Row>, owner: string, tenant: string)
    requires forall k :: 0 <= k < |rows| ==> rows[k].tenant == owner
    ensures OfTenant(rows, tenant) == if owner == tenant then rows else []
  {
    if rows != [] {
      OfTenantAll(rows[..|rows| - 1], owner, tenant);
    }
  }

  /** The rows that a step makes permanent for a tenant. */
  function Committed(s: State, step: Step, tenant: string): seq<Row>
    requires Enabled(s, step)
  {
    if step.End? && step.commit && !s.conns[step.c].failed && s.conns[step.c].chosen == Some(tenant)
    then s.conns[step.c].pending else []
  }

  lemma {:induction false} PendingOfTenant(k: Conn, tenant: string)
    requires ConnOk(k)
    ensures OfTenant(k.pending, tenant) == if k.chosen == Some(tenant) then k.pending else []
  {
    if k.pending != [] {
      OfTenantAll(k.pending, k.pending[0].tenant, tenant);
    }
  }

  /** A tenant's stored rows change only by commits of transactions that have set this tenant. */
  lemma {:induction false} WritesAreScoped(s: State, step: Step, tenant: string)
    requires Inv(s) && Enabled(s, step)
    ensures OfTenant(Apply(s, step).rows, tenant) == OfTenant(s.rows, tenant) + Committed(s, step, tenant)
  {
    hide OfTenant;
    if step.End? {
      OfTenantConcat(s.rows, s.conns[step.c].pending, tenant);
      PendingOfTenant(s.conns[step.c], tenant);
    }
  }

  // ---- Non-interference over runs ----

  /** The steps made on the connections `mine`, in order. */
  function StepsOn(steps: seq<Step>, mine: set<nat>): seq<Step> {
    if steps == [] then []
    else
      var last := steps[|steps| - 1];
      StepsOn(steps[..|steps| - 1], mine) + if last.c in mine then [last] else []
  }

  /** The step is not that of another connection setting the tenant. */
  predicate StaysAway(step: Step, mine: set<nat>, tenant: string) {
    step.SetTenant? && step.c !in mine ==> step.tenant != tenant
  }

  /** No open transaction of another connection is the tenant's. */
  predicate Apart(s: State, mine: set<nat>, tenant: string) {
    forall c :: c in s.conns && c !in mine ==> s.conns[c].chosen != Some(tenant)
  }

  /** The databases agree on the tenant's rows and on the connections `mine`, whatever else they hold. */
  predicate SameFor(s: State, t: State, mine: set<nat>, tenant: string) {
    && OfTenant(s.rows, tenant) == OfTenant(t.rows, tenant)
    && forall c :: c in mine ==> (c in s.conns <==> c in t.conns) && (c in s.conns ==> s.conns[c] == t.conns[c])
  }

  lemma {:induction false} StepStaysApart(s: State, step: Step, mine: set<nat>, tenant: string)
    requires Inv(s) && Enabled(s, step) && Apart(s, mine, tenant) && StaysAway(step, mine, tenant)
    ensures Apart(Apply(s, step), mine, tenant)
    ensures step.c !in mine ==> SameFor(Apply(s, step), s, mine, tenant)
  {
    hide OfTenant;
    WritesAreScoped(s, step, tenant);
    assert OfTenant(s.rows, tenant) + [] == OfTenant(s.rows, tenant);
  }

  lemma {:induction false} OwnStepsAgree(s: State, t: State, step: Step, mine: set<nat>, tenant: string)
    requires Inv(s) && Inv(t) && Enabled(s, step) && Enabled(t, step) && step.c in mine && SameFor(s, t, mine, tenant)
    ensures SameFor(Apply(s, step), Apply(t, step), mine, tenant)
  {
    hide OfTenant;
    WritesAreScoped(s, step, tenant);
    WritesAreScoped(t, step, tenant);
  }

  /** The connection is not in a transaction of another tenant. */
  predicate ReadsFor(k: Conn, tenant: string) {
    k.chosen.None? || k.chosen == Some(tenant)
  }

  lemma {:induction false} SameReads(s: State, t: State, mine: set<nat>, tenant: string, c: nat)
    requires Inv(s) && Inv(t) && SameFor(s, t, mine, tenant) && c in mine && c in s.conns
    requires ReadsFor(s.conns[c], tenant)
    ensures ReadResult(s, c) == ReadResult(t, c)
  {
    hide OfTenant;
    var pending := s.conns[c].pending;
    OfTenantConcat(s.rows, pending, tenant);
    OfTenantConcat(t.rows, pending, tenant);
    NoneOfEmptyTenant(s.rows + pending);
    NoneOfEmptyTenant(t.rows + pending);
  }

  lemma {:induction false} SameForChains(s: State, t: State, u: State, mine: set<nat>, tenant: string)
    requires SameFor(s, t, mine, tenant) && (SameFor(t, u, mine, tenant) || SameFor(u, t, mine, tenant))
    ensures SameFor(s, u, mine, tenant) && SameFor(u, s, mine, tenant)
  {
    hide OfTenant;
  }

  lemma {:induction false} NoStepsOn(mine: set<nat>)
    ensures StepsOn([], mine) == []
  {
  }

  /** What the two runs of non-interference share. */
  ghost predicate Comparable(states: seq<State>, steps: seq<Step>, mine: set<nat>, tenant: string) {
    && Run(states, steps) && Inv(states[0]) && Apart(states[0], mine, tenant)
    && forall k :: 0 <= k < |steps| ==> StaysAway(steps[k], mine, tenant)
  }

  lemma {:induction false} StaysApart(states: seq<State>, steps: seq<Step>, n: nat, mine: set<nat>, tenant: string)
    requires Comparable(states, steps, mine, tenant) && n <= |steps|
    ensures Inv(states[n]) && Apart(states[n], mine, tenant)
    decreases n
  {
    RunKeepsInvariant(states, steps, n);
    if n > 0 {
      StaysApart(states, steps, n - 1, mine, tenant);
      RunKeepsInvariant(states, steps, n - 1);
      assert StepAt(states, steps, n - 1);
      StepStaysApart(states[n - 1], steps[n - 1], mine, tenant);
    }
  }

  lemma {:induction false} StepsOnSnoc(steps: seq<Step>, n: nat, mine: set<nat>)
    requires 0 < n <= |steps|
    ensures StepsOn(steps[..n], mine) == StepsOn(steps[..n - 1], mine) + if steps[n - 1].c in mine then [steps[n - 1]] else []
  {
    assert steps[..n][..n - 1] == steps[..n - 1];
  }

  lemma {:induction false} SameLast(a: seq<Step>, x: Step, b: seq<Step>, y: Step)
    requires a + [x] == b + [y]
    ensures a == b && x == y
  {
    assert |a + [x]| == |b + [y]|;
    assert a == (a + [x])[..|a|] && b == (b + [y])[..|b|];
    assert x == (a + [x])[|a|] && y == (b + [y])[|b|];
  }

  lemma {:induction false} SameThroughout(
    a: seq<State>, stepsA: seq<Step>, m: nat, b: seq<State>, stepsB: seq<Step>, n: nat, mine: set<nat>, tenant: string)
    requires Comparable(a, stepsA, mine, tenant) && Comparable(b, stepsB, mine, tenant)
    requires SameFor(a[0], b[0], mine, tenant) && m <= |stepsA| && n <= |stepsB|
    requires StepsOn(stepsA[..m], mine) == StepsOn(stepsB[..n], mine)
    ensures SameFor(a[m], b[n], mine, tenant)
    decreases m + n
  {
    hide StepsOn, Apply, Enabled, SameFor, Inv;
    NoStepsOn(mine);
    assert stepsA[..0] == [] && stepsB[..0] == [];
    if m > 0 {
      StaysApart(a, stepsA, m - 1, mine, tenant);
      StepsOnSnoc(stepsA, m, mine);
      assert StepAt(a, stepsA, m - 1);
    }
    if n > 0 {
      StaysApart(b, stepsB, n - 1, mine, tenant);
      StepsOnSnoc(stepsB, n, mine);
      assert StepAt(b, stepsB, n - 1);
    }
    if m > 0 && stepsA[m - 1].c !in mine {
      SameThroughout(a, stepsA, m - 1, b, stepsB, n, mine, tenant);
      StepStaysApart(a[m - 1], stepsA[m - 1], mine, tenant);
      SameForChains(a[m], a[m - 1], b[n], mine, tenant);
    } else if n > 0 && stepsB[n - 1].c !in mine {
      SameThroughout(a, stepsA, m, b, stepsB, n - 1, mine, tenant);
      StepStaysApart(b[n - 1], stepsB[n - 1], mine, tenant);
      SameForChains(b[n], b[n - 1], a[m], mine, tenant);
    } else if m > 0 && n > 0 {
      SameLast(StepsOn(stepsA[..m - 1], mine), stepsA[m - 1], StepsOn(stepsB[..n - 1], mine), stepsB[n - 1]);
      SameThroughout(a, stepsA, m - 1, b, stepsB, n - 1, mine, tenant);
      OwnStepsAgree(a[m - 1], b[n - 1], stepsA[m - 1], mine, tenant);
    }
  }

  /**
   Non-interference. Two runs start with the same rows of a tenant, and make the same steps on its
   connections. Whatever other connections do in between, in either run, as long as they do not set
   this tenant: at corresponding points its rows are the same, and its reads return the same.
   */
  lemma {:induction false} OtherTenantsDoNotMatter(
    a: seq<State>, stepsA: seq<Step>, m: nat, b: seq<State>, stepsB: seq<Step>, n: nat, mine: set<nat>, tenant: string)
    requires Comparable(a, stepsA, mine, tenant) && Comparable(b, stepsB, mine, tenant)
    requires SameFor(a[0], b[0], mine, tenant) && m <= |stepsA| && n <= |stepsB|
    requires StepsOn(stepsA[..m], mine) == StepsOn(stepsB[..n], mine)
    ensures OfTenant(a[m].rows, tenant) == OfTenant(b[n].rows, tenant)
    ensures forall c :: c in mine && c in a[m].conns ==> c in b[n].conns && a[m].conns[c] == b[n].conns[c]
    ensures forall c :: c in mine && c in a[m].conns && ReadsFor(a[m].conns[c], tenant) ==>
                          ReadResult(a[m], c) == ReadResult(b[n], c)
  {
    hide OfTenant, StepsOn, StepAt, Inv, ReadResult;
    SameThroughout(a, stepsA, m, b, stepsB, n, mine, tenant);
    StaysApart(a, stepsA, m, mine, tenant);
    StaysApart(b, stepsB, n, mine, tenant);
    forall c | c in mine && c in a[m].conns && ReadsFor(a[m].conns[c], tenant)
      ensures ReadResult(a[m], c) == ReadResult(b[n], c)
    {
      SameReads(a[m], b[n], mine, tenant, c);
    }
  }

  // ---- The code that uses connections ----

  /** The transaction of one write, step by step. */
  lemma {:induction false} WriteStores(s: State, c: nat, row: Row)
    requires Inv(s) && c in s.conns && !s.conns[c].open
    ensures Enabled(s, Begin(c))
    ensures var begun := Apply(s, Begin(c));
            Enabled(begun, SetTenant(c, row.tenant))
    ensures var chosen := Apply(Apply(s, Begin(c)), SetTenant(c, row.tenant));
            Enabled(chosen, Store(c, row))
    ensures var written := Apply(Apply(Apply(s, Begin(c)), SetTenant(c, row.tenant)), Store(c, row));
            && c in written.conns && (written.conns[c].failed <==> row.tenant == "")
            && Enabled(written, End(c, row.tenant != ""))
            && var ended := Apply(written, End(c, row.tenant != ""));
            && Inv(ended)
            && ended == State(if row.tenant != "" then s.rows + [row] else s.rows, s.conns[c := FRESH.(setting := Some(""))])
  {
    var begun := Apply(s, Begin(c));
    var chosen := Apply(begun, SetTenant(c, row.tenant));
    var written := Apply(chosen, Store(c, row));
    assert s.conns[c].pending == [] && !s.conns[c].failed;
    assert [] + [row] == [row];
    StepKeepsInvariant(s, Begin(c));
    StepKeepsInvariant(begun, SetTenant(c, row.tenant));
    StepKeepsInvariant(chosen, Store(c, row));
    StepKeepsInvariant(written, End(c, row.tenant != ""));
  }

  class Server {
    var rows: seq<Row>
    var conns: map<nat, Conn>

    function Snapshot(): State
      reads this
    {
      State(rows, conns)
    }

    method Do(step: Step)
      requires Enabled(Snapshot(), step)
      modifies this
      ensures Snapshot() == Apply(old(Snapshot()), step)
    {
      match step
      case Connect(c) => conns := conns[c := FRESH];
      case Begin(c) => conns := conns[c := conns[c].(open := true)];
      case SetTenant(c, tenant) => conns := conns[c := Set(conns[c], tenant)];
      case Read(c) =>
      case Store(c, row) =>
        var k := conns[c];
        if !MayStore(row, k.setting) {
          conns := conns[c := k.(failed := k.open)];
        } else if k.open {
          conns := conns[c := k.(pending := k.pending + [row])];
        } else {
          rows := rows + [row];
        }
      case End(c, commit) =>
        var k := conns[c];
        if commit && !k.failed {
          rows := rows + k.pending;
        }
        conns := conns[c := Conn(if k.chosen.Some? then Some("") else k.setting, false, false, None, [])];
    }

    /** `write_event_async`: one transaction that sets the event's tenant and inserts the event. */
    method WriteEvent(c: nat, row: Row) returns (stored: bool)
      requires Inv(Snapshot()) && c in conns && !conns[c].open
      modifies this
      ensures Inv(Snapshot()) && conns == old(conns)[c := FRESH.(setting := Some(""))]
      ensures stored <==> row.tenant != ""
      ensures rows == if stored then old(rows) + [row] else old(rows)
    {
      hide Inv, Enabled, Apply;
      WriteStores(Snapshot(), c, row);
      Do(Begin(c));
      Do(SetTenant(c, row.tenant));
      Do(Store(c, row));
      stored := !conns[c].failed;
      Do(End(c, stored));
    }

    /** A request through `get_tenant_conn` that reads a tenant-isolated table. */
    method TenantRequest(c: nat, tenant: string) returns (result: seq<Row>)
      requires Inv(Snapshot()) && c in conns && !conns[c].open
      modifies this
      ensures Inv(Snapshot()) && rows == old(rows) && conns == old(conns)[c := FRESH.(setting := Some(""))]
      ensures result == OfTenant(rows, tenant)
    {
      Do(Begin(c));
      Do(SetTenant(c, tenant));
      assert rows + conns[c].pending == rows;
      result := ReadResult(Snapshot(), c);
      Do(End(c, true));
      assert rows + [] == rows;
    }

    /** A query on a bare pooled connection finds nothing, whoever used the connection before. */
    method BareRead(c: nat) returns (result: seq<Row>)
      requires Inv(Snapshot()) && c in conns && !conns[c].open
      ensures result == []
    {
      result := ReadResult(Snapshot(), c);
      NoneOfEmptyTenant(rows + conns[c].pending);
    }
  }
}
