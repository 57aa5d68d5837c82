/** The tables behind alerting and the meaning of the engine's SQL statements. Times are microseconds. */
module AlertModel {
  import opened Text
  import opened Calendar

  type Ip = string

  datatype Event = Event(
    tenant: string, eventTime: int, ingestedAt: int, srcIp: Option<Ip>, eventType: string, action: Option<string>)

  datatype Rule = Rule(id: nat, tenant: string, threshold: int, window: int, cooldown: int, enabled: bool)

  datatype Alert = Alert(
    id: nat, tenant: string, ruleId: nat, srcIp: Ip, triggeredAt: int, eventCount: int, threshold: int, window: int,
    windowStart: int, windowEnd: int, webhookSentAt: Option<int>)

  datatype Db = Db(events: seq<Event>, rules: seq<Rule>, alerts: seq<Alert>, nextRule: nat, nextAlert: nat)

  function Seconds(n: int): int {
    n * MICROS_PER_SECOND
  }

  // ---- Three-valued logic ----

  datatype Truth = True | False | Unknown

  function And(a: Truth, b: Truth): Truth {
    if a.False? || b.False? then False else if a.True? && b.True? then True else Unknown
  }

  function Or(a: Truth, b: Truth): Truth {
    if a.True? || b.True? then True else if a.False? && b.False? then False else Unknown
  }

  function Of(b: bool): Truth {
    if b then True else False
  }

  predicate OccursAt(s: string, part: string, i: int) {
    0 <= i <= |s| - |part| && s[i..i + |part|] == part
  }

  predicate Contains(s: string, part: string) {
    exists i :: 0 <= i <= |s| && OccursAt(s, part, i)
  }

  /** `column ILIKE '%part%'` for a lower-case `part`; a NULL column gives Unknown. */
  function ILike(column: Option<string>, part: string): Truth {
    if column.None? then Unknown else Of(Contains(Lower(column.value), part))
  }

  // ---- DETECT_SQL ----

  /** The transaction that runs the query: its `app.tenant`, its `now()`, and the rule's window. */
  datatype Query = Query(tenant: string, now: int, window: int)

  function FailedLogin(e: Event): Truth {
    And(Or(ILike(Some(e.eventType), "login"), ILike(Some(e.eventType), "logon")),
        Or(ILike(Some(e.eventType), "fail"), ILike(e.action, "fail")))
  }

  /** Row-level security lets the row through, and the WHERE clause is true of it. */
  predicate Selected(e: Event, q: Query) {
    && e.tenant == q.tenant
    && And(Of(e.ingestedAt >= q.now - Seconds(q.window)), And(Of(e.srcIp.Some?), FailedLogin(e))).True?
  }

  datatype Group = Group(count: nat, first: int, last: int)

  function AddTo(g: Option<Group>, time: int): Group {
    match g
    case None => Group(1, time, time)
    case Some(h) => Group(h.count + 1, if time < h.first then time else h.first, if time > h.last then time else h.last)
  }

  function Lookup(m: map<Ip, Group>, ip: Ip): Option<Group> {
    if ip in m then Some(m[ip]) else None
  }

  /** One pass over the rows, with an accumulator for each address. */
  function Groups(events: seq<Event>, q: Query): map<Ip, Group> {
    if events == [] then map[]
    else
      var m := Groups(events[..|events| - 1], q);
      var e := events[|events| - 1];
      if Selected(e, q) then m[e.srcIp.value := AddTo(Lookup(m, e.srcIp.value), e.eventTime)] else m
  }

  /** HAVING count(*) >= threshold. */
  function Detect(events: seq<Event>, q: Query, threshold: int): map<Ip, Group> {
    var m := Groups(events, q);
    map ip | ip in m && m[ip].count >= threshold :: m[ip]
  }

  // ---- The grouped query without the pass: the event times of one address ----

  function Times(events: seq<Event>, q: Query, ip: Ip): seq<int> {
    if events == [] then []
    else
      var e := events[|events| - 1];
      Times(events[..|events| - 1], q, ip) + if Selected(e, q) && e.srcIp == Some(ip) then [e.eventTime] else []
  }

  predicate IsMinimum(m: int, s: seq<int>) {
    m in s && forall x :: x in s ==> m <= x
  }

  predicate IsMaximum(m: int, s: seq<int>) {
    m in s && forall x :: x in s ==> x <= m
  }

  predicate Aggregates(g: Group, times: seq<int>) {
    g.count == |times| && IsMinimum(g.first, times) && IsMaximum(g.last, times)
  }

  /** The pass computes the grouped query: one group per address that has rows, with attained extremes. */
  lemma {:induction false} GroupsAreGroupBy(events: seq<Event>, q: Query, ip: Ip)
    ensures ip in Groups(events, q) <==> Times(events, q, ip) != []
    ensures ip in Groups(events, q) ==> Aggregates(Groups(events, q)[ip], Times(events, q, ip))
  {
    if events != [] {
      var init := events[..|events| - 1];
      var e := events[|events| - 1];
      GroupsAreGroupBy(init, q, ip);
      var earlier := Times(init, q, ip);
      if Selected(e, q) && e.srcIp == Some(ip) {
        var times := earlier + [e.eventTime];
        assert forall x :: x in times <==> x in earlier || x == e.eventTime;
      }
    }
  }

  lemma {:induction false} TimesOfConcat(a: seq<Event>, b: seq<Event>, q: Query, ip: Ip)
    ensures Times(a + b, q, ip) == Times(a, q, ip) + Times(b, q, ip)
  {
    if b == [] {
      assert a + b == a;
    } else {
      assert (a + b)[..|a + b| - 1] == a + b[..|b| - 1];
      TimesOfConcat(a, b[..|b| - 1], q, ip);
    }
  }

  lemma {:induction false} TimesAround(left: seq<Event>, e: Event, right: seq<Event>, q: Query, ip: Ip)
    ensures multiset(Times(left + ([e] + right), q, ip))
         == multiset(Times(left + right, q, ip)) + multiset(Times([e], q, ip))
  {
    TimesOfConcat(left, right, q, ip);
    TimesOfConcat(left, [e] + right, q, ip);
    TimesOfConcat([e], right, q, ip);
  }

  /** Takes one occurrence of `e` out of `b`. */
  lemma {:induction false} TakeOut(init: seq<Event>, e: Event, b: seq<Event>) returns (left: seq<Event>, right: seq<Event>)
    requires multiset(init + [e]) <= multiset(b)
    ensures b == left + ([e] + right) && multiset(init) <= multiset(left + right)
    ensures multiset(init + [e]) == multiset(b) ==> multiset(init) == multiset(left + right)
  {
    assert e in multiset(init + [e]);
    var k :| 0 <= k < |b| && b[k] == e;
    left, right := b[..k], b[k + 1..];
    assert b == left + ([e] + right);
    assert multiset(b) == multiset(left) + (multiset{e} + multiset(right));
    assert multiset(init + [e]) == multiset(init) + multiset{e};
    assert multiset(left + right) == multiset(left) + multiset(right) == multiset(b) - multiset{e};
    assert multiset(init) == multiset(init + [e]) - multiset{e};
  }

  /** Reordering rows reorders the times of each address. */
  lemma {:induction false} TimesOfPermutation(a: seq<Event>, b: seq<Event>, q: Query, ip: Ip)
    requires multiset(a) == multiset(b)
    ensures multiset(Times(a, q, ip)) == multiset(Times(b, q, ip))
    decreases |a|
  {
    if a == [] {
      assert |multiset(b)| == 0;
    } else {
      var init, e := a[..|a| - 1], a[|a| - 1];
      assert a == init + [e] == init + ([e] + []) && init + [] == init;
      var left, right := TakeOut(init, e, b);
      TimesOfPermutation(init, left + right, q, ip);
      TimesAround(init, e, [], q, ip);
      TimesAround(left, e, right, q, ip);
    }
  }

  /** More rows give each address at least as many times. */
  lemma {:induction false} TimesOfSubBag(a: seq<Event>, b: seq<Event>, q: Query, ip: Ip)
    requires multiset(a) <= multiset(b)
    ensures |Times(a, q, ip)| <= |Times(b, q, ip)|
    decreases |a|
  {
    if a != [] {
      var init, e := a[..|a| - 1], a[|a| - 1];
      assert a == init + [e];
      var left, right := TakeOut(init, e, b);
      TimesOfSubBag(init, left + right, q, ip);
      TimesOfConcat(init, [e], q, ip);
      TimesOfConcat(left, right, q, ip);
      TimesOfConcat(left, [e] + right, q, ip);
      TimesOfConcat([e], right, q, ip);
    }
  }

  lemma {:induction false} AggregatesAreUnique(g: Group, h: Group, s: seq<int>, t: seq<int>)
    requires Aggregates(g, s) && Aggregates(h, t) && multiset(s) == multiset(t)
    ensures g == h
  {
    assert forall x :: x in s <==> x in multiset(s);
    assert forall x :: x in t <==> x in multiset(t);
    assert |s| == |multiset(s)| == |multiset(t)| == |t|;
  }

  /** The result does not depend on the order of the rows. */
  lemma {:induction false} DetectIgnoresOrder(a: seq<Event>, b: seq<Event>, q: Query, threshold: int)
    requires multiset(a) == multiset(b)
    ensures Detect(a, q, threshold) == Detect(b, q, threshold)
  {
    forall ip
      ensures ip in Groups(a, q) <==> ip in Groups(b, q)
      ensures ip in Groups(a, q) ==> Groups(a, q)[ip] == Groups(b, q)[ip]
    {
      TimesOfPermutation(a, b, q, ip);
      GroupsAreGroupBy(a, q, ip);
      GroupsAreGroupBy(b, q, ip);
      assert |Times(a, q, ip)| == |multiset(Times(a, q, ip))| == |multiset(Times(b, q, ip))| == |Times(b, q, ip)|;
      if ip in Groups(a, q) {
        AggregatesAreUnique(Groups(a, q)[ip], Groups(b, q)[ip], Times(a, q, ip), Times(b, q, ip));
      }
    }
    assert Groups(a, q) == Groups(b, q);
  }

  lemma {:induction false} OneMoreRow(init: seq<Event>, e: Event, q: Query)
    ensures !Selected(e, q) ==> Groups(init + [e], q) == Groups(init, q)
    ensures Selected(e, q) ==>
              var m := Groups(init, q);
              Groups(init + [e], q) == m[e.srcIp.value := AddTo(Lookup(m, e.srcIp.value), e.eventTime)]
  {
    hide Selected, AddTo, Lookup;
    assert (init + [e])[..|init|] == init;
  }

  /** The same rows, with any text that lacks "fail" where the action is NULL. */
  predicate SameButNullActions(a: seq<Event>, b: seq<Event>) {
    |a| == |b| && forall k :: 0 <= k < |a| ==>
      b[k] == a[k] ||
      (a[k].action.None? && b[k].action.Some? && !Contains(Lower(b[k].action.value), "fail")
       && b[k] == a[k].(action := b[k].action))
  }

  lemma {:induction false} NullActionIsNotFailure(e: Event, q: Query, action: string)
    requires e.action.None? && !Contains(Lower(action), "fail")
    ensures Selected(e, q) <==> Selected(e.(action := Some(action)), q)
  {
  }

  /** A NULL action is neither failure nor obstacle: the groups are those of rows whose actions do not say "fail". */
  lemma {:induction false} NullActionsAreNotFailures(a: seq<Event>, b: seq<Event>, q: Query)
    requires SameButNullActions(a, b)
    ensures Groups(a, q) == Groups(b, q)
  {
    hide Groups, Selected;
    if a == [] {
      assert a == b;
    } else {
      var n := |a| - 1;
      assert a == a[..n] + [a[n]] && b == b[..n] + [b[n]];
      NullActionsAreNotFailures(a[..n], b[..n], q);
      OneMoreRow(a[..n], a[n], q);
      OneMoreRow(b[..n], b[n], q);
      if b[n] != a[n] {
        NullActionIsNotFailure(a[n], q, b[n].action.value);
      }
    }
  }

  /** The same rows, whatever event times their devices claim. */
  predicate SameButEventTimes(a: seq<Event>, b: seq<Event>) {
    |a| == |b| && forall k :: 0 <= k < |a| ==> b[k] == a[k].(eventTime := b[k].eventTime)
  }

  lemma {:induction false} GroupsIgnoreEventTimes(a: seq<Event>, b: seq<Event>, q: Query)
    requires SameButEventTimes(a, b)
    ensures Groups(a, q).Keys == Groups(b, q).Keys
    ensures forall ip :: ip in Groups(a, q) ==> Groups(a, q)[ip].count == Groups(b, q)[ip].count
  {
    hide Groups, FailedLogin;
    if a == [] {
      assert a == b;
    } else {
      var n := |a| - 1;
      assert a == a[..n] + [a[n]] && b == b[..n] + [b[n]];
      GroupsIgnoreEventTimes(a[..n], b[..n], q);
      OneMoreRow(a[..n], a[n], q);
      OneMoreRow(b[..n], b[n], q);
      assert a[n].srcIp == b[n].srcIp && (Selected(a[n], q) <==> Selected(b[n], q)) by {
        SelectionIgnoresEventTime(a[n], b[n].eventTime, q);
      }
    }
  }

  lemma {:induction false} SelectionIgnoresEventTime(e: Event, time: int, q: Query)
    ensures Selected(e, q) <==> Selected(e.(eventTime := time), q)
  {
  }

  /** A device with a wrong clock is detected like any other: only arrival times decide. */
  lemma {:induction false} EventTimesDoNotDecide(a: seq<Event>, b: seq<Event>, q: Query, threshold: int)
    requires SameButEventTimes(a, b)
    ensures Detect(a, q, threshold).Keys == Detect(b, q, threshold).Keys
    ensures forall ip :: ip in Detect(a, q, threshold) ==>
              Detect(a, q, threshold)[ip].count == Detect(b, q, threshold)[ip].count
  {
    hide Groups;
    GroupsIgnoreEventTimes(a, b, q);
  }

  /** The rows that arrived since the window opened. */
  function InWindow(events: seq<Event>, q: Query): seq<Event> {
    if events == [] then []
    else
      var e := events[|events| - 1];
      InWindow(events[..|events| - 1], q) + if e.ingestedAt >= q.now - Seconds(q.window) then [e] else []
  }

  lemma {:induction false} LateRowCounts(e: Event, q: Query)
    requires Selected(e, q)
    ensures e.ingestedAt >= q.now - Seconds(q.window)
  {
  }

  /** Detection reads only rows that arrived in the window: deleting all others, or any of them, changes nothing. */
  lemma {:induction false} OnlyTheWindowCounts(events: seq<Event>, q: Query)
    ensures Groups(InWindow(events, q), q) == Groups(events, q)
  {
    hide Groups, Selected;
    if events != [] {
      var init, e := events[..|events| - 1], events[|events| - 1];
      assert events == init + [e];
      OnlyTheWindowCounts(init, q);
      OneMoreRow(init, e, q);
      OneMoreRow(InWindow(init, q), e, q);
      if e.ingestedAt < q.now - Seconds(q.window) {
        assert InWindow(init, q) + [] == InWindow(init, q);
        assert !Selected(e, q) by {
          if Selected(e, q) {
            LateRowCounts(e, q);
          }
        }
      }
    }
  }

  lemma {:induction false} LowerTwice(s: string)
    ensures Lower(Lower(s)) == Lower(s)
  {
    forall k | 0 <= k < |s|
      ensures Lower(Lower(s))[k] == Lower(s)[k]
    {
      assert LowerChar(LowerChar(s[k])) == LowerChar(s[k]);
    }
  }

  /** The case of letters does not matter to detection. */
  lemma {:induction false} MatchingIgnoresCase(e: Event, q: Query)
    ensures Selected(e, q) <==> Selected(e.(eventType := Lower(e.eventType)), q)
    ensures e.action.Some? ==> (Selected(e, q) <==> Selected(e.(action := Some(Lower(e.action.value))), q))
  {
    LowerTwice(e.eventType);
    if e.action.Some? {
      LowerTwice(e.action.value);
    }
  }

  // ---- The query, spelled out ----

  /** The part stands somewhere in the text. */
  ghost predicate Has(text: string, part: string) {
    exists before, after :: text == before + part + after
  }

  lemma {:induction false} ContainsIsHas(text: string, part: string)
    ensures Contains(text, part) <==> Has(text, part)
  {
    if Contains(text, part) {
      var i :| 0 <= i <= |text| && OccursAt(text, part, i);
      assert text == text[..i] + part + text[i + |part|..];
    }
    if Has(text, part) {
      var before, after :| text == before + part + after;
      assert text[|before|..|before| + |part|] == part;
      assert OccursAt(text, part, |before|);
    }
  }

  /** Exactly which rows count as failed logins in the window, in two-valued terms. */
  lemma {:induction false} SelectedExactly(e: Event, q: Query)
    ensures Selected(e, q) <==>
              && e.tenant == q.tenant
              && e.ingestedAt >= q.now - 1_000_000 * q.window
              && e.srcIp.Some?
              && (Has(Lower(e.eventType), "login") || Has(Lower(e.eventType), "logon"))
              && (Has(Lower(e.eventType), "fail") || (e.action.Some? && Has(Lower(e.action.value), "fail")))
  {
    hide Contains, Has, Lower;
    ContainsIsHas(Lower(e.eventType), "login");
    ContainsIsHas(Lower(e.eventType), "logon");
    ContainsIsHas(Lower(e.eventType), "fail");
    if e.action.Some? {
      ContainsIsHas(Lower(e.action.value), "fail");
    }
  }

  /** What Windows reports for a failed logon; there is no action. */
  predicate IsLogonFailure(e: Event, tenant: string, ip: Ip) {
    e.tenant == tenant && e.srcIp == Some(ip) && e.eventType == "LogonFailed" && e.action == None
  }

  lemma {:induction false} HasPart(before: string, part: string, after: string)
    ensures Has(before + part + after, part)
  {
  }

  lemma {:induction false} LogonFailedLower()
    ensures Lower("LogonFailed") == "logonfailed"
  {
    hide Lower;
    var (text, lower) := ("LogonFailed", "logonfailed");
    assert LowerChar('L') == 'l' && LowerChar('F') == 'f';
    assert forall k :: 0 <= k < 11 ==> LowerChar(text[k]) == lower[k];
  }

  lemma {:induction false} LogonFailedParts()
    ensures "logonfailed" == "" + "logon" + "failed"
    ensures "logonfailed" == "logon" + "fail" + "ed"
  {
  }

  lemma {:induction false} LogonFailedText()
    ensures Has(Lower("LogonFailed"), "logon") && Has(Lower("LogonFailed"), "fail")
  {
    hide Has, Lower;
    LogonFailedLower();
    LogonFailedParts();
    HasPart("", "logon", "failed");
    HasPart("logon", "fail", "ed");
  }

  lemma {:induction false} LogonFailureIsSelected(e: Event, q: Query, ip: Ip)
    requires IsLogonFailure(e, q.tenant, ip) && e.ingestedAt >= q.now - 1_000_000 * q.window
    ensures Selected(e, q)
  {
    hide Selected, Has, Lower;
    LogonFailedText();
    SelectedExactly(e, q);
  }

  predicate IsCounted(e: Event, q: Query, ip: Ip) {
    Selected(e, q) && e.srcIp == Some(ip)
  }

  /** The rows that count for an address, by position. */
  function CountedRows(events: seq<Event>, q: Query, ip: Ip): set<nat> {
    set k: nat | 0 <= k < |events| && IsCounted(events[k], q, ip)
  }

  /** The group of an address: as many as there are rows for it, from the earliest of their times to the latest. */
  ghost predicate GroupOf(g: Group, events: seq<Event>, rows: set<nat>)
    requires forall k :: k in rows ==> k < |events|
  {
    && g.count == |rows|
    && (exists k :: k in rows && events[k].eventTime == g.first)
    && (exists k :: k in rows && events[k].eventTime == g.last)
    && forall k :: k in rows ==> g.first <= events[k].eventTime <= g.last
  }

  lemma {:induction false} CountedRowsSnoc(init: seq<Event>, e: Event, q: Query, ip: Ip)
    ensures CountedRows(init + [e], q, ip) == CountedRows(init, q, ip) + if IsCounted(e, q, ip) then {|init|} else {}
  {
    hide IsCounted;
    var events := init + [e];
    assert forall k :: 0 <= k < |init| ==> events[k] == init[k];
  }

  lemma {:induction false} GroupGrows(g: Option<Group>, init: seq<Event>, e: Event, rows: set<nat>)
    requires forall k :: k in rows ==> k < |init|
    requires if g.Some? then GroupOf(g.value, init, rows) else rows == {}
    ensures GroupOf(AddTo(g, e.eventTime), init + [e], rows + {|init|})
  {
    var events, n := init + [e], |init|;
    assert forall k :: 0 <= k < n ==> events[k] == init[k];
    assert n in rows + {n} && events[n] == e;
    if g.Some? {
      var j :| j in rows && init[j].eventTime == g.value.first;
      var k :| k in rows && init[k].eventTime == g.value.last;
      assert j in rows + {n} && k in rows + {n};
    }
  }

  lemma {:induction false} GroupStays(g: Group, init: seq<Event>, e: Event, rows: set<nat>)
    requires forall k :: k in rows ==> k < |init|
    requires GroupOf(g, init, rows)
    ensures GroupOf(g, init + [e], rows)
  {
    assert forall k :: 0 <= k < |init| ==> (init + [e])[k] == init[k];
  }

  /** There is a group for each address that rows count for, and it is the group of those rows. */
  lemma {:induction false} GroupsCountRows(events: seq<Event>, q: Query, ip: Ip)
    ensures ip in Groups(events, q) <==> CountedRows(events, q, ip) != {}
    ensures ip in Groups(events, q) ==> GroupOf(Groups(events, q)[ip], events, CountedRows(events, q, ip))
  {
    if events != [] {
      hide Groups, CountedRows, GroupOf, Selected, AddTo;
      var init, e := events[..|events| - 1], events[|events| - 1];
      assert events == init + [e];
      GroupsCountRows(init, q, ip);
      OneMoreRow(init, e, q);
      CountedRowsSnoc(init, e, q, ip);
      var rows, m := CountedRows(init, q, ip), Groups(init, q);
      CountedRowsExist(init, q, ip);
      if IsCounted(e, q, ip) {
        GroupGrows(Lookup(m, ip), init, e, rows);
      } else if ip in m {
        GroupStays(m[ip], init, e, rows);
        assert rows + {} == rows;
      }
    } else {
      assert CountedRows(events, q, ip) == {};
    }
  }

  lemma {:induction false} CountedRowsExist(events: seq<Event>, q: Query, ip: Ip)
    ensures forall k :: k in CountedRows(events, q, ip) ==> k < |events|
  {
  }

  /** An address is detected exactly if at least `threshold` rows count for it. */
  lemma {:induction false} DetectedExactly(events: seq<Event>, q: Query, threshold: int, ip: Ip)
    requires threshold > 0
    ensures ip in Detect(events, q, threshold) <==> |CountedRows(events, q, ip)| >= threshold
    ensures ip in Detect(events, q, threshold) ==>
              GroupOf(Detect(events, q, threshold)[ip], events, CountedRows(events, q, ip))
  {
    hide Groups, CountedRows;
    GroupsCountRows(events, q, ip);
  }

  lemma {:induction false} SubsetIsSmaller(a: set<nat>, b: set<nat>)
    requires a <= b
    ensures |a| <= |b|
  {
    assert b == a + (b - a);
  }

  /** Enough failed Windows logons of one address in the window are detected. */
  lemma {:induction false} LogonBurstIsDetected(events: seq<Event>, q: Query, threshold: int, ip: Ip, burst: set<nat>)
    requires |burst| >= threshold > 0
    requires forall k :: k in burst ==>
               && k < |events| && IsLogonFailure(events[k], q.tenant, ip)
               && events[k].ingestedAt >= q.now - 1_000_000 * q.window
    ensures ip in Detect(events, q, threshold)
  {
    hide Selected, Detect;
    forall k | k in burst
      ensures k in CountedRows(events, q, ip)
    {
      LogonFailureIsSelected(events[k], q, ip);
    }
    SubsetIsSmaller(burst, CountedRows(events, q, ip));
    DetectedExactly(events, q, threshold, ip);
  }

  // ---- SELECT_RULE_SQL, PAST_COOLDOWN_SQL, INSERT_ALERT_SQL ----

  /** The first enabled rule that row-level security shows to the tenant. */
  function SelectRule(rules: seq<Rule>, tenant: string): Option<Rule> {
    if rules == [] then None
    else if rules[0].tenant == tenant && rules[0].enabled then Some(rules[0])
    else SelectRule(rules[1..], tenant)
  }

  predicate Keyed(a: Alert, tenant: string, ruleId: nat, ip: Ip) {
    a.tenant == tenant && a.ruleId == ruleId && a.srcIp == ip
  }

  /** max(triggered_at) over the alerts of one key. */
  function LastTriggered(alerts: seq<Alert>, tenant: string, ruleId: nat, ip: Ip): Option<int> {
    if alerts == [] then None
    else
      var a := alerts[|alerts| - 1];
      var m := LastTriggered(alerts[..|alerts| - 1], tenant, ruleId, ip);
      if Keyed(a, tenant, ruleId, ip) && (m.None? || m.value < a.triggeredAt) then Some(a.triggeredAt) else m
  }

  predicate PastCooldown(alerts: seq<Alert>, rule: Rule, ip: Ip, now: int) {
    var m := LastTriggered(alerts, rule.tenant, rule.id, ip);
    m.None? || m.value <= now - Seconds(rule.cooldown)
  }

  lemma {:induction false} LastTriggeredIsMax(alerts: seq<Alert>, tenant: string, ruleId: nat, ip: Ip)
    ensures var m := LastTriggered(alerts, tenant, ruleId, ip);
            && (m.None? ==> forall k :: 0 <= k < |alerts| ==> !Keyed(alerts[k], tenant, ruleId, ip))
            && (m.Some? ==> exists k :: 0 <= k < |alerts| && Keyed(alerts[k], tenant, ruleId, ip)
                                        && alerts[k].triggeredAt == m.value)
            && forall k :: 0 <= k < |alerts| && Keyed(alerts[k], tenant, ruleId, ip) ==>
                             m.Some? && alerts[k].triggeredAt <= m.value
  {
    if alerts != [] {
      var init := alerts[..|alerts| - 1];
      LastTriggeredIsMax(init, tenant, ruleId, ip);
      assert forall k :: 0 <= k < |init| ==> alerts[k] == init[k];
      assert Keyed(alerts[|alerts| - 1], tenant, ruleId, ip) || !Keyed(alerts[|alerts| - 1], tenant, ruleId, ip);
    }
  }

  /** No alert of this tenant, rule and address is less than a cooldown old. */
  predicate Quiet(alerts: seq<Alert>, rule: Rule, ip: Ip, now: int) {
    forall k :: 0 <= k < |alerts| && alerts[k].tenant == rule.tenant && alerts[k].ruleId == rule.id && alerts[k].srcIp == ip
      ==> alerts[k].triggeredAt <= now - 1_000_000 * rule.cooldown
  }

  lemma {:induction false} PastCooldownExactly(alerts: seq<Alert>, rule: Rule, ip: Ip, now: int)
    ensures PastCooldown(alerts, rule, ip, now) <==> Quiet(alerts, rule, ip, now)
  {
    LastTriggeredIsMax(alerts, rule.tenant, rule.id, ip);
  }

  // ---- One evaluation ----

  /**
   What the engine does not decide itself: the transaction's `now()`, the order in which the database
   returns the groups, the addresses whose webhook POST succeeds, and where an exception strikes:
   before candidate number `fault`, or at the end when there are not that many.
   */
  datatype Env = Env(now: int, order: seq<Ip>, delivered: set<Ip>, fault: Option<nat>)

  datatype Fired = Fired(alerts: seq<Alert>, nextAlert: nat)

  function NewAlert(id: nat, rule: Rule, ip: Ip, g: Group, env: Env): Alert {
    Alert(id, rule.tenant, rule.id, ip, env.now, g.count, rule.threshold, rule.window, g.first, g.last,
      if ip in env.delivered then Some(env.now) else None)
  }

  function FireOne(f: Fired, rule: Rule, ip: Ip, g: Group, env: Env): Fired {
    if PastCooldown(f.alerts, rule, ip, env.now) then
      Fired(f.alerts + [NewAlert(f.nextAlert, rule, ip, g, env)], f.nextAlert + 1)
    else f
  }

  function FireAll(f: Fired, rule: Rule, order: seq<Ip>, found: map<Ip, Group>, env: Env): Fired
    requires forall k :: 0 <= k < |order| ==> order[k] in found
  {
    if order == [] then f
    else
      var ip := order[|order| - 1];
      FireOne(FireAll(f, rule, order[..|order| - 1], found, env), rule, ip, found[ip], env)
  }

  predicate Distinct<T(==)>(s: seq<T>) {
    forall i, j :: 0 <= i < j < |s| ==> s[i] != s[j]
  }

  function Found(db: Db, rule: Rule, now: int): map<Ip, Group> {
    Detect(db.events, Query(rule.tenant, now, rule.window), rule.threshold)
  }

  /** `env.order` lists the detected groups, each once. */
  ghost predicate RowOrder(db: Db, tenant: string, env: Env) {
    var rule := SelectRule(db.rules, tenant);
    rule.Some? ==> Distinct(env.order) && forall ip :: ip in env.order <==> ip in Found(db, rule.value, env.now)
  }

  function Reached(env: Env): seq<Ip> {
    if env.fault.Some? && env.fault.value <= |env.order| then env.order[..env.fault.value] else env.order
  }

  /** `evaluate_tenant`: a raised exception undoes the rows, but not the numbers the identity column gave out. */
  function Evaluate(db: Db, tenant: string, env: Env): Db
    requires RowOrder(db, tenant, env)
  {
    var rule := SelectRule(db.rules, tenant);
    if rule.None? then db
    else
      var f := FireAll(Fired(db.alerts, db.nextAlert), rule.value, Reached(env), Found(db, rule.value, env.now), env);
      db.(alerts := if env.fault.Some? then db.alerts else f.alerts, nextAlert := f.nextAlert)
  }

  /** One tenant's turn in a tick: the events and rules that are committed when its transaction starts. */
  datatype Visit = Visit(tenant: string, env: Env, events: seq<Event>, rules: seq<Rule>, nextRule: nat)

  /** Other transactions have committed events and rules since the turn before; only the engine writes alerts. */
  function Meanwhile(db: Db, v: Visit): Db {
    db.(events := v.events, rules := v.rules, nextRule := v.nextRule)
  }

  ghost predicate Ready(v: Visit) {
    RowOrder(Db(v.events, v.rules, [], v.nextRule, 0), v.tenant, v.env)
  }

  /** `run_once`: the tenants one after the other, each with its own transaction. */
  function RunOnce(db: Db, visits: seq<Visit>): Db
    requires forall k :: 0 <= k < |visits| ==> Ready(visits[k])
  {
    if visits == [] then db
    else
      var v := visits[|visits| - 1];
      assert Ready(v);
      Evaluate(Meanwhile(RunOnce(db, visits[..|visits| - 1]), v), v.tenant, v.env)
  }

  // ---- POST and PATCH /alert-rules ----

  datatype Response = Created | Updated | BadRequest | NotFound | Conflict | Unprocessable | ServerError

  datatype Settings = Settings(threshold: int, window: int, cooldown: int, enabled: bool)

  datatype Patch = Patch(threshold: Option<int>, window: Option<int>, cooldown: Option<int>, enabled: Option<bool>)

  /** The largest value of an `integer` column. */
  const MAX_INTEGER := 0x7fff_ffff

  /** What the request schema demands of each setting, and what the column can hold. */
  predicate Positive(s: Settings) {
    s.threshold > 0 && s.window > 0 && s.cooldown > 0
  }

  predicate FitsColumns(s: Settings) {
    s.threshold <= MAX_INTEGER && s.window <= MAX_INTEGER && s.cooldown <= MAX_INTEGER
  }

  function OrElse<T>(v: Option<T>, default: T): T {
    if v.Some? then v.value else default
  }

  /** The settings a patch names, with values that are never refused for the others. */
  function Named(p: Patch): Settings {
    Settings(OrElse(p.threshold, 1), OrElse(p.window, 1), OrElse(p.cooldown, 1), OrElse(p.enabled, true))
  }

  predicate HasRule(rules: seq<Rule>, tenant: string) {
    exists k :: 0 <= k < |rules| && rules[k].tenant == tenant
  }

  /**
   A value that the column cannot hold is an error while the statement is planned; an empty tenant and a
   second rule of the same tenant are refused after the row has taken an id.
   */
  function CreateRule(db: Db, tenant: string, s: Settings): (Db, Response) {
    if !Positive(s) then (db, Unprocessable)
    else if !FitsColumns(s) then (db, ServerError)
    else if tenant == "" then (db.(nextRule := db.nextRule + 1), ServerError)
    else if HasRule(db.rules, tenant) then (db.(nextRule := db.nextRule + 1), Conflict)
    else
      var rule := Rule(db.nextRule, tenant, s.threshold, s.window, s.cooldown, s.enabled);
      (db.(rules := db.rules + [rule], nextRule := db.nextRule + 1), Created)
  }

  function Patched(r: Rule, p: Patch): Rule {
    r.(threshold := OrElse(p.threshold, r.threshold), window := OrElse(p.window, r.window),
       cooldown := OrElse(p.cooldown, r.cooldown), enabled := OrElse(p.enabled, r.enabled))
  }

  /** The row to update: the given id, among the rows of the caller's tenant. */
  function FindRule(rules: seq<Rule>, tenant: string, id: int): (k: nat)
    ensures k <= |rules|
    ensures k < |rules| ==> rules[k].id == id && rules[k].tenant == tenant
    ensures forall j :: 0 <= j < k ==> !(rules[j].id == id && rules[j].tenant == tenant)
  {
    if rules == [] then 0
    else if rules[0].id == id && rules[0].tenant == tenant then 0
    else 1 + FindRule(rules[1..], tenant, id)
  }

  const NO_PATCH := Patch(None, None, None, None)

  function UpdateRule(db: Db, tenant: string, id: int, p: Patch): (Db, Response) {
    if !Positive(Named(p)) then (db, Unprocessable)
    else if p == NO_PATCH then (db, BadRequest)
    else if !FitsColumns(Named(p)) then (db, ServerError)
    else
      var k := FindRule(db.rules, tenant, id);
      if k == |db.rules| then (db, NotFound)
      else (db.(rules := db.rules[k := Patched(db.rules[k], p)]), Updated)
  }
}
