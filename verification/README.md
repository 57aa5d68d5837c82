# Verification of the log pipeline

A Dafny model of four linked parts of the log-management system, with proofs of what they guarantee:

- **Decoding.** `Text`, `Regex`, `KeyValue`, `SyslogLine`, `Calendar`, `TimeInference` and `Normalize` follow a
  syslog line from its bytes to a normalized event. `LINE_RE` and `KV_RE` are transcribed pattern by pattern; a small
  engine gives them Python's backtracking semantics and is proved to find exactly the most preferred match. On top of
  it stand a declarative meaning of the tokenizer, print-and-parse round trips, the inference of the year an
  RFC 3164 time stamp leaves out, and the dispatcher that never refuses a message.
- **Alerting.** `AlertModel` holds the tables and the meaning of each SQL statement, three-valued logic included.
  `AlertEngine` is the engine's code over them. `AlertRuns`, `AlertSpacing` and `AlertLiveness` treat the system as a
  transition system and prove claims about whole runs; `AlertIsolation` and `AlertRunIsolation` prove that ticks and
  runs treat tenants separately.
- **The listener.** `ListenerModel` is the bounded queue with its two kinds of producer and one writer as interleaved
  steps; `Listener` is the code of each step, and the properties of runs.
- **The store.** `PartitionModel` and `Partitions` cover daily partitions, `Rebase` the loader's rebasing of a batch,
  `Tenancy` row-level security on reused connections.

Times are integers in microseconds, days are numbered from 1 January of year 1, and the session time zone is UTC.
`now()` is fixed within a transaction. Three things are left unspecified, and hold for every choice: which characters
outside ASCII are word characters, which strings are IP addresses, and the field copies of the five JSON normalizers.

Every lemma turns Dafny's automatic induction off, so each induction is written out.

Where code and documentation differ, the model follows the code. The documentation says that a message is never
refused; `EscapesExactly` says for which lines and clocks that fails (within five minutes of the end of year 9999 an
`OverflowError` is not caught). A sender's clock may run five minutes ahead (ingest/timeutil.py:35);
`RoundTripsExactly` says exactly when the instant is recovered, and `NoForwardRoll` gives the input, at New Year, for
which it is not. PRI values up to 999 are accepted, where section 4.1.1 of RFC 3164 stops at 191. A row for a
day beyond the lookahead blocks partition creation as soon as its day comes into range; `FailsExactly` says exactly
when.

## Model

| member | source | states |
|---|---|---|
| Text.SpaceCharacters | ingest/syslog_parser.py:12-36 | the 29 characters that `\s` and `strip` take as whitespace, one by one |
| Text.WordCharacters | ingest/syslog_parser.py:22 | among ASCII `\w` takes exactly the 63 letters, digits and underscore; whitespace is never a word character |
| Text.OtherCharacters | ingest/syslog_parser.py:12-22 | what `\d`, `\S`, `.` and `=` take |
| Text.LowerLetters | alerting/engine.py:59-60 | case folding letter by letter |
| Text.StripIs | ingest/syslog_parser.py:36 | `strip` takes whitespace off both ends until none is left there |
| Text.DecimalPlaces | ingest/syslog_parser.py:40-43 | `int` of digits, place by place |
| Regex.FirstIsBest | ingest/syslog_parser.py:12-22 | the backtracking search returns a match, returns one whenever one exists, and returns the one Python prefers: at the first difference a greedy run is longer and `.*?` is shorter |
| Regex.DollarIs | ingest/syslog_parser.py:15 | `$` matches at the end, and before a newline that ends the text |
| KeyValue.KvFits | ingest/syslog_parser.py:22 | what `KV_RE` can match at a position of newline-free text: a word run followed by `=`, and a value up to any place where the text ends or whitespace, a word and `=` follow |
| KeyValue.FirstIsKeyAndShortestValue | ingest/syslog_parser.py:22 | the match taken is the one with the shortest value, and there is one exactly where a key starts |
| KeyValue.KvProgress | ingest/syslog_parser.py:22 | every match is non-empty, so the scan always moves on |
| KeyValue.FindAllTokenizes | ingest/syslog_parser.py:55-56 | `findall` reads off leftmost key, shortest value, and again from there |
| KeyValue.TokenizationIsUnique | ingest/syslog_parser.py:55-56 | that description determines the result: two readings of the same text are equal |
| KeyValue.TokensCoverText | ingest/syslog_parser.py:18-22 | from the first key on no character is lost except one whitespace character between neighbouring fields |
| KeyValue.PrintedPairsRoundTrip | ingest/syslog_parser.py:18-22 | `key=value` pairs joined by spaces are read back unchanged if and only if no value has whitespace, a word and `=` inside |
| KeyValue.DictKeepsLast | ingest/syslog_parser.py:55-56 | the dictionary has exactly the printed keys, each with its last value |
| KeyValue.FieldIsFound | ingest/syslog_parser.py:18-22 | a key of letters, digits and underscores with a plain value is found as it stands, after any text that is no field |
| KeyValue.FieldsAreFound | ingest/syslog_parser.py:18-22 | two such fields with any whitespace character between them are found as two, whatever spaces the first value has inside |
| KeyValue.NoFieldNoPair | ingest/syslog_parser.py:22 | text in which no `=` follows a word character gives nothing |
| SyslogLine.MatchLineIs | ingest/syslog_parser.py:12-16 | `LINE_RE` matches stripped text exactly when it can be cut into the pattern's pieces, and the groups are those of the one cut whose rest does not start with whitespace |
| SyslogLine.MatchIsShape | ingest/syslog_parser.py:12-16 | `LINE_RE` matches exactly the texts of sixteen pieces spelled out one by one: `<`, one to three digits, `>`, three word characters, and so on, with whitespace of any length between |
| SyslogLine.HeaderIsParsed | ingest/syslog_parser.py:35-52 | any such line, with whitespace around it, is parsed to what its pieces say |
| SyslogLine.PrintedLineRoundTrips | ingest/syslog_parser.py:35-52 | a printed line (PRI = 8 * facility + severity, date, host, pairs), with any whitespace around it, parses to the same facility, severity, time stamp, host and dictionary; only year inference can refuse it |
| Calendar.DayNumbersAreOrdered | ingest/timeutil.py:32-36 | day numbers order valid dates as year, month, day does, across leap years, and tell them apart |
| Calendar.DatesAreThese | ingest/timeutil.py:32-36 | which dates there are, month by month |
| Calendar.LeapYears | ingest/timeutil.py:32-36 | which years are leap years |
| Calendar.DaysAreCounted | ingest/timeutil.py:32-36 | day numbers count days one by one, from 1 January of year 1 to 31 December of year 9999 |
| Calendar.ClockIsCounted | ingest/timeutil.py:35 | instants in microseconds, from days, hours, minutes and seconds |
| Calendar.DateOf | backend/db/init/03_partition_maintenance.sql:31 | every day number in range is the number of a valid date |
| TimeInference.MonthAbbreviations | ingest/timeutil.py:32-34 | the twelve month names, in any letter case, each with its number, and no others |
| TimeInference.ReadableExactly | ingest/timeutil.py:32-34 | which stamps can be dated in a year |
| TimeInference.InferredIs | ingest/timeutil.py:31-37 | such a stamp is dated in now's year, or one year earlier if it were more than 300 seconds ahead, or not at all if that date does not exist |
| TimeInference.ToleranceIs | ingest/timeutil.py:35 | the tolerance in microseconds, and where it overflows |
| TimeInference.FiveMinutesAhead | ingest/timeutil.py:35 | a stamp five minutes ahead is of this year, one second later of the last |
| TimeInference.SeptemberIsNine | ingest/timeutil.py:32-34 | a September stamp in capitals is dated in September |
| TimeInference.FailsExactly | ingest/timeutil.py:31-37 | inference raises if and only if month, day or time do not exist in now's year, the year has fewer than four digits, the tolerance overflows, or 29 February would have to be rolled back |
| TimeInference.RoundTripsExactly | ingest/timeutil.py:31-37 | dropping the year of a whole-second instant and inferring it gives the instant back if and only if it is in now's year and at most five minutes ahead, or in the year before and too far ahead in now's year |
| TimeInference.WithinAYear | ingest/timeutil.py:31-37 | the result is less than 366 days before now and at most five minutes after |
| TimeInference.LatestReading | ingest/timeutil.py:21-29 | the result is the latest reading of the stamp, in now's year or earlier, that is not too far ahead |
| TimeInference.Monotone | ingest/timeutil.py:31-37 | for a fixed line the result never decreases as now increases |
| TimeInference.NoForwardRoll | ingest/timeutil.py:35-36 | a line two minutes ahead at midnight on 1 January is read as a year in the past |
| Normalize.ParseIntRoundTrip | ingest/normalizers/firewall.py:29-31 | `int` reads back every printed port number |
| Normalize.ParseIntSigned | ingest/normalizers/firewall.py:29-31 | `int` reads a sign, with any whitespace around except U+001C to U+001F, which `strip` takes off and `int` does not |
| Normalize.ParseIntIs | ingest/normalizers/firewall.py:29-31 | `int` accepts text if and only if, without outer whitespace and one sign, it is digits and underscores with a digit on both sides of each underscore, and the number is that of the digits |
| Normalize.IntSpaces | ingest/normalizers/firewall.py:29-31 | the whitespace and signs that `int` reads, one by one |
| Normalize.DecodingIsTotal | ingest/syslog_server.py:23-34 | every line gives an event of the tenant with severity in 0..7 or absent, ports in range or absent, the original line recoverable, and source "unknown" exactly when tagged and explained as fallback, with no columns and the time of receipt; the only exception needs a clock at the end of year 9999 |
| Normalize.EscapesExactly | ingest/syslog_server.py:28-33 | any received line escapes as an exception if and only if it matches `LINE_RE`, its date is readable in now's year and the clock is in the last five minutes of time |
| Normalize.EndOfTimeEscapes | ingest/timeutil.py:35 | a line and a clock for which that happens |
| Normalize.RecordIsKept | ingest/normalizers/__init__.py:27-61 | the dispatcher keeps every key of a loaded record except the two it writes itself; a source other than "unknown" is the hinted one and leaves the record unchanged |
| Normalize.JsonRecordIsDispatched | ingest/normalizers/__init__.py:16-54 | a record of one of the five JSON sources becomes an event of that source with its time, columns and record, if and only if its normalizer gives columns within the range and address constraints; else it falls back |
| Normalize.OthersFallBack | ingest/normalizers/__init__.py:28-61 | any other source falls back for want of a normalizer, any other payload because the normalizer raises |
| Normalize.MessageIsHandled | ingest/syslog_server.py:23-34 | for any line: source, columns, raw, tags, and the reason of a fallback, each under its exact condition on the fields |
| Normalize.FirewallLineDecodes | ingest/normalizers/firewall.py:6-36 | a printed firewall line is decoded column by column to what it says, with inverted severity, or falls back when a port or address is out of range |
| Normalize.NetworkLineDecodes | ingest/normalizers/network.py:6-22 | the same for a router line, whatever other keys it has |
| AlertModel.GroupsAreGroupBy | alerting/engine.py:50-63 | a one-pass accumulator per address equals the grouped query: count, attained minimum and attained maximum of the event times of the selected rows |
| AlertModel.SelectedExactly | alerting/engine.py:57-60 | which rows count, in two-valued terms: tenant, arrival within the window, an address, "login" or "logon" somewhere in the type, and "fail" somewhere in the type or the action |
| AlertModel.GroupsCountRows | alerting/engine.py:50-62 | the group of an address has as many as there are such rows, and their earliest and latest event time |
| AlertModel.DetectedExactly | alerting/engine.py:62-63 | an address is detected if and only if at least `threshold` rows count for it |
| AlertModel.LogonBurstIsDetected | alerting/engine.py:57-63 | enough Windows "LogonFailed" rows with a NULL action are detected |
| AlertModel.DetectIgnoresOrder | alerting/engine.py:50-63 | the detected groups do not depend on the order of the rows |
| AlertModel.EventTimesDoNotDecide | alerting/engine.py:44-57 | whatever event times devices claim, the same addresses are detected with the same counts |
| AlertModel.OnlyTheWindowCounts | alerting/engine.py:57 | the groups are those of the rows that arrived since the window opened; all other rows may be there or not |
| AlertModel.NullActionsAreNotFailures | alerting/engine.py:59-60 | NULL actions give the same groups as any actions without "fail" in their place |
| AlertModel.TimesOfSubBag | alerting/engine.py:50-63 | further rows never take an address below its threshold |
| AlertModel.MatchingIgnoresCase | alerting/engine.py:59-60 | ILIKE makes the case of event type and action irrelevant |
| AlertModel.LastTriggeredIsMax | alerting/engine.py:70-77 | the cooldown query finds the latest alert of the key, and NULL exactly when there is none |
| AlertModel.PastCooldownExactly | alerting/engine.py:70-77 | an address may fire if and only if every alert of this tenant, rule and address is at least `cooldown_seconds` old |
| AlertEngine.AlertDatabase.EvaluateTenant | alerting/engine.py:100-174 | the loop over candidates with its inserts, updates and rollback computes `Evaluate`; a raised exception leaves all alerts as they were |
| AlertEngine.AlertDatabase.RunOnceOver | alerting/engine.py:177-190 | a tick computes `RunOnce` over the discovered tenants, skipping those that raise, each turn with the events and rules that other transactions have committed by then |
| AlertEngine.AlertDatabase.CreateAlertRule | backend/routers/alert_rules.py:61-89 | the endpoint computes `CreateRule`: it appends one rule with a fresh id for a tenant that had none, and leaves the rules as they are with any other answer |
| AlertEngine.AlertDatabase.UpdateAlertRule | backend/routers/alert_rules.py:93-124 | the endpoint computes `UpdateRule`: a rule that changes is the caller's own one of that id, patched, and the answer is `Updated` |
| AlertSpacing.CreateRuleDoes | backend/routers/alert_rules.py:61-89 | a creation is refused exactly for settings that are not positive, settings beyond the `integer` columns, an empty tenant, or a tenant that has a rule, each with its own answer; otherwise it adds one row, which the engine then selects if enabled |
| AlertSpacing.UpdateRuleDoes | backend/routers/alert_rules.py:93-124 | an edit succeeds exactly if it names something within the columns' range and a rule of the caller with that id; it changes the named settings of that rule, and no other row or column |
| AlertSpacing.UpdateRuleAnswers | backend/routers/alert_rules.py:93-124 | which of the five answers an edit gets, each with its exact condition |
| AlertRuns.FireAllAdds | alerting/engine.py:122-143 | the loop fires exactly the addresses that were past the cooldown when it started, each once |
| AlertRuns.EvaluationDoes | alerting/engine.py:100-174 | a committed evaluation appends one alert, spelled out column by column, for exactly the detected addresses without an alert in the cooldown; one that raises keeps none; without an enabled rule nothing happens |
| AlertRuns.StepDoes | alerting/engine.py:193-205 | what storing, dropping a day, setting the clock and skipping an id do to the tables |
| AlertRuns.StepAddsAlerts | alerting/engine.py:122-143 | no step changes a stored alert; an added one was fired by a committed evaluation, at its clock, with the group's numbers, the rule's settings and a delivery time exactly if delivered, and is a cooldown after all earlier ones of its key |
| AlertSpacing.StepKeepsInvariant | backend/db/init/06_alerts_schema.sql:12-88 | every step, edits and rollbacks included, keeps the table constraints, at most one rule per tenant, references to existing rules, and strictly increasing times per key |
| AlertSpacing.RunKeepsInvariant | backend/db/init/06_alerts_schema.sql:56-88 | in every run stored alerts stay as they are, in place |
| AlertSpacing.CooldownIsKept | alerting/engine.py:65-77 | in every run, with any clock, each alert is at least the cooldown in force at its firing after every earlier alert of its key |
| AlertSpacing.RunsFireRarely | alerting/engine.py:65-77 | an interval holds at most 1 + floor(length / least cooldown) alerts of one key |
| AlertSpacing.AlertsReportTheirBurst | alerting/engine.py:79-88 | every stored alert for ever reports the count, threshold, window and time span of the rows that its evaluation selected, with count >= threshold > 0 |
| AlertLiveness.NoMissedBurst | alerting/engine.py:50-63 | `threshold` failures of one address within a span, whose days are not dropped, are detected by an evaluation within span plus evaluation gap when that fits the window, and it leaves an alert less than a cooldown old |
| AlertLiveness.LogonBurstIsReported | alerting/engine.py:57-63 | so `threshold` stored "LogonFailed" events of one address lead to a detection and an alert in time |
| AlertLiveness.NextAlertIsDue | alerting/engine.py:122-143 | while an address stays over the threshold, its next alert comes at least one cooldown and less than a cooldown plus the evaluation gap after the last |
| AlertIsolation.EvaluateAlone | alerting/engine.py:100-108 | evaluating a tenant among all rows shows it what evaluating its own rows alone shows, up to ids |
| AlertIsolation.EvaluateOther | alerting/engine.py:100-108 | evaluating one tenant changes no row of another |
| AlertIsolation.TickIsolatesTenants | alerting/engine.py:177-190 | after a tick each tenant's alerts are those of evaluating alone the rows of its own that its turn found, in whatever order tenants come, whatever is committed in between and whichever others raise; one that raised has the alerts it had |
| AlertRunIsolation.RunIsolatesTenants | alerting/engine.py:100-190 | at every point of every run a tenant sees what its own steps, run alone with the same clocks, candidates and faults, show it; all that others leave is the rule ids they took |
| ListenerModel.FramesRoundTrip | ingest/syslog_server.py:70-77 | newline-terminated lines are read back one by one, empty ones left out, and so is an unterminated last one (section 3.4.2 of RFC 6587) |
| ListenerModel.StripNewlinesIs | ingest/syslog_server.py:48-74 | `rstrip` takes off all newlines at the end and nothing else |
| ListenerModel.ReadLinesLoseNothing | ingest/syslog_server.py:71 | the lines read from a stream are the stream |
| ListenerModel.ReceivingDoes | ingest/syslog_server.py:42-81 | a datagram or a line is one arrival with the event that `handle_message` makes of its text, and enters the queue, is dropped or waits |
| ListenerModel.MovingDoes | ingest/syslog_server.py:87-115 | what a resumed put, the writer's get, the end of a write and a cancellation do |
| ListenerModel.StepKeepsInvariant | ingest/syslog_server.py:42-95 | every step keeps conservation of messages, arrival order per origin, the queue bound, and unfinished tasks = queued + in flight; only datagrams are refused |
| ListenerModel.RunKeepsInvariant | ingest/syslog_server.py:42-95 | the same in every state of every interleaving |
| ListenerModel.RunHandlesWhatItReceived | ingest/syslog_server.py:42-95 | in every run each message written, dropped, queued or waiting carries the event of a line that was received from its origin, with the line recoverable from it |
| Listener.ConnectionsKeepOrder | ingest/syslog_server.py:78-81 | what a connection has had handled is a prefix of what it sent, and none of it is refused |
| Listener.TaskDoneIsPaired | ingest/syslog_server.py:94-95 | `task_done` is never called without an unfinished task; none is unfinished exactly when queue and writer are idle |
| Listener.QueueDrains | ingest/syslog_server.py:87-95 | while nothing arrives, the work left bounds the number of steps, and when no step is left every accepted message has been handled in order |
| Listener.DeadWriterHandlesNothing | ingest/syslog_server.py:97-115 | after the writer is cancelled nothing is handled any more, in any continuation |
| Listener.SyslogListener.DatagramReceived | ingest/syslog_server.py:42-60 | the callback computes the datagram step: one arrival with the decoded event, queued unless the queue is full |
| Listener.SyslogListener.LineRead | ingest/syslog_server.py:70-81 | a turn of a connection's loop computes its step: skip an empty line, or put the decoded event, or wait with it |
| Listener.SyslogListener.WriterFinishes | ingest/syslog_server.py:89-95 | a write that ends, stored or dropped, finishes one task |
| Listener.SyslogListener.WriterGets | ingest/syslog_server.py:89 | the writer takes the oldest message |
| Listener.SyslogListener.PutResumed | ingest/syslog_server.py:81 | a waiting put enters the queue |
| PartitionModel.NamesAreFaithful | backend/db/init/03_partition_maintenance.sql:33-75 | reading a partition's name gives its day back, for every date with a year from 1 to 9999 |
| PartitionModel.NamesAreThese | backend/db/init/03_partition_maintenance.sql:33 | the name of a day's partition, digit by digit |
| PartitionModel.SampleName | backend/db/init/02_schema.sql:113 | the partition of 11 September 2026 is `events_2026_09_11` |
| PartitionModel.ReadNameExactly | backend/db/init/03_partition_maintenance.sql:69-75 | exactly the names with the digits of a date are read as its day, and exactly those with digits of no date raise |
| PartitionModel.CreateOneFails | backend/db/init/03_partition_maintenance.sql:33-47 | for any catalog: when creating one day fails, and what it leaves otherwise |
| PartitionModel.CreateRangeDoes | backend/db/init/03_partition_maintenance.sql:24-49 | creation fails if and only if the default holds a row of a day in the range; otherwise it adds exactly the missing days, empty, and changes nothing else |
| PartitionModel.DropIs | backend/db/init/03_partition_maintenance.sql:63-82 | for any catalog: dropping fails exactly on a name with the digits of no date, and otherwise takes exactly the names of old dates |
| PartitionModel.DropDoes | backend/db/init/03_partition_maintenance.sql:63-82 | dropping by name removes exactly the days before the bound with their rows |
| PartitionModel.InsertDoes | backend/db/init/02_schema.sql:70-75 | a row goes to the partition of its day, or to the default if there is none, and nowhere else |
| PartitionModel.MaintainDoes | backend/db/init/03_partition_maintenance.sql:24-82 | create then drop leaves exactly the old days and the range as far as not too old, with their rows, leaves the default alone, and is idempotent |
| Partitions.EventStore.CreateDailyPartitions | backend/db/init/03_partition_maintenance.sql:24-49 | the loop computes `Create`, and an error on any day undoes it all |
| Partitions.EventStore.ApplyTenantRls | backend/db/init/02_schema.sql:123-142 | the helper leaves row-level security enabled, forced and with the policy, whatever was there |
| Partitions.EventStore.DropOldPartitions | backend/db/init/03_partition_maintenance.sql:63-82 | the loop computes `Drop` in whatever order the catalog lists the tables |
| Partitions.EventStore.InsertEvent | backend/db/init/02_schema.sql:70-75 | routing by range computes `Insert`: it adds the row to the partition of its day, or to the default if there is none, and changes nothing else |
| Partitions.FailsExactly | backend/db/init/03_partition_maintenance.sql:14-49 | after seeding, whatever rows arrive and whichever steps have failed before, a creation fails if and only if its range includes the day of a row that arrived beyond the lookahead of the last creation; drops and inserts never fail (days_back <= retain_days, dates do not go back) |
| Partitions.NeverStuck | backend/db/init/03_partition_maintenance.sql:14-49 | hence no step of a run without such rows ever fails |
| Partitions.ShorterRetentionGetsStuck | backend/db/init/03_partition_maintenance.sql:18-23 | if days_back > retain_days a run without such rows fails, on any date |
| Partitions.RunKeepsOk | backend/db/init/03_partition_maintenance.sql:24-82 | in every run, failed steps included, no two partitions have the same day, each is named after its day, holds only rows of that day and has row-level security enabled, forced and with the policy, and the default holds only rows of days without partition; the default never loses a row |
| Partitions.StuckForever | backend/db/init/03_partition_maintenance.sql:18-23 | a row in the default stays there and blocks every later creation whose range includes its day |
| Partitions.RowSurvives | backend/db/init/03_partition_maintenance.sql:51-82 | a row in a dated partition survives every run whose drops are dated at most retain_days after it |
| Rebase.EarliestTime | ingest/batch_loader.py:47 | the earliest time of a batch |
| Rebase.RebaseTimestamps | ingest/batch_loader.py:38-50 | the loops move all events in place so that the earliest is now and all differences stay |
| Rebase.RebasedIsShift | ingest/batch_loader.py:48-50 | that determines the result: every time moves by the same offset |
| Rebase.RebasedBatchIsKept | ingest/batch_loader.py:38-43 | a rebased batch that ends within the lookahead of today's maintenance lands in dated partitions, and survives until drops are dated more than retain_days later |
| Tenancy.StepDoes | backend/db/init/02_schema.sql:86-105 | what connecting, opening, setting the tenant, storing and ending a transaction do, in any state |
| Tenancy.ReadsAreScoped | backend/db.py:56-87 | in any interleaving a read returns exactly the rows of the tenant set in its own open transaction, and nothing if none is set |
| Tenancy.DirectReadsAreScoped | backend/db/init/02_schema.sql:107-120 | the same for a secured partition addressed by its own name; without row-level security it shows everything, without a policy nothing |
| Tenancy.OfTenantCounts | backend/db/init/02_schema.sql:103-105 | the policy shows each row of the tenant as often as it is stored, and no other |
| Tenancy.WritesAreScoped | ingest/db.py:70-83 | a tenant's rows change only by commits of transactions that set this tenant |
| Tenancy.OtherTenantsDoNotMatter | backend/db.py:64-78 | two runs with the same steps on a tenant's connections, and any steps of other tenants on others, keep the tenant's rows equal and answer its reads alike at every corresponding point |
| Tenancy.Server.WriteEvent | ingest/db.py:79-83 | one write stores exactly the event, under its tenant, and is refused exactly for the empty tenant |
| Tenancy.Server.TenantRequest | backend/db.py:84-87 | a request sees exactly its tenant's rows, whoever used the connection before |
| Tenancy.Server.BareRead | backend/db.py:29-53 | a query on a bare pooled connection returns nothing |

## Left out

- Digits outside ASCII, which `\d` and `int` also accept, and case folding outside ASCII, in `%b` and ILIKE.
- UTF-8 decoding, sockets, stream buffering, and asyncio's choice of which waiting put to wake: any may be next.
- A connection closed while its put waits, lines longer than the stream limit, and exceptions other than a cancelled writer in the listener's tasks.
- The wording of the fallback reason, and log messages.
- A clock read twice: `handle_message` infers the year and dates a fallback with the same `now`.
- `parse_rfc3339` and the field copies of the JSON normalizers: their result is any columns, or an exception.
- AlertModel.UpdateRule: for a value beyond the `integer` columns the answer is the error, also if there is no such rule; PostgreSQL gives it while planning the statement, or only for a row it finds. Nor does `CreateRule` take an id then.
- AlertModel.Evaluate: other transactions that commit between the statements of one evaluation, which is one step; and that an event count beyond 2147483647 makes the insert fail.
- Connection loss, and several engine instances at once, for which docs/DECISIONS.md accepts a race.
- Webhook delivery is a set of addresses whose POST succeeded. The POST happens before the commit, so a row may be rolled back after a delivered POST; nothing is claimed about POSTs without rows.
- Discovery of tenants: a tick gets a list of distinct tenants in any order, as SELECT DISTINCT gives.
- Authentication, a PATCH that sets a column to NULL, and `created_at`/`updated_at`.
- Columns of events that neither routing, detection nor row-level security reads: each part models the columns it uses.
- PartitionModel.NameOf: dates outside the years 1 to 9999.
- Search, statistics and alert listing endpoints, which are single queries.
- Tenancy.Step: setting the tenant twice in one transaction, which no path of the code does.
- The loader's reading of files and its tenant and source defaults; the front end and deployment.
