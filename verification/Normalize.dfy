/** From a received line or a loaded record to a normalized event; nothing is ever refused. */
module Normalize {
  import opened Text
  import opened Calendar
  import opened TimeInference
  import opened SyslogLine
  import KeyValue

  datatype Reason = NoNormalizer | NormalizerRaised

  datatype RawValue = Json(text: string) | FallbackReason(reason: Reason) | SourceHint(hint: Option<string>)

  type Record = map<string, RawValue>

  datatype Payload = Object(record: Record) | Parsed(envelope: Envelope) | PlainText(text: string)

  datatype Columns = Columns(
    eventType: string, eventSubtype: Option<string>, vendor: Option<string>, product: Option<string>,
    severity: Option<int>, action: Option<string>,
    srcIp: Option<string>, srcPort: Option<int>, dstIp: Option<string>, dstPort: Option<int>,
    protocol: Option<string>, host: Option<string>, ruleName: Option<string>)

  datatype Event = Event(
    tenant: string, eventTime: DateTime, source: string, columns: Columns, raw: Record, tags: seq<string>)

  // ---- NormalizedEvent's constraints ----

  predicate Between(v: Option<int>, lo: int, hi: int) {
    v.Some? ==> lo <= v.value <= hi
  }

  predicate Address(v: Option<string>) {
    v.Some? ==> VALID_IP(v.value)
  }

  predicate Acceptable(c: Columns) {
    && Between(c.severity, 0, 10)
    && Between(c.srcPort, 0, 65535) && Between(c.dstPort, 0, 65535)
    && Address(c.srcIp) && Address(c.dstIp)
  }

  /** `None` stands for the exception a normalizer raises. */
  function Validated(tenant: string, time: DateTime, source: string, c: Columns, raw: Record): Option<Event> {
    if Acceptable(c) then Some(Event(tenant, time, source, c, raw, [])) else None
  }

  // ---- int(text) ----

  /** The whitespace that `int` skips: unlike `\s` and `str.strip`, not the four separators U+001C to U+001F. */
  predicate IsIntSpace(c: char) {
    IsSpace(c) && !('\U{1c}' <= c <= '\U{1f}')
  }

  /** Digits with single underscores between them; the result leaves the underscores out. */
  function GroupedDigits(s: string): (r: Option<string>)
    ensures r.Some? ==> All(IsDigit, r.value)
    decreases |s|
  {
    if s == "" || !IsDigit(s[0]) then None
    else if |s| == 1 then Some(s)
    else
      var rest := GroupedDigits(if s[1] == '_' then s[2..] else s[1..]);
      if rest.None? then None else Some([s[0]] + rest.value)
  }

  predicate IsSign(c: char) {
    c == '-' || c == '+'
  }

  function AfterSign(s: string): string {
    if s != "" && IsSign(s[0]) then s[1..] else s
  }

  /** `int(text)`: surrounding whitespace, a sign, and underscores between digits are accepted. */
  function ParseInt(text: string): Option<int> {
    var s := Strip(IsIntSpace, text);
    var digits := GroupedDigits(AfterSign(s));
    if digits.None? then None
    else
      var n: int := FromDecimal(digits.value);
      Some(if s[0] == '-' then -n else n)
  }

  /** Digits and underscores, each underscore with a digit on both sides. */
  ghost predicate IsNumeral(s: string) {
    && s != "" && IsDigit(s[0]) && IsDigit(s[|s| - 1])
    && (forall k :: 0 <= k < |s| ==> IsDigit(s[k]) || s[k] == '_')
    && (forall j, k :: 0 <= j < k < |s| && k == j + 1 ==> IsDigit(s[j]) || IsDigit(s[k]))
  }

  function DigitsOf(s: string): string {
    if s == "" then "" else (if IsDigit(s[0]) then [s[0]] else "") + DigitsOf(s[1..])
  }

  lemma {:induction false} NumeralIsGrouped(s: string)
    ensures GroupedDigits(s).Some? <==> IsNumeral(s)
    ensures GroupedDigits(s).Some? ==> GroupedDigits(s).value == DigitsOf(s)
    decreases |s|
  {
    if |s| > 1 && IsDigit(s[0]) {
      var n := if s[1] == '_' then 2 else 1;
      NumeralIsGrouped(s[n..]);
      assert forall k :: n <= k < |s| ==> s[k] == s[n..][k - n];
      if IsNumeral(s[n..]) {
        NumeralGrows(s, n);
      } else if IsNumeral(s) {
        NumeralShrinks(s, n);
      }
      if n == 2 {
        assert s[1..][1..] == s[2..];
      }
    }
  }

  lemma {:induction false} NumeralGrows(s: string, n: nat)
    requires |s| > 1 && IsDigit(s[0]) && n == (if s[1] == '_' then 2 else 1)
    requires IsNumeral(s[n..])
    ensures IsNumeral(s)
  {
    var t := s[n..];
    assert forall k :: n <= k < |s| ==> s[k] == t[k - n];
    forall j, k | 0 <= j < k < |s| && k == j + 1
      ensures IsDigit(s[j]) || IsDigit(s[k])
    {
      if n <= j {
        assert IsDigit(t[j - n]) || IsDigit(t[k - n]);
      }
    }
  }

  lemma {:induction false} NumeralShrinks(s: string, n: nat)
    requires |s| > 1 && n == (if s[1] == '_' then 2 else 1) && IsNumeral(s)
    ensures IsNumeral(s[n..])
  {
    var t := s[n..];
    assert forall k :: 0 <= k < |t| ==> t[k] == s[k + n];
    assert IsDigit(s[n - 1]) || IsDigit(s[n]);
    forall j, k | 0 <= j < k < |t| && k == j + 1
      ensures IsDigit(t[j]) || IsDigit(t[k])
    {
      assert IsDigit(s[j + n]) || IsDigit(s[k + n]);
    }
  }

  /** What `int` accepts, and what it makes of it: whitespace around, one sign, underscores between digits. */
  lemma {:induction false} ParseIntIs(text: string)
    ensures var s := Strip(IsIntSpace, text);
            && (ParseInt(text).Some? <==> IsNumeral(AfterSign(s)))
            && (IsNumeral(AfterSign(s)) ==>
                  && All(IsDigit, DigitsOf(AfterSign(s)))
                  && var n: int := FromDecimal(DigitsOf(AfterSign(s)));
                     ParseInt(text) == Some(if s[0] == '-' then -n else n))
  {
    NumeralIsGrouped(AfterSign(Strip(IsIntSpace, text)));
  }

  lemma {:induction false} PlainDigits(s: string)
    requires All(IsDigit, s) && s != ""
    ensures GroupedDigits(s) == Some(s)
    decreases |s|
  {
    if |s| > 1 {
      PlainDigits(s[1..]);
      assert s == [s[0]] + s[1..];
    }
  }

  lemma {:induction false} ParseIntRoundTrip(n: nat)
    ensures ParseInt(ToDecimal(n)) == Some(n)
  {
    var s := ToDecimal(n);
    DecimalRoundTrip(n);
    PlainDigits(s);
    StripPadding(IsIntSpace, "", s, "");
    assert "" + s + "" == s;
    assert IsDigit(s[0]);
  }

  /** A sign and surrounding whitespace are read as Python reads them. */
  lemma {:induction false} ParseIntSigned(n: nat, left: string, right: string)
    requires All(IsIntSpace, left) && All(IsIntSpace, right)
    ensures var r := ParseInt(left + ("-" + ToDecimal(n)) + right); r.Some? && r.value + n == 0
    ensures ParseInt(left + ("+" + ToDecimal(n)) + right) == Some(n)
  {
    DecimalRoundTrip(n);
    var s := ToDecimal(n);
    assert IsDigit(s[|s| - 1]);
    PlainDigits(s);
    StripPadding(IsIntSpace, left, "-" + s, right);
    StripPadding(IsIntSpace, left, "+" + s, right);
    assert ("-" + s)[1..] == s && ("+" + s)[1..] == s;
  }

  // ---- The normalizers ----

  function Get(fields: map<string, string>, key: string): Option<string> {
    if key in fields then Some(fields[key]) else None
  }

  function RawLine(line: string): Record {
    map["raw_line" := Json(line)]
  }

  function Firewall(payload: Payload, tenant: string): Option<Event> {
    if !payload.Parsed? then None
    else
      var e := payload.envelope;
      var f := e.fields;
      if !({"action", "src", "spt", "dst", "dpt"} <= f.Keys) then None
      else
        var (spt, dpt) := (ParseInt(f["spt"]), ParseInt(f["dpt"]));
        if spt.None? || dpt.None? then None
        else
          Validated(tenant, e.eventTime, "firewall",
            Columns("traffic", None, Get(f, "vendor"), Get(f, "product"), Some(7 - e.severity), Some(f["action"]),
              Some(f["src"]), spt, Some(f["dst"]), dpt, Get(f, "proto"), Some(e.hostname), Get(f, "policy")),
            RawLine(e.rawLine))
  }

  function Network(payload: Payload, tenant: string): Option<Event> {
    if !payload.Parsed? || "event" !in payload.envelope.fields then None
    else
      var e := payload.envelope;
      Validated(tenant, e.eventTime, "network",
        Columns(e.fields["event"], Get(e.fields, "reason"), None, None, Some(7 - e.severity), None,
          None, None, None, None, None, Some(e.hostname), None),
        RawLine(e.rawLine))
  }

  const JSON_SOURCES := {"api", "crowdstrike", "aws", "m365", "ad"}

  /** The field copies of the five JSON normalizers; `None` where one of them raises. */
  const JSON_COLUMNS: (string, Record) -> Option<(DateTime, Columns)>

  function JsonSource(source: string, payload: Payload, tenant: string): Option<Event> {
    if !payload.Object? then None
    else
      var c := JSON_COLUMNS(source, payload.record);
      if c.None? then None else Validated(tenant, c.value.0, source, c.value.1, payload.record)
  }

  // ---- The dispatcher ----

  predicate HasNormalizer(hint: Option<string>) {
    hint.Some? && (hint.value in JSON_SOURCES || hint.value == "firewall" || hint.value == "network")
  }

  function RunNormalizer(source: string, payload: Payload, tenant: string): Option<Event> {
    if source == "firewall" then Firewall(payload, tenant)
    else if source == "network" then Network(payload, tenant)
    else JsonSource(source, payload, tenant)
  }

  function CoerceRaw(payload: Payload): Record {
    match payload
    case Object(record) => record
    case Parsed(envelope) => RawLine(envelope.rawLine)
    case PlainText(text) => map["_raw_text" := Json(text)]
  }

  const NO_COLUMNS := Columns("unparsed", None, None, None, None, None, None, None, None, None, None, None, None)

  function Fallback(hint: Option<string>, payload: Payload, tenant: string, now: DateTime, reason: Reason): Event {
    var raw := CoerceRaw(payload)["_fallback_reason" := FallbackReason(reason)]["_fallback_source_hint" := SourceHint(hint)];
    Event(tenant, now, "unknown", NO_COLUMNS, raw, ["fallback"])
  }

  function Dispatch(hint: Option<string>, payload: Payload, tenant: string, now: DateTime): Event {
    if HasNormalizer(hint) then
      var r := RunNormalizer(hint.value, payload, tenant);
      if r.Some? then r.value else Fallback(hint, payload, tenant, now, NormalizerRaised)
    else Fallback(hint, payload, tenant, now, NoNormalizer)
  }

  // ---- handle_message ----

  function SourceHintFromFields(fields: map<string, string>): string {
    if "action" in fields && "src" in fields then "firewall"
    else if "if" in fields && "event" in fields then "network"
    else "unknown"
  }

  /** `Escaped` is the one exception `handle_message` does not catch. */
  datatype Handled = Produced(event: Event) | Escaped(error: Error)

  function HandleMessage(line: string, tenant: string, now: DateTime): Handled {
    match ParseSyslogLine(line, now)
    case Line(envelope) =>
      Produced(Dispatch(Some(SourceHintFromFields(envelope.fields)), Parsed(envelope), tenant, now))
    case Failed(ValueError) => Produced(Dispatch(Some("unknown"), PlainText(line), tenant, now))
    case Failed(OverflowError) => Escaped(OverflowError)
  }

  // ---- Properties ----

  /** The text of the line an event was made from. */
  function OriginalText(raw: Record): Option<string> {
    if "raw_line" in raw && raw["raw_line"].Json? then Some(raw["raw_line"].text)
    else if "_raw_text" in raw && raw["_raw_text"].Json? then Some(raw["_raw_text"].text)
    else None
  }

  predicate MarkedAsFallback(e: Event) {
    e.tags == ["fallback"] && "_fallback_reason" in e.raw && e.raw["_fallback_reason"].FallbackReason?
  }

  /** What every event made from a line satisfies. */
  predicate GoodEvent(e: Event, line: string, tenant: string, now: DateTime) {
    && e.tenant == tenant
    && Between(e.columns.severity, 0, 7)
    && Between(e.columns.srcPort, 0, 65535) && Between(e.columns.dstPort, 0, 65535)
    && Address(e.columns.srcIp) && Address(e.columns.dstIp)
    && OriginalText(e.raw) == Some(line)
    && e.source in {"firewall", "network", "unknown"}
    && (e.source == "unknown" <==> MarkedAsFallback(e))
    && (e.source == "unknown" ==> e.columns == NO_COLUMNS && e.eventTime == now)
  }

  /** Every line gives a good event, unless the clock is within five minutes of the end of year 9999. */
  lemma {:induction false} DecodingIsTotal(line: string, tenant: string, now: DateTime)
    ensures var r := HandleMessage(line, tenant, now);
            if r.Escaped? then AtEndOfTime(now) else GoodEvent(r.event, line, tenant, now)
  {
    ParsedKeepsLine(line, now);
    match ParseSyslogLine(line, now)
    case Line(envelope) =>
      GoodFromEnvelope(Some(SourceHintFromFields(envelope.fields)), envelope, tenant, now);
    case Failed(ValueError) =>
      GoodFromText(line, tenant, now);
    case Failed(OverflowError) =>
  }

  lemma {:induction false} ParsedKeepsLine(line: string, now: DateTime)
    ensures var p := ParseSyslogLine(line, now);
            && (p.Line? ==> p.envelope.rawLine == line && p.envelope.severity < 8)
            && (p == Failed(OverflowError) ==> AtEndOfTime(now))
  {
  }

  lemma {:induction false} GoodFromEnvelope(hint: Option<string>, e: Envelope, tenant: string, now: DateTime)
    requires e.severity < 8
    ensures GoodEvent(Dispatch(hint, Parsed(e), tenant, now), e.rawLine, tenant, now)
  {
    hide ParseInt;
  }

  lemma {:induction false} GoodFromText(line: string, tenant: string, now: DateTime)
    ensures GoodEvent(Dispatch(Some("unknown"), PlainText(line), tenant, now), line, tenant, now)
  {
  }

  /** A message escapes exactly if its line matches and can be dated in now's year, at the end of time. */
  lemma {:induction false} EscapesExactly(line: string, tenant: string, now: DateTime)
    ensures NoFinalNewline(Strip(IsSpace, line))
    ensures HandleMessage(line, tenant, now).Escaped? <==>
              var m := MatchLine(Strip(IsSpace, line));
              m.Some? && Readable(StampOf(m.value), now.date.year) && AtEndOfTime(now)
  {
    StripRightEnd(IsSpace, StripLeft(IsSpace, line));
  }

  lemma {:induction false} PrintedLineEscapes(m: Message, tenant: string, now: DateTime)
    requires WellFormed(m) && Readable(m.stamp, now.date.year) && AtEndOfTime(now)
    ensures HandleMessage(PrintLine(m), tenant, now) == Escaped(OverflowError)
  {
    hide PrintLine, ParseSyslogLine, Dispatch, WellFormed, KeyValue.ToDict;
    PrintedLineRoundTrips(m, "", "", now);
    assert "" + PrintLine(m) + "" == PrintLine(m);
  }

  /** It does happen: a line received two minutes before the end of year 9999. */
  lemma {:induction false} EndOfTimeEscapes(tenant: string)
    ensures var m := Message(16, 6, Stamp("Dec", 31, 23, 58, 0), "fw1", [("action", "deny")]);
            var now := DateTime(Date(9999, 12, 31), 23, 58, 0, 0);
            WellFormed(m) && HandleMessage(PrintLine(m), tenant, now) == Escaped(OverflowError)
  {
    hide PrintLine, HandleMessage, MonthNumber;
    MonthNames(12);
    PrintedLineEscapes(
      Message(16, 6, Stamp("Dec", 31, 23, 58, 0), "fw1", [("action", "deny")]), tenant,
      DateTime(Date(9999, 12, 31), 23, 58, 0, 0));
  }

  /** A loaded record is kept: every key but the two the fallback writes has its old value. */
  lemma {:induction false} RecordIsKept(hint: Option<string>, record: Record, tenant: string, now: DateTime)
    ensures var e := Dispatch(hint, Object(record), tenant, now);
            && e.tenant == tenant
            && Acceptable(e.columns)
            && record.Keys <= e.raw.Keys
            && (forall k :: k in record && k !in {"_fallback_reason", "_fallback_source_hint"} ==> e.raw[k] == record[k])
            && (e.source != "unknown" ==> hint == Some(e.source) && e.source in JSON_SOURCES && e.raw == record)
            && (e.source == "unknown" ==>
                  && e.tags == ["fallback"] && e.raw["_fallback_source_hint"] == SourceHint(hint)
                  && e.raw["_fallback_reason"]
                     == FallbackReason(if HasNormalizer(hint) then NormalizerRaised else NoNormalizer))
  {
  }

  function EnvelopeOf(m: Message, time: DateTime): Envelope
    requires WellFormed(m)
  {
    Envelope(m.facility, m.severity, time, m.host, KeyValue.ToDict(m.pairs), PrintLine(m))
  }

  lemma {:induction false} PrintedIsHandled(m: Message, tenant: string, now: DateTime, time: DateTime)
    requires WellFormed(m) && Infer(m.stamp, now) == Known(time)
    ensures var hint := Some(SourceHintFromFields(KeyValue.ToDict(m.pairs)));
            HandleMessage(PrintLine(m), tenant, now) == Produced(Dispatch(hint, Parsed(EnvelopeOf(m, time)), tenant, now))
  {
    hide ParseSyslogLine, Infer, PrintLine, Dispatch, KeyValue.ToDict, SourceHintFromFields;
    PrintedLineRoundTrips(m, "", "", now);
    assert "" + PrintLine(m) + "" == PrintLine(m);
  }

  /** The column holds the field, or nothing if the line does not have it. */
  predicate Copied(column: Option<string>, fields: map<string, string>, key: string) {
    if key in fields then column == Some(fields[key]) else column == None
  }

  /** The event of a firewall envelope, column by column. */
  predicate IsFirewallEvent(e: Event, env: Envelope, tenant: string, srcPort: int, dstPort: int)
    requires {"action", "src", "dst"} <= env.fields.Keys
  {
    var f := env.fields;
    && e.source == "firewall" && e.tenant == tenant && e.eventTime == env.eventTime && e.tags == []
    && e.columns.severity == Some(7 - env.severity)
    && e.columns.action == Some(f["action"]) && e.columns.eventType == "traffic" && e.columns.eventSubtype == None
    && e.columns.srcIp == Some(f["src"]) && e.columns.srcPort == Some(srcPort)
    && e.columns.dstIp == Some(f["dst"]) && e.columns.dstPort == Some(dstPort)
    && Copied(e.columns.vendor, f, "vendor") && Copied(e.columns.product, f, "product")
    && Copied(e.columns.protocol, f, "proto") && Copied(e.columns.ruleName, f, "policy")
    && e.columns.host == Some(env.hostname)
    && e.raw == map["raw_line" := Json(env.rawLine)]
  }

  lemma {:induction false} FirewallEnvelopeDecodes(env: Envelope, tenant: string, now: DateTime, srcPort: nat, dstPort: nat)
    requires env.severity < 8
    requires var f := env.fields;
             && {"action", "src", "spt", "dst", "dpt"} <= f.Keys
             && f["spt"] == ToDecimal(srcPort) && f["dpt"] == ToDecimal(dstPort)
    ensures var e := Dispatch(Some("firewall"), Parsed(env), tenant, now);
            if srcPort <= 65535 && dstPort <= 65535 && VALID_IP(env.fields["src"]) && VALID_IP(env.fields["dst"]) then
              IsFirewallEvent(e, env, tenant, srcPort, dstPort)
            else MarkedAsFallback(e) && e.eventTime == now
  {
    hide ParseInt, ToDecimal;
    ParseIntRoundTrip(srcPort);
    ParseIntRoundTrip(dstPort);
  }

  /** A printed firewall line with two ports is decoded to exactly what it says. */
  lemma {:induction false} FirewallLineDecodes(
    m: Message, tenant: string, now: DateTime, time: DateTime, srcPort: nat, dstPort: nat)
    requires WellFormed(m) && Infer(m.stamp, now) == Known(time)
    requires var f := KeyValue.ToDict(m.pairs);
             && {"action", "src", "spt", "dst", "dpt"} <= f.Keys
             && f["spt"] == ToDecimal(srcPort) && f["dpt"] == ToDecimal(dstPort)
    ensures var f := KeyValue.ToDict(m.pairs);
            var r := HandleMessage(PrintLine(m), tenant, now);
            r.Produced? &&
            if srcPort <= 65535 && dstPort <= 65535 && VALID_IP(f["src"]) && VALID_IP(f["dst"]) then
              IsFirewallEvent(r.event, EnvelopeOf(m, time), tenant, srcPort, dstPort)
            else MarkedAsFallback(r.event) && r.event.eventTime == now
  {
    PrintedIsHandled(m, tenant, now, time);
    FirewallEnvelopeDecodes(EnvelopeOf(m, time), tenant, now, srcPort, dstPort);
  }

  predicate IsNetworkEvent(e: Event, env: Envelope, tenant: string)
    requires "event" in env.fields
  {
    && e.source == "network" && e.tenant == tenant && e.eventTime == env.eventTime && e.tags == []
    && e.columns.severity == Some(7 - env.severity)
    && e.columns.eventType == env.fields["event"] && Copied(e.columns.eventSubtype, env.fields, "reason")
    && e.columns.host == Some(env.hostname)
    && e.columns.vendor == e.columns.product == e.columns.action == e.columns.protocol == e.columns.ruleName == None
    && e.columns.srcIp == e.columns.dstIp == None && e.columns.srcPort == e.columns.dstPort == None
    && e.raw == map["raw_line" := Json(env.rawLine)]
  }

  lemma {:induction false} NetworkEnvelopeDecodes(env: Envelope, tenant: string, now: DateTime)
    requires env.severity < 8 && "event" in env.fields
    ensures IsNetworkEvent(Dispatch(Some("network"), Parsed(env), tenant, now), env, tenant)
  {
  }

  /** A printed line of a router is decoded to what it says, whatever its other keys. */
  lemma {:induction false} NetworkLineDecodes(m: Message, tenant: string, now: DateTime, time: DateTime)
    requires WellFormed(m) && Infer(m.stamp, now) == Known(time)
    requires var f := KeyValue.ToDict(m.pairs);
             "if" in f && "event" in f && !("action" in f && "src" in f)
    ensures var f := KeyValue.ToDict(m.pairs);
            var r := HandleMessage(PrintLine(m), tenant, now);
            r.Produced? && IsNetworkEvent(r.event, EnvelopeOf(m, time), tenant)
  {
    PrintedIsHandled(m, tenant, now, time);
    hide HandleMessage, PrintLine, ParseSyslogLine;
    NetworkEnvelopeDecodes(EnvelopeOf(m, time), tenant, now);
  }

  // ---- The dispatcher and handle_message, spelled out ----

  /** The payload itself, under the key that says what it is. */
  function Original(payload: Payload): Record {
    match payload
    case Object(record) => record
    case Parsed(envelope) => map["raw_line" := Json(envelope.rawLine)]
    case PlainText(text) => map["_raw_text" := Json(text)]
  }

  /** An event of which nothing is known but the payload, the time of receipt and what went wrong. */
  predicate FellBack(e: Event, hint: Option<string>, payload: Payload, tenant: string, now: DateTime, reason: Reason) {
    && e.tenant == tenant && e.eventTime == now && e.source == "unknown" && e.tags == ["fallback"]
    && e.columns == Columns("unparsed", None, None, None, None, None, None, None, None, None, None, None, None)
    && e.raw == Original(payload)["_fallback_reason" := FallbackReason(reason)]["_fallback_source_hint" := SourceHint(hint)]
  }

  /** The range and address constraints of an event. */
  predicate WithinLimits(c: Columns) {
    && (c.severity.Some? ==> 0 <= c.severity.value <= 10)
    && (c.srcPort.Some? ==> 0 <= c.srcPort.value <= 65535)
    && (c.dstPort.Some? ==> 0 <= c.dstPort.value <= 65535)
    && (c.srcIp.Some? ==> VALID_IP(c.srcIp.value))
    && (c.dstIp.Some? ==> VALID_IP(c.dstIp.value))
  }

  /** A JSON record gets its source's time and columns exactly if there are any and they are within limits. */
  lemma {:induction false} JsonRecordIsDispatched(source: string, record: Record, tenant: string, now: DateTime)
    requires source in {"api", "crowdstrike", "aws", "m365", "ad"}
    ensures var e := Dispatch(Some(source), Object(record), tenant, now);
            var c := JSON_COLUMNS(source, record);
            if c.Some? && WithinLimits(c.value.1) then e == Event(tenant, c.value.0, source, c.value.1, record, [])
            else FellBack(e, Some(source), Object(record), tenant, now, NormalizerRaised)
  {
  }

  /** No other source, and no other payload of these, has a normalizer that does not raise. */
  lemma {:induction false} OthersFallBack(hint: Option<string>, payload: Payload, tenant: string, now: DateTime)
    ensures hint !in {Some("api"), Some("crowdstrike"), Some("aws"), Some("m365"), Some("ad"),
                      Some("firewall"), Some("network")} ==>
              FellBack(Dispatch(hint, payload, tenant, now), hint, payload, tenant, now, NoNormalizer)
    ensures hint in {Some("api"), Some("crowdstrike"), Some("aws"), Some("m365"), Some("ad")} && !payload.Object? ==>
              FellBack(Dispatch(hint, payload, tenant, now), hint, payload, tenant, now, NormalizerRaised)
    ensures hint in {Some("firewall"), Some("network")} && !payload.Parsed? ==>
              FellBack(Dispatch(hint, payload, tenant, now), hint, payload, tenant, now, NormalizerRaised)
  {
    hide Firewall, Network, JSON_COLUMNS, Acceptable;
    OtherPayloadsRaise(payload, tenant);
  }

  lemma {:induction false} OtherPayloadsRaise(payload: Payload, tenant: string)
    ensures !payload.Parsed? ==> Firewall(payload, tenant).None? && Network(payload, tenant).None?
  {
  }

  /** A firewall line is complete: five fields, two readable ports in range, two addresses. */
  predicate IsCompleteFirewall(fields: map<string, string>) {
    && "action" in fields && "src" in fields && "spt" in fields && "dst" in fields && "dpt" in fields
    && ParseInt(fields["spt"]).Some? && 0 <= ParseInt(fields["spt"]).value <= 65535
    && ParseInt(fields["dpt"]).Some? && 0 <= ParseInt(fields["dpt"]).value <= 65535
    && VALID_IP(fields["src"]) && VALID_IP(fields["dst"])
  }

  lemma {:induction false} FirewallIsDispatched(env: Envelope, tenant: string, now: DateTime)
    requires env.severity < 8
    ensures var e := Dispatch(Some("firewall"), Parsed(env), tenant, now);
            if IsCompleteFirewall(env.fields) then
              IsFirewallEvent(e, env, tenant, ParseInt(env.fields["spt"]).value, ParseInt(env.fields["dpt"]).value)
            else FellBack(e, Some("firewall"), Parsed(env), tenant, now, NormalizerRaised)
  {
    hide ParseInt;
  }

  lemma {:induction false} LowSeverity(line: string, now: DateTime)
    ensures var p := ParseSyslogLine(line, now); p.Line? ==> p.envelope.severity < 8 && p.envelope.rawLine == line
  {
    ParsedKeepsLine(line, now);
  }

  /** What becomes of a parsed line: the source follows from its fields, and each fallback has its own reason. */
  predicate HandledFrom(e: Event, env: Envelope, tenant: string, now: DateTime) {
    var f := env.fields;
    if "action" in f && "src" in f then
      if IsCompleteFirewall(f) then IsFirewallEvent(e, env, tenant, ParseInt(f["spt"]).value, ParseInt(f["dpt"]).value)
      else FellBack(e, Some("firewall"), Parsed(env), tenant, now, NormalizerRaised)
    else if "if" in f && "event" in f then IsNetworkEvent(e, env, tenant)
    else FellBack(e, Some("unknown"), Parsed(env), tenant, now, NoNormalizer)
  }

  lemma {:induction false} EnvelopeIsHandled(env: Envelope, tenant: string, now: DateTime)
    requires env.severity < 8
    ensures HandledFrom(Dispatch(Some(SourceHintFromFields(env.fields)), Parsed(env), tenant, now), env, tenant, now)
  {
    hide ParseInt, Dispatch, FellBack, IsFirewallEvent, IsNetworkEvent, IsCompleteFirewall;
    FirewallIsDispatched(env, tenant, now);
    OthersFallBack(Some("unknown"), Parsed(env), tenant, now);
    if "event" in env.fields {
      NetworkEnvelopeDecodes(env, tenant, now);
    }
  }

  /** What becomes of any line. */
  lemma {:induction false} MessageIsHandled(line: string, tenant: string, now: DateTime)
    ensures var r := HandleMessage(line, tenant, now);
            match ParseSyslogLine(line, now)
            case Failed(OverflowError) => r == Escaped(OverflowError)
            case Failed(ValueError) =>
              r.Produced? && FellBack(r.event, Some("unknown"), PlainText(line), tenant, now, NoNormalizer)
            case Line(env) => r.Produced? && env.rawLine == line && HandledFrom(r.event, env, tenant, now)
  {
    hide ParseSyslogLine, Dispatch, FellBack, HandledFrom, SourceHintFromFields;
    LowSeverity(line, now);
    match ParseSyslogLine(line, now)
    case Failed(OverflowError) =>
    case Failed(ValueError) => OthersFallBack(Some("unknown"), PlainText(line), tenant, now);
    case Line(env) => EnvelopeIsHandled(env, tenant, now);
  }

  /** The whitespace that `int` skips, in ASCII; and what it makes of a few texts. */
  lemma {:induction false} IntSpaces(c: char)
    ensures c < '\U{80}' ==> (IsIntSpace(c) <==> c as int in {9, 10, 11, 12, 13, 32})
    ensures c >= '\U{80}' ==> (IsIntSpace(c) <==> IsSpace(c))
    ensures IsSign(c) <==> c in {'+', '-'}
  {
  }
}
