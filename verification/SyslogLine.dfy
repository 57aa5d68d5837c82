/** One RFC 3164 line: PRI (section 4.1.1), HEADER (section 4.1.2) and the key/value MSG of this system. */
module SyslogLine {
  import opened Text
  import opened Regex
  import opened Calendar
  import opened TimeInference
  import KeyValue

  // ---- Patterns that are a row of greedy runs up to `$` ----

  datatype Span = Span(p: char -> bool, lo: nat, hi: Bound)

  predicate InSpan(x: string, span: Span) {
    All(span.p, x) && span.lo <= |x| && Within(|x|, span.hi)
  }

  function Pattern(spans: seq<Span>): Re {
    if spans == [] then End(Done) else Greedy(spans[0].p, spans[0].lo, spans[0].hi, Pattern(spans[1..]))
  }

  /** The text between the positions of a path. */
  function Parts(s: string, i: nat, path: Path, n: nat): seq<string>
    decreases n
  {
    if n == 0 || path.Stop? || !(i <= path.pos <= |s|) then []
    else [s[i..path.pos]] + Parts(s, path.pos, path.rest, n - 1)
  }

  function PathOf(i: nat, parts: seq<string>): Path
    decreases |parts|
  {
    if parts == [] then Step(i, Stop) else Step(i + |parts[0]|, PathOf(i + |parts[0]|, parts[1..]))
  }

  /** `parts` cuts `s` into one piece per span. */
  predicate Splits(spans: seq<Span>, parts: seq<string>, s: string) {
    && |parts| == |spans| && Concat(parts) == s
    && forall k :: 0 <= k < |spans| ==> InSpan(parts[k], spans[k])
  }

  predicate NoFinalNewline(s: string) {
    s != "" ==> s[|s| - 1] != '\n'
  }

  lemma {:induction false} SplitHead(spans: seq<Span>, parts: seq<string>, s: string)
    requires spans != []
    ensures Splits(spans, parts, s) <==>
              && parts != [] && InSpan(parts[0], spans[0]) && parts[0] <= s
              && Splits(spans[1..], parts[1..], s[|parts[0]|..])
  {
    if parts != [] {
      assert forall k :: 0 < k < |spans| ==> spans[k] == spans[1..][k - 1];
      assert forall k :: 0 < k < |parts| ==> parts[k] == parts[1..][k - 1];
      assert Concat(parts) == parts[0] + Concat(parts[1..]);
      if parts[0] <= s {
        assert s == parts[0] + s[|parts[0]|..];
      }
    }
  }

  lemma {:induction false} FitsIsSplit(spans: seq<Span>, s: string, i: nat, path: Path)
    requires i <= |s| && NoFinalNewline(s) && Fits(Pattern(spans), s, i, path)
    ensures Splits(spans, Parts(s, i, path, |spans|), s[i..])
    ensures path == PathOf(i, Parts(s, i, path, |spans|))
    decreases |spans|
  {
    if spans == [] {
      assert Fits(Done, s, i, path.rest);
    } else {
      var e := path.pos;
      assert Pattern(spans) == Greedy(spans[0].p, spans[0].lo, spans[0].hi, Pattern(spans[1..]));
      FitsIsSplit(spans[1..], s, e, path.rest);
      var rest := Parts(s, e, path.rest, |spans| - 1);
      FirstPiece(spans, s, i, e, rest);
      var parts := [s[i..e]] + rest;
      assert parts[1..] == rest;
      assert Parts(s, i, path, |spans|) == parts;
      assert PathOf(i, parts) == Step(e, PathOf(e, rest));
    }
  }

  lemma {:induction false} FirstPiece(spans: seq<Span>, s: string, i: nat, e: nat, rest: seq<string>)
    requires spans != [] && Run(spans[0].p, s, i, e) && i + spans[0].lo <= e && Within(e - i, spans[0].hi)
    requires Splits(spans[1..], rest, s[e..])
    ensures Splits(spans, [s[i..e]] + rest, s[i..])
  {
    var parts := [s[i..e]] + rest;
    assert parts[1..] == rest;
    assert s[i..][|parts[0]|..] == s[e..];
    SplitHead(spans, parts, s[i..]);
  }

  lemma {:induction false} SplitFits(spans: seq<Span>, s: string, i: nat, parts: seq<string>)
    requires i <= |s| && Splits(spans, parts, s[i..])
    ensures Fits(Pattern(spans), s, i, PathOf(i, parts))
    ensures Parts(s, i, PathOf(i, parts), |spans|) == parts
    decreases |spans|
  {
    if spans == [] {
      assert Fits(Done, s, i, Stop);
    } else {
      SplitHead(spans, parts, s[i..]);
      var e := i + |parts[0]|;
      assert s[i..e] == s[i..][..|parts[0]|] == parts[0];
      assert forall k :: i <= k < e ==> s[k] == parts[0][k - i];
      assert s[e..] == s[i..][|parts[0]|..];
      SplitFits(spans[1..], s, e, parts[1..]);
    }
  }

  /** The end of span `k` cannot move: its width is fixed, or the next span starts with a foreign character. */
  ghost predicate Fixed(spans: seq<Span>, k: nat)
    requires k < |spans|
  {
    || spans[k].hi == Most(spans[k].lo)
    || (k + 1 < |spans| && spans[k + 1].lo >= 1 && forall c :: !(spans[k].p(c) && spans[k + 1].p(c)))
  }

  lemma {:induction false} ForeignEnd(p: char -> bool, q: char -> bool, x: string, u: string, y: string, v: string)
    requires x + u == y + v && All(p, x) && v != "" && q(v[0])
    requires forall c :: !(p(c) && q(c))
    ensures |x| <= |y|
  {
    assert forall k :: 0 <= k < |x| ==> (x + u)[k] == x[k];
    assert (y + v)[|y|] == v[0];
  }

  lemma {:induction false} FixedPartIsUnique(spans: seq<Span>, s: string, a: seq<string>, b: seq<string>)
    requires spans != [] && Splits(spans, a, s) && Splits(spans, b, s) && Fixed(spans, 0)
    ensures |a[0]| <= |b[0]|
  {
    SplitHead(spans, a, s);
    SplitHead(spans, b, s);
    if spans[0].hi != Most(spans[0].lo) {
      SplitHead(spans[1..], b[1..], s[|b[0]|..]);
      ForeignEnd(spans[0].p, spans[1].p, a[0], s[|a[0]|..], b[0], s[|b[0]|..]);
    }
  }

  lemma {:induction false} SplitIsUnique(spans: seq<Span>, m: nat, s: string, a: seq<string>, b: seq<string>)
    requires m <= |spans| && Splits(spans, a, s) && Splits(spans, b, s)
    requires forall k :: 0 <= k < m ==> Fixed(spans, k)
    ensures a[..m] == b[..m]
    decreases m
  {
    if m > 0 {
      FixedPartIsUnique(spans, s, a, b);
      FixedPartIsUnique(spans, s, b, a);
      SplitHead(spans, a, s);
      SplitHead(spans, b, s);
      assert a[0] == b[0];
      forall k | 0 <= k < m - 1
        ensures Fixed(spans[1..], k)
      {
        assert Fixed(spans, k + 1);
      }
      SplitIsUnique(spans[1..], m - 1, s[|a[0]|..], a[1..], b[1..]);
      assert a[..m] == [a[0]] + a[1..][..m - 1];
      assert b[..m] == [b[0]] + b[1..][..m - 1];
    }
  }

  /** Between splits that agree on the first `m` parts, the engine prefers the longer part `m`. */
  lemma {:induction false} PreferredIsLonger(spans: seq<Span>, i: nat, m: nat, a: seq<string>, b: seq<string>)
    requires |a| == |b| == |spans| && m < |spans| && a[..m] == b[..m]
    requires Preferred(Pattern(spans), PathOf(i, a), PathOf(i, b))
    ensures |a[m]| >= |b[m]|
    decreases m
  {
    if m > 0 {
      assert a[0] == a[..m][0] == b[..m][0] == b[0];
      assert a[1..][..m - 1] == a[..m][1..] && b[1..][..m - 1] == b[..m][1..];
      PreferredIsLonger(spans[1..], i + |a[0]|, m - 1, a[1..], b[1..]);
    }
  }

  // ---- LINE_RE ----

  predicate IsLess(c: char) {
    c == '<'
  }

  predicate IsGreater(c: char) {
    c == '>'
  }

  predicate IsColon(c: char) {
    c == ':'
  }

  const SPACES := Span(IsSpace, 1, Many)
  const TWO_DIGITS := Span(IsDigit, 2, Most(2))
  const COLON := Span(IsColon, 1, Most(1))

  /**
   `^<(?P<pri>\d{1,3})>(?P<month>\w{3})\s+(?P<day>\d{1,2})\s+(?P<time>\d{2}:\d{2}:\d{2})\s+
   (?P<host>\S+)\s+(?P<rest>.*)$`
   */
  const LINE: seq<Span> := [
    Span(IsLess, 1, Most(1)), Span(IsDigit, 1, Most(3)), Span(IsGreater, 1, Most(1)),
    Span(IsWord, 3, Most(3)), SPACES, Span(IsDigit, 1, Most(2)), SPACES,
    TWO_DIGITS, COLON, TWO_DIGITS, COLON, TWO_DIGITS, SPACES,
    Span(NotSpace, 1, Many), SPACES, Span(NotNewline, 0, Many)
  ]

  const PRI := 1
  const MONTH := 3
  const DAY := 5
  const HOUR := 7
  const MINUTE := 9
  const SECOND := 11
  const HOST := 13
  const GAP := 14
  const REST := 15

  /** `LINE_RE.match` on stripped text: the text of each piece of the pattern. */
  function MatchLine(s: string): (r: Option<seq<string>>)
    requires NoFinalNewline(s)
    ensures r.Some? ==> Splits(LINE, r.value, s)
  {
    var m := First(Pattern(LINE), s, 0);
    if m.None? then None
    else
      FirstIsBest(Pattern(LINE), s, 0, Stop);
      FitsIsSplit(LINE, s, 0, m.value);
      Some(Parts(s, 0, m.value, |LINE|))
  }

  lemma {:induction false} LineIsFixed()
    ensures forall k :: 0 <= k < GAP ==> Fixed(LINE, k)
  {
    assert Fixed(LINE, 1);
    assert Fixed(LINE, 4);
    assert Fixed(LINE, 5);
    assert Fixed(LINE, 6);
    assert Fixed(LINE, 12);
    assert Fixed(LINE, 13);
  }

  predicate StartsWithText(rest: string) {
    rest != "" ==> NotSpace(rest[0])
  }

  /** Splits of the same line differ at most in how the last whitespace is shared between gap and rest. */
  lemma {:induction false} LinesDifferInGap(s: string, a: seq<string>, b: seq<string>)
    requires Splits(LINE, a, s) && Splits(LINE, b, s)
    ensures a[..GAP] == b[..GAP]
    ensures a[GAP] + a[REST] == b[GAP] + b[REST]
  {
    LineIsFixed();
    SplitIsUnique(LINE, GAP, s, a, b);
    LastTwo(a, s);
    LastTwo(b, s);
    var n := |Concat(a[..GAP])|;
    assert a[GAP] + a[REST] == s[n..] == b[GAP] + b[REST];
  }

  lemma {:induction false} LastTwo(a: seq<string>, s: string)
    requires |a| == 16 && Concat(a) == s
    ensures s == Concat(a[..GAP]) + (a[GAP] + a[REST])
  {
    ConcatSplit(a, GAP);
    assert a[GAP..] == [a[GAP], a[REST]];
    assert Concat(a[GAP..]) == a[GAP] + Concat([a[REST]]);
    assert Concat([a[REST]]) == a[REST] + Concat([]);
  }

  lemma {:induction false} ConcatSplit(a: seq<string>, m: nat)
    requires m <= |a|
    ensures Concat(a) == Concat(a[..m]) + Concat(a[m..])
  {
    if m > 0 {
      ConcatSplit(a[1..], m - 1);
      assert a[..m][1..] == a[1..][..m - 1];
      assert a[m..] == a[1..][m - 1..];
    } else {
      assert a[0..] == a;
    }
  }

  /** The engine's match is the split whose rest starts with text: that split always matches, and no other. */
  lemma {:induction false} MatchLineIs(s: string, parts: seq<string>)
    requires NoFinalNewline(s)
    ensures MatchLine(s) == Some(parts) <==> Splits(LINE, parts, s) && StartsWithText(parts[REST])
  {
    if Splits(LINE, parts, s) && StartsWithText(parts[REST]) {
      EngineBeats(s, parts);
      var a := MatchLine(s).value;
      LinesDifferInGap(s, a, parts);
      assert InSpan(a[GAP], LINE[GAP]);
      SharedGap(a[GAP], a[REST], parts[GAP], parts[REST]);
      assert a == a[..GAP] + [a[GAP], a[REST]];
      assert parts == parts[..GAP] + [parts[GAP], parts[REST]];
    }
    if MatchLine(s) == Some(parts) && !StartsWithText(parts[REST]) {
      var longer := WidenGap(s, parts);
      EngineBeats(s, longer);
      assert false;
    }
  }

  /** Whitespace at the start of the rest could have gone to the gap. */
  lemma {:induction false} WidenGap(s: string, parts: seq<string>) returns (longer: seq<string>)
    requires Splits(LINE, parts, s) && !StartsWithText(parts[REST])
    ensures Splits(LINE, longer, s) && |longer[GAP]| > |parts[GAP]|
  {
    var c := parts[REST][0];
    longer := parts[GAP := parts[GAP] + [c]][REST := parts[REST][1..]];
    LastTwo(parts, s);
    LastTwo(longer, Concat(longer));
    assert longer[..GAP] == parts[..GAP];
    assert longer[GAP] + longer[REST] == parts[GAP] + parts[REST];
    assert InSpan(parts[GAP], LINE[GAP]) && InSpan(parts[REST], LINE[REST]);
    forall k | 0 <= k < |LINE|
      ensures InSpan(longer[k], LINE[k])
    {
      if k < GAP {
        assert longer[k] == parts[k];
      }
    }
  }

  lemma {:induction false} SharedGap(gap: string, rest: string, gap': string, rest': string)
    requires gap + rest == gap' + rest' && All(IsSpace, gap) && StartsWithText(rest') && |gap| >= |gap'|
    ensures gap == gap' && rest == rest'
  {
    assert forall k :: 0 <= k < |gap| ==> (gap + rest)[k] == gap[k];
    assert forall k :: 0 <= k < |rest'| ==> (gap' + rest')[|gap'| + k] == rest'[k];
    assert gap == (gap + rest)[..|gap|];
    assert rest == (gap + rest)[|gap|..];
  }

  lemma {:induction false} EngineBeats(s: string, b: seq<string>)
    requires NoFinalNewline(s) && Splits(LINE, b, s)
    ensures MatchLine(s).Some? && |MatchLine(s).value[GAP]| >= |b[GAP]|
  {
    assert s[0..] == s;
    SplitFits(LINE, s, 0, b);
    FirstIsBest(Pattern(LINE), s, 0, PathOf(0, b));
    var m := First(Pattern(LINE), s, 0).value;
    FitsIsSplit(LINE, s, 0, m);
    var a := MatchLine(s).value;
    LinesDifferInGap(s, a, b);
    PreferredIsLonger(LINE, 0, GAP, a, b);
  }

  // ---- parse_syslog_line ----

  datatype Envelope = Envelope(
    facility: nat, severity: nat, eventTime: DateTime, hostname: string, fields: map<string, string>, rawLine: string)

  datatype Parsed = Line(envelope: Envelope) | Failed(error: Error)

  function StampOf(parts: seq<string>): Stamp
    requires |parts| == |LINE| && forall k :: 0 <= k < |LINE| ==> InSpan(parts[k], LINE[k])
  {
    assert InSpan(parts[DAY], LINE[DAY]) && InSpan(parts[HOUR], LINE[HOUR]);
    assert InSpan(parts[MINUTE], LINE[MINUTE]) && InSpan(parts[SECOND], LINE[SECOND]);
    Stamp(parts[MONTH], FromDecimal(parts[DAY]),
      FromDecimal(parts[HOUR]), FromDecimal(parts[MINUTE]), FromDecimal(parts[SECOND]))
  }

  function ParseSyslogLine(line: string, now: DateTime): Parsed {
    StripRightEnd(IsSpace, StripLeft(IsSpace, line));
    var m := MatchLine(Strip(IsSpace, line));
    if m.None? then Failed(ValueError)
    else
      var parts := m.value;
      assert InSpan(parts[PRI], LINE[PRI]);
      var pri := FromDecimal(parts[PRI]);
      var time := Infer(StampOf(parts), now);
      if time.Raised? then Failed(time.error)
      else Line(Envelope(pri / 8, pri % 8, time.time, parts[HOST], KeyValue.ParseKv(parts[REST]), line))
  }

  // ---- The pattern spelled out ----

  ghost predicate Digits(x: string, lo: nat, hi: nat) {
    lo <= |x| <= hi && All(IsDigit, x)
  }

  ghost predicate Blank(x: string) {
    x != "" && All(IsSpace, x)
  }

  /** The sixteen pieces of a line that `LINE_RE` matches, one by one. */
  ghost predicate HasShape(parts: seq<string>) {
    && |parts| == 16
    && parts[0] == "<" && Digits(parts[1], 1, 3) && parts[2] == ">"
    && |parts[3]| == 3 && All(IsWord, parts[3]) && Blank(parts[4])
    && Digits(parts[5], 1, 2) && Blank(parts[6])
    && Digits(parts[7], 2, 2) && parts[8] == ":" && Digits(parts[9], 2, 2) && parts[10] == ":"
    && Digits(parts[11], 2, 2) && Blank(parts[12])
    && parts[13] != "" && All(NotSpace, parts[13]) && Blank(parts[14])
    && All(NotNewline, parts[15]) && (parts[15] != "" ==> !IsSpace(parts[15][0]))
  }

  lemma {:induction false} ShapeIsSplit(parts: seq<string>)
    requires |parts| == 16
    ensures HasShape(parts) <==> Splits(LINE, parts, Concat(parts)) && StartsWithText(parts[REST])
  {
    hide Concat, IsSpace, IsWord, IsDigit;
    if Splits(LINE, parts, Concat(parts)) {
      assert InSpan(parts[0], LINE[0]) && InSpan(parts[1], LINE[1]);
      assert InSpan(parts[2], LINE[2]) && InSpan(parts[3], LINE[3]);
      assert InSpan(parts[4], LINE[4]) && InSpan(parts[5], LINE[5]);
      assert InSpan(parts[6], LINE[6]) && InSpan(parts[7], LINE[7]);
      assert InSpan(parts[8], LINE[8]) && InSpan(parts[9], LINE[9]);
      assert InSpan(parts[10], LINE[10]) && InSpan(parts[11], LINE[11]);
      assert InSpan(parts[12], LINE[12]) && InSpan(parts[13], LINE[13]);
      assert InSpan(parts[14], LINE[14]) && InSpan(parts[15], LINE[15]);
      assert IsLess(parts[0][0]) && IsGreater(parts[2][0]) && IsColon(parts[8][0]) && IsColon(parts[10][0]);
    }
  }

  /** Exactly the lines of this shape match, and their pieces are what the groups capture. */
  lemma {:induction false} MatchIsShape(s: string, parts: seq<string>)
    requires NoFinalNewline(s)
    ensures MatchLine(s) == Some(parts) <==> Concat(parts) == s && HasShape(parts)
  {
    hide HasShape, MatchLine;
    MatchLineIs(s, parts);
    if |parts| == 16 {
      ShapeIsSplit(parts);
    } else {
      NotSixteen(s, parts);
    }
  }

  lemma {:induction false} NotSixteen(s: string, parts: seq<string>)
    requires |parts| != 16
    ensures !Splits(LINE, parts, s) && !HasShape(parts)
  {
  }

  lemma {:induction false} ConcatHead(a: string, rest: seq<string>)
    ensures Concat([a] + rest) == a + Concat(rest)
  {
    assert ([a] + rest)[1..] == rest;
  }

  lemma {:induction false} ConcatFour(a: string, b: string, c: string, d: string, rest: seq<string>)
    ensures Concat([a, b, c, d] + rest) == a + b + c + d + Concat(rest)
  {
    hide Concat;
    ConcatHead(d, rest);
    ConcatHead(c, [d] + rest);
    ConcatHead(b, [c] + ([d] + rest));
    ConcatHead(a, [b] + ([c] + ([d] + rest)));
    assert [a, b, c, d] + rest == [a] + ([b] + ([c] + ([d] + rest)));
  }

  lemma {:induction false} ConcatSixteen(p: seq<string>)
    requires |p| == 16
    ensures Concat(p) == p[0] + p[1] + p[2] + p[3] + (p[4] + p[5] + p[6] + p[7]
                       + (p[8] + p[9] + p[10] + p[11] + (p[12] + p[13] + p[14] + p[15])))
  {
    hide Concat;
    ConcatFour(p[0], p[1], p[2], p[3], p[4..]);
    ConcatFour(p[4], p[5], p[6], p[7], p[8..]);
    ConcatFour(p[8], p[9], p[10], p[11], p[12..]);
    ConcatFour(p[12], p[13], p[14], p[15], []);
    assert [p[0], p[1], p[2], p[3]] + p[4..] == p;
    assert [p[4], p[5], p[6], p[7]] + p[8..] == p[4..];
    assert [p[8], p[9], p[10], p[11]] + p[12..] == p[8..];
    assert [p[12], p[13], p[14], p[15]] + [] == p[12..];
    assert Concat([]) == "" by {
      NothingToConcat();
    }
  }

  lemma {:induction false} NothingToConcat()
    ensures Concat([]) == ""
  {
  }

  /**
   Any line with the pieces of a header in order, and whitespace of any kind and length between and around
   them, is parsed to what the pieces say.
   */
  lemma {:induction false} HeaderIsParsed(p: seq<string>, left: string, right: string, now: DateTime)
    requires HasShape(p) && All(IsSpace, left) && All(IsSpace, right)
    requires p[15] != "" && !IsSpace(p[15][|p[15]| - 1])
    ensures var line := left + (p[0] + p[1] + p[2] + p[3] + (p[4] + p[5] + p[6] + p[7]
                              + (p[8] + p[9] + p[10] + p[11] + (p[12] + p[13] + p[14] + p[15])))) + right;
            var pri := FromDecimal(p[1]);
            ParseSyslogLine(line, now) ==
              match Infer(Stamp(p[3], FromDecimal(p[5]), FromDecimal(p[7]), FromDecimal(p[9]), FromDecimal(p[11])), now)
              case Raised(error) => Failed(error)
              case Known(time) => Line(Envelope(pri / 8, pri % 8, time, p[13], KeyValue.ParseKv(p[15]), line))
  {
    hide Infer, ParseSyslogLine, Strip, FromDecimal, KeyValue.ParseKv, Concat, MatchLine;
    var s := Concat(p);
    ConcatSixteen(p);
    var line := left + s + right;
    ShapeIsTrimmed(p);
    assert Strip(IsSpace, line) == s by {
      StripPadding(IsSpace, left, s, right);
    }
    TrimmedEnds(s);
    MatchIsShape(s, p);
    ParseMatched(line, p, now);
  }

  lemma {:induction false} ShapeIsTrimmed(p: seq<string>)
    requires HasShape(p) && p[15] != "" && !IsSpace(p[15][|p[15]| - 1])
    ensures Trimmed(IsSpace, Concat(p))
  {
    hide Concat, Digits, Blank;
    ConcatSixteen(p);
    var s := Concat(p);
    assert s[0] == p[0][0];
    assert s[|s| - 1] == p[15][|p[15]| - 1];
  }

  // ---- Printing a line and reading it back ----

  datatype Message = Message(facility: nat, severity: nat, stamp: Stamp, host: string, pairs: seq<(string, string)>)

  ghost predicate WellFormed(m: Message) {
    && m.severity < 8 && 8 * m.facility + m.severity < 1000
    && |m.stamp.month| == 3 && All(IsWord, m.stamp.month)
    && m.stamp.day < 100 && m.stamp.hour < 100 && m.stamp.minute < 100 && m.stamp.second < 100
    && m.host != "" && All(NotSpace, m.host)
    && m.pairs != [] && KeyValue.Printable(m.pairs)
    && (forall k :: 0 <= k < |m.pairs| ==> KeyValue.Unbroken(m.pairs[k].1))
    && var last := m.pairs[|m.pairs| - 1].1; last != "" ==> NotSpace(last[|last| - 1])
  }

  /** PRI is 8 * facility + severity; a one-digit day is padded with a space. */
  function LineParts(m: Message): seq<string>
    requires m.stamp.hour < 100 && m.stamp.minute < 100 && m.stamp.second < 100
  {
    [ "<", ToDecimal(8 * m.facility + m.severity), ">",
      m.stamp.month, if m.stamp.day < 10 then "  " else " ", ToDecimal(m.stamp.day), " ",
      TwoDigits(m.stamp.hour), ":", TwoDigits(m.stamp.minute), ":", TwoDigits(m.stamp.second), " ",
      m.host, " ", KeyValue.PrintPairs(m.pairs) ]
  }

  function PrintLine(m: Message): string
    requires m.stamp.hour < 100 && m.stamp.minute < 100 && m.stamp.second < 100
  {
    Concat(LineParts(m))
  }

  lemma {:induction false} PrintedEnds(pairs: seq<(string, string)>)
    requires KeyValue.Printable(pairs) && pairs != []
    requires var last := pairs[|pairs| - 1].1; last != "" ==> NotSpace(last[|last| - 1])
    ensures Trimmed(IsSpace, KeyValue.PrintPairs(pairs))
  {
    var s := KeyValue.PrintPairs(pairs);
    assert s[0] == pairs[0].0[0];
    if |pairs| == 1 {
      var value := pairs[0].1;
      assert s[|s| - 1] == if value == "" then '=' else value[|value| - 1];
    } else {
      PrintedEnds(pairs[1..]);
    }
  }

  lemma {:induction false} PrintedSplits(m: Message)
    requires WellFormed(m)
    ensures Splits(LINE, LineParts(m), PrintLine(m)) && StartsWithText(LineParts(m)[REST])
    ensures Trimmed(IsSpace, PrintLine(m))
  {
    hide InSpan, ToDecimal, TwoDigits, KeyValue.PrintPairs;
    PrintedEnds(m.pairs);
    var parts := LineParts(m);
    forall k | 0 <= k < |LINE|
      ensures InSpan(parts[k], LINE[k])
    {
      PartInSpan(m, k);
    }
    LastTwo(parts, PrintLine(m));
    assert PrintLine(m)[0] == parts[0][0];
  }

  lemma {:induction false} PartInSpan(m: Message, k: nat)
    requires WellFormed(m) && k < |LINE|
    ensures InSpan(LineParts(m)[k], LINE[k])
  {
    hide ToDecimal, TwoDigits, FromDecimal, KeyValue.PrintPairs, KeyValue.Unbroken;
    if k == PRI {
      DecimalRoundTrip(8 * m.facility + m.severity);
      DecimalLength(8 * m.facility + m.severity);
    } else if k == DAY {
      DecimalRoundTrip(m.stamp.day);
      DecimalLength(m.stamp.day);
    } else if k == HOUR || k == MINUTE || k == SECOND {
      TwoDigitsRoundTrip(m.stamp.hour);
      TwoDigitsRoundTrip(m.stamp.minute);
      TwoDigitsRoundTrip(m.stamp.second);
    } else if k == REST {
      KeyValue.PrintedHasNoNewline(m.pairs);
    }
  }

  lemma {:induction false} PrintedStamp(m: Message)
    requires WellFormed(m) && Splits(LINE, LineParts(m), PrintLine(m))
    ensures StampOf(LineParts(m)) == m.stamp
  {
    DecimalRoundTrip(m.stamp.day);
    TwoDigitsRoundTrip(m.stamp.hour);
    TwoDigitsRoundTrip(m.stamp.minute);
    TwoDigitsRoundTrip(m.stamp.second);
  }

  /**
   A printed line, with any whitespace around it, is read back as it was printed: facility, severity,
   time stamp, host and the dictionary of the pairs. Only year inference can still refuse it.
   */
  lemma {:induction false} PrintedLineRoundTrips(m: Message, left: string, right: string, now: DateTime)
    requires WellFormed(m) && All(IsSpace, left) && All(IsSpace, right)
    ensures var line := left + PrintLine(m) + right;
            ParseSyslogLine(line, now) ==
              match Infer(m.stamp, now)
              case Raised(error) => Failed(error)
              case Known(time) => Line(Envelope(m.facility, m.severity, time, m.host, KeyValue.ToDict(m.pairs), line))
  {
    hide MatchLine, Splits, PrintLine, StampOf, Infer, ParseSyslogLine, Strip, Trimmed, ToDecimal, FromDecimal;
    hide KeyValue.ParseKv, KeyValue.PrintPairs, KeyValue.ToDict;
    var line := left + PrintLine(m) + right;
    PrintedMatch(m);
    assert Strip(IsSpace, line) == PrintLine(m) by {
      StripPadding(IsSpace, left, PrintLine(m), right);
    }
    TrimmedEnds(PrintLine(m));
    ParseMatched(line, LineParts(m), now);
    var pri := 8 * m.facility + m.severity;
    DecimalRoundTrip(pri);
    assert pri / 8 == m.facility && pri % 8 == m.severity;
    assert LineParts(m)[PRI] == ToDecimal(pri) && LineParts(m)[HOST] == m.host;
    assert LineParts(m)[REST] == KeyValue.PrintPairs(m.pairs);
    assert KeyValue.ParseKv(KeyValue.PrintPairs(m.pairs)) == KeyValue.ToDict(m.pairs) by {
      KeyValue.PrintedDictRoundTrips(m.pairs);
    }
  }

  lemma {:induction false} TrimmedEnds(s: string)
    requires Trimmed(IsSpace, s)
    ensures NoFinalNewline(s)
  {
  }

  lemma {:induction false} PrintedMatch(m: Message)
    requires WellFormed(m)
    ensures Trimmed(IsSpace, PrintLine(m)) && MatchLine(PrintLine(m)) == Some(LineParts(m))
    ensures StampOf(LineParts(m)) == m.stamp
  {
    PrintedSplits(m);
    MatchLineIs(PrintLine(m), LineParts(m));
    PrintedStamp(m);
  }

  lemma {:induction false} ParseMatched(line: string, parts: seq<string>, now: DateTime)
    requires NoFinalNewline(Strip(IsSpace, line)) && MatchLine(Strip(IsSpace, line)) == Some(parts)
    ensures InSpan(parts[PRI], LINE[PRI])
    ensures ParseSyslogLine(line, now) ==
              var pri := FromDecimal(parts[PRI]);
              match Infer(StampOf(parts), now)
              case Raised(error) => Failed(error)
              case Known(time) =>
                Line(Envelope(pri / 8, pri % 8, time, parts[HOST], KeyValue.ParseKv(parts[REST]), line))
  {
    assert InSpan(parts[PRI], LINE[PRI]);
  }
}
