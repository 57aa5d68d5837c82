/**
 The syslog listener as a state machine. A step is what runs between two suspension points: a datagram
 callback, a connection's read, a connection's resumed put, the writer's get, the end of a write.
 */
module ListenerModel {
  import opened Text
  import opened Calendar
  import opened Normalize

  datatype Origin = Udp | Tcp(conn: nat)

  datatype Message = Message(origin: Origin, event: Event)

  /** A message as it was received; only a refused one never enters the queue. */
  datatype Arrival = Arrival(message: Message, accepted: bool)

  datatype Outcome = Outcome(message: Message, written: bool)

  datatype State = State(
    tenant: string, maxsize: int,
    arrivals: seq<Arrival>, waiting: map<nat, Message>, queue: seq<Message>, current: Option<Message>,
    handled: seq<Outcome>, unfinished: int, alive: bool)

  datatype Step =
    | Datagram(data: string, now: DateTime)
    | ReadLine(conn: nat, raw: string, now: DateTime)
    | ResumePut(conn: nat)
    | Take
    | Finish(written: bool)
    | Cancel

  // ---- Framing: newline-delimited lines (section 3.4.2 of RFC 6587) ----

  /** `rstrip("\n")`. */
  function StripNewlines(s: string): string {
    if s != "" && s[|s| - 1] == '\n' then StripNewlines(s[..|s| - 1]) else s
  }

  /** All newlines at the end go, and nothing else. */
  lemma {:induction false} StripNewlinesIs(s: string) returns (newlines: string)
    ensures s == StripNewlines(s) + newlines && forall k :: 0 <= k < |newlines| ==> newlines[k] == '\n'
    ensures var line := StripNewlines(s); line != "" ==> line[|line| - 1] != '\n'
  {
    newlines := "";
    if s != "" && s[|s| - 1] == '\n' {
      newlines := StripNewlinesIs(s[..|s| - 1]);
      newlines := newlines + "\n";
    }
  }

  function LineEnd(stream: string): (n: nat)
    requires stream != ""
    ensures 0 < n <= |stream|
    ensures forall k :: 0 <= k < n - 1 ==> stream[k] != '\n'
    ensures n < |stream| ==> stream[n - 1] == '\n'
  {
    if stream[0] == '\n' || |stream| == 1 then 1 else 1 + LineEnd(stream[1..])
  }

  /** What successive `readline` calls return until the end of the stream. */
  function ReadLines(stream: string): seq<string> {
    if stream == "" then []
    else
      var n := LineEnd(stream);
      [stream[..n]] + ReadLines(stream[n..])
  }

  /** The lines a connection handles: newlines removed, empty lines skipped. */
  function Frames(raws: seq<string>): seq<string> {
    if raws == [] then []
    else
      var line := StripNewlines(raws[0]);
      (if line == "" then [] else [line]) + Frames(raws[1..])
  }

  function Terminated(lines: seq<string>): string {
    if lines == [] then "" else lines[0] + "\n" + Terminated(lines[1..])
  }

  lemma {:induction false} ReadLinesLoseNothing(stream: string)
    ensures Concat(ReadLines(stream)) == stream
    decreases |stream|
  {
    if stream != "" {
      ReadLinesLoseNothing(stream[LineEnd(stream)..]);
    }
  }

  /** The lines that are not empty. */
  function NotEmpty(lines: seq<string>): seq<string> {
    if lines == [] then [] else (if lines[0] == "" then [] else [lines[0]]) + NotEmpty(lines[1..])
  }

  /** Lines sent with a newline after each are read back one by one, empty ones left out, and so is what follows the last. */
  lemma {:induction false} FramesRoundTrip(lines: seq<string>, last: string)
    requires forall k :: 0 <= k < |lines| ==> All(NotNewline, lines[k])
    requires All(NotNewline, last)
    ensures Frames(ReadLines(Terminated(lines) + last)) == NotEmpty(lines) + if last == "" then [] else [last]
  {
    hide All, Frames, ReadLines, NotEmpty;
    var end := if last == "" then [] else [last];
    if lines == [] {
      assert Terminated(lines) + last == last;
      LastFrame(last);
      NotEmptyHead("", []);
    } else {
      var line, rest := lines[0], lines[1..];
      assert forall k :: 0 <= k < |rest| ==> rest[k] == lines[k + 1];
      FramesRoundTrip(rest, last);
      FirstFrame(line, Terminated(rest) + last);
      assert Terminated(lines) + last == line + "\n" + (Terminated(rest) + last);
      assert lines == [line] + rest;
      NotEmptyHead(line, rest);
      var head := if line == "" then [] else [line];
      assert (head + NotEmpty(rest)) + end == head + (NotEmpty(rest) + end);
    }
  }

  lemma {:induction false} NotEmptyHead(line: string, rest: seq<string>)
    ensures NotEmpty([line] + rest) == (if line == "" then [] else [line]) + NotEmpty(rest) && NotEmpty([]) == []
  {
    assert ([line] + rest)[1..] == rest;
  }

  lemma {:induction false} FirstFrame(line: string, rest: string)
    requires All(NotNewline, line)
    ensures Frames(ReadLines(line + "\n" + rest)) == (if line == "" then [] else [line]) + Frames(ReadLines(rest))
  {
    var stream := line + "\n" + rest;
    assert stream[|line|] == '\n';
    assert forall k :: 0 <= k < |line| ==> stream[k] == line[k];
    var n := LineEnd(stream);
    assert n == |line| + 1;
    assert stream[..n] == line + "\n" && stream[n..] == rest;
    assert (line + "\n")[..|line|] == line;
    assert StripNewlines(line + "\n") == line;
    var raws := ReadLines(stream);
    assert raws[0] == line + "\n" && raws[1..] == ReadLines(rest);
  }

  lemma {:induction false} LastFrame(last: string)
    requires All(NotNewline, last)
    ensures Frames(ReadLines(last)) == if last == "" then [] else [last]
  {
    if last != "" {
      var n := LineEnd(last);
      assert n == |last|;
      assert last[..n] == last && last[n..] == "";
      assert StripNewlines(last) == last;
      assert ReadLines(last) == [last];
      assert [last][1..] == [];
    }
  }

  // ---- Steps ----

  /** `asyncio.Queue.full`: a maxsize that is not positive means unbounded. */
  predicate Full(s: State) {
    s.maxsize > 0 && |s.queue| >= s.maxsize
  }

  /** A queue put that succeeds. */
  function Put(s: State, m: Message): State {
    s.(queue := s.queue + [m], unfinished := s.unfinished + 1)
  }

  function Arrive(s: State, m: Message, accepted: bool): State {
    s.(arrivals := s.arrivals + [Arrival(m, accepted)])
  }

  function Decode(s: State, line: string, now: DateTime): Handled {
    HandleMessage(line, s.tenant, now)
  }

  /** The datagram callback cannot wait: a full queue drops the message. */
  function ArriveByUdp(s: State, m: Message): State {
    if Full(s) then Arrive(s, m, false) else Put(Arrive(s, m, true), m)
  }

  /** A connection waits in its put while the queue is full. */
  function ArriveByTcp(s: State, conn: nat, m: Message): State {
    if Full(s) then Arrive(s, m, true).(waiting := s.waiting[conn := m]) else Put(Arrive(s, m, true), m)
  }

  function Resume(s: State, conn: nat): State
    requires conn in s.waiting
  {
    Put(s, s.waiting[conn]).(waiting := s.waiting - {conn})
  }

  predicate Enabled(s: State, step: Step) {
    match step
    case Datagram(data, now) => Decode(s, StripNewlines(data), now).Produced?
    case ReadLine(conn, raw, now) => conn !in s.waiting && Decode(s, StripNewlines(raw), now).Produced?
    case ResumePut(conn) => conn in s.waiting && !Full(s)
    case Take => s.alive && s.current.None? && s.queue != []
    case Finish(_) => s.alive && s.current.Some?
    case Cancel => s.alive
  }

  function Apply(s: State, step: Step): State
    requires Enabled(s, step)
  {
    match step
    case Datagram(data, now) =>
      ArriveByUdp(s, Message(Udp, Decode(s, StripNewlines(data), now).event))
    case ReadLine(conn, raw, now) =>
      if StripNewlines(raw) == "" then s
      else ArriveByTcp(s, conn, Message(Tcp(conn), Decode(s, StripNewlines(raw), now).event))
    case ResumePut(conn) => Resume(s, conn)
    case Take => s.(current := Some(s.queue[0]), queue := s.queue[1..])
    case Finish(written) =>
      s.(handled := s.handled + [Outcome(s.current.value, written)], current := None, unfinished := s.unfinished - 1)
    case Cancel =>
      if s.current.None? then s.(alive := false)
      else s.(handled := s.handled + [Outcome(s.current.value, false)], current := None,
              unfinished := s.unfinished - 1, alive := false)
  }

  /** The queue's bound is reached. */
  predicate AtBound(maxsize: int, queue: seq<Message>) {
    maxsize > 0 && |queue| >= maxsize
  }

  /** What a received line does: one arrival, with the event that the line decodes to. */
  lemma {:induction false} ReceivingDoes(s: State, step: Step)
    requires Enabled(s, step) && (step.Datagram? || step.ReadLine?)
    ensures step.Datagram? ==>
              var m := Message(Udp, HandleMessage(StripNewlines(step.data), s.tenant, step.now).event);
              var full := AtBound(s.maxsize, s.queue);
              Apply(s, step) == s.(
                arrivals := s.arrivals + [Arrival(m, !full)],
                queue := if full then s.queue else s.queue + [m],
                unfinished := if full then s.unfinished else s.unfinished + 1)
    ensures step.ReadLine? && StripNewlines(step.raw) == "" ==> Apply(s, step) == s
    ensures step.ReadLine? && StripNewlines(step.raw) != "" ==>
              var m := Message(Tcp(step.conn), HandleMessage(StripNewlines(step.raw), s.tenant, step.now).event);
              var full := AtBound(s.maxsize, s.queue);
              Apply(s, step) == s.(
                arrivals := s.arrivals + [Arrival(m, true)],
                waiting := if full then s.waiting[step.conn := m] else s.waiting,
                queue := if full then s.queue else s.queue + [m],
                unfinished := if full then s.unfinished else s.unfinished + 1)
  {
    hide HandleMessage, StripNewlines;
  }

  /** What the other steps do. A cancelled writer drops what it has in hand, and takes nothing more. */
  lemma {:induction false} MovingDoes(s: State, step: Step)
    requires Enabled(s, step)
    ensures step.ResumePut? ==>
              && step.conn in s.waiting && !AtBound(s.maxsize, s.queue)
              && Apply(s, step) == s.(
                   waiting := s.waiting - {step.conn}, queue := s.queue + [s.waiting[step.conn]],
                   unfinished := s.unfinished + 1)
    ensures step.Take? ==>
              && s.alive && s.current == None && s.queue != []
              && Apply(s, step) == s.(current := Some(s.queue[0]), queue := s.queue[1..])
    ensures step.Finish? ==>
              && s.alive && s.current.Some?
              && Apply(s, step) == s.(
                   current := None, handled := s.handled + [Outcome(s.current.value, step.written)],
                   unfinished := s.unfinished - 1)
    ensures step.Cancel? ==>
              Apply(s, step) == s.(
                alive := false, current := None,
                handled := if s.current.Some? then s.handled + [Outcome(s.current.value, false)] else s.handled,
                unfinished := if s.current.Some? then s.unfinished - 1 else s.unfinished)
  {
    hide HandleMessage, StripNewlines;
  }

  ghost predicate Run(states: seq<State>, steps: seq<Step>) {
    && |states| == |steps| + 1
    && forall n :: 0 <= n < |steps| ==> StepAt(states, steps, n)
  }

  predicate StepAt(states: seq<State>, steps: seq<Step>, n: nat)
    requires n < |steps| && |states| == |steps| + 1
  {
    Enabled(states[n], steps[n]) && states[n + 1] == Apply(states[n], steps[n])
  }

  // ---- The invariant ----

  function AcceptedOf(arrivals: seq<Arrival>, o: Origin): seq<Message> {
    if arrivals == [] then []
    else
      var a := arrivals[|arrivals| - 1];
      AcceptedOf(arrivals[..|arrivals| - 1], o) + if a.accepted && a.message.origin == o then [a.message] else []
  }

  function Refused(arrivals: seq<Arrival>): nat {
    if arrivals == [] then 0
    else Refused(arrivals[..|arrivals| - 1]) + if arrivals[|arrivals| - 1].accepted then 0 else 1
  }

  function Of(ms: seq<Message>, o: Origin): seq<Message> {
    if ms == [] then []
    else
      var m := ms[|ms| - 1];
      Of(ms[..|ms| - 1], o) + if m.origin == o then [m] else []
  }

  function Messages(outcomes: seq<Outcome>): (ms: seq<Message>)
    ensures |ms| == |outcomes| && forall k :: 0 <= k < |ms| ==> ms[k] == outcomes[k].message
  {
    if outcomes == [] then [] else Messages(outcomes[..|outcomes| - 1]) + [outcomes[|outcomes| - 1].message]
  }

  function Current(s: State): seq<Message> {
    if s.current.Some? then [s.current.value] else []
  }

  /** Everything that has entered the queue, in the order in which it did. */
  function Entered(s: State): seq<Message> {
    Messages(s.handled) + Current(s) + s.queue
  }

  /** What the connection is still trying to put. */
  function WaitingOf(s: State, o: Origin): seq<Message> {
    if o.Tcp? && o.conn in s.waiting then [s.waiting[o.conn]] else []
  }

  /** The accepted messages of one origin, in arrival order, are those that entered and the one waiting. */
  predicate InOrder(s: State, o: Origin) {
    AcceptedOf(s.arrivals, o) == Of(Entered(s), o) + WaitingOf(s, o)
  }

  /** Nothing is lost or invented; only datagrams are refused; the queue and the unfinished tasks stay bounded. */
  predicate Counts(s: State) {
    && (s.maxsize > 0 ==> |s.queue| <= s.maxsize)
    && s.unfinished == |s.queue| + |Current(s)|
    && |s.arrivals| == |s.handled| + |Current(s)| + |s.queue| + |s.waiting| + Refused(s.arrivals)
    && (forall k :: 0 <= k < |s.arrivals| && !s.arrivals[k].accepted ==> s.arrivals[k].message.origin.Udp?)
    && (forall k :: 0 <= k < |s.arrivals| ==> s.arrivals[k].message.event.tenant == s.tenant)
    && WaitingIsTcp(s)
  }

  ghost predicate Inv(s: State) {
    Counts(s) && forall o :: InOrder(s, o)
  }

  predicate Initial(s: State) {
    s == State(s.tenant, s.maxsize, [], map[], [], None, [], 0, true)
  }

  lemma {:induction false} OfConcat(a: seq<Message>, b: seq<Message>, o: Origin)
    ensures Of(a + b, o) == Of(a, o) + Of(b, o)
  {
    if b == [] {
      assert a + b == a;
    } else {
      assert (a + b)[..|a + b| - 1] == a + b[..|b| - 1];
      OfConcat(a, b[..|b| - 1], o);
    }
  }

  lemma {:induction false} PutEnters(s: State, m: Message, o: Origin)
    ensures Of(Entered(Put(s, m)), o) == Of(Entered(s), o) + if m.origin == o then [m] else []
  {
    assert Entered(Put(s, m)) == Entered(s) + [m];
    hide Entered;
    OfSnoc(Entered(s), m, o);
  }

  lemma {:induction false} OfSnoc(ms: seq<Message>, m: Message, o: Origin)
    ensures Of(ms + [m], o) == Of(ms, o) + if m.origin == o then [m] else []
  {
    assert (ms + [m])[..|ms|] == ms;
  }

  /** Taking, finishing and cancelling move a message along without changing the order. */
  lemma {:induction false} WriterKeepsEntered(s: State, step: Step)
    requires Enabled(s, step) && (step.Take? || step.Finish? || step.Cancel?)
    ensures Entered(Apply(s, step)) == Entered(s)
  {
    if step.Take? {
      assert s.queue == [s.queue[0]] + s.queue[1..];
    }
  }

  predicate WaitingIsTcp(s: State) {
    forall c :: c in s.waiting ==> s.waiting[c].origin == Tcp(c)
  }

  lemma {:induction false} ArrivalIsAccepted(arrivals: seq<Arrival>, a: Arrival, o: Origin)
    ensures AcceptedOf(arrivals + [a], o)
         == AcceptedOf(arrivals, o) + if a.accepted && a.message.origin == o then [a.message] else []
  {
    assert (arrivals + [a])[..|arrivals|] == arrivals;
  }

  lemma {:induction false} ArrivalIsCounted(arrivals: seq<Arrival>, a: Arrival)
    ensures Refused(arrivals + [a]) == Refused(arrivals) + if a.accepted then 0 else 1
  {
    assert (arrivals + [a])[..|arrivals|] == arrivals;
  }

  lemma {:induction false} UdpKeepsOrder(s: State, m: Message, o: Origin)
    requires InOrder(s, o) && m.origin == Udp
    ensures InOrder(ArriveByUdp(s, m), o)
  {
    hide Of, AcceptedOf;
    ArrivalIsAccepted(s.arrivals, Arrival(m, !Full(s)), o);
    var arrived := Arrive(s, m, !Full(s));
    assert Entered(arrived) == Entered(s) && WaitingOf(arrived, o) == WaitingOf(s, o);
    PutEnters(arrived, m, o);
    assert WaitingOf(ArriveByUdp(s, m), o) == WaitingOf(s, o);
    if o == Udp {
      assert WaitingOf(s, o) == [];
    }
  }

  lemma {:induction false} TcpKeepsOrder(s: State, conn: nat, m: Message, o: Origin)
    requires InOrder(s, o) && m.origin == Tcp(conn) && conn !in s.waiting
    ensures InOrder(ArriveByTcp(s, conn, m), o)
  {
    hide Of, AcceptedOf;
    ArrivalIsAccepted(s.arrivals, Arrival(m, true), o);
    var arrived := Arrive(s, m, true);
    assert Entered(arrived) == Entered(s);
    PutEnters(arrived, m, o);
    var t := ArriveByTcp(s, conn, m);
    if Full(s) {
      assert Entered(t) == Entered(s);
    } else {
      assert t == Put(arrived, m);
    }
    var before := Of(Entered(s), o);
    if o == Tcp(conn) {
      assert before + [] == before;
      assert WaitingOf(t, o) == if Full(s) then [m] else [];
      assert before + [m] + [] == before + [m];
    } else {
      assert WaitingOf(t, o) == WaitingOf(s, o);
      assert before + [] == before;
    }
  }

  lemma {:induction false} EnteredIgnoresWaiting(s: State, waiting: map<nat, Message>)
    ensures Entered(s.(waiting := waiting)) == Entered(s)
  {
  }

  lemma {:induction false} ResumeKeepsOrder(s: State, conn: nat, o: Origin)
    requires InOrder(s, o) && conn in s.waiting && WaitingIsTcp(s)
    ensures InOrder(Resume(s, conn), o)
  {
    hide Entered, Of, AcceptedOf;
    var m := s.waiting[conn];
    PutEnters(s, m, o);
    EnteredIgnoresWaiting(Put(s, m), s.waiting - {conn});
    var before := Of(Entered(s), o);
    if o == Tcp(conn) {
      assert WaitingOf(s, o) == [m] && WaitingOf(Resume(s, conn), o) == [];
      assert before + [m] + [] == before + [m];
    } else {
      assert WaitingOf(Resume(s, conn), o) == WaitingOf(s, o);
      assert before + [] == before;
    }
  }

  lemma {:induction false} StepKeepsOrder(s: State, step: Step, o: Origin)
    requires Enabled(s, step) && InOrder(s, o) && WaitingIsTcp(s)
    ensures InOrder(Apply(s, step), o)
  {
    match step
    case Datagram(data, now) => UdpKeepsOrder(s, Message(Udp, Decode(s, StripNewlines(data), now).event), o);
    case ReadLine(conn, raw, now) =>
      TcpKeepsOrder(s, conn, Message(Tcp(conn), Decode(s, StripNewlines(raw), now).event), o);
    case ResumePut(conn) => ResumeKeepsOrder(s, conn, o);
    case _ => WriterKeepsEntered(s, step);
  }

  lemma {:induction false} DecodedTenant(s: State, line: string, now: DateTime)
    requires Decode(s, line, now).Produced?
    ensures Decode(s, line, now).event.tenant == s.tenant
  {
    DecodingIsTotal(line, s.tenant, now);
  }

  lemma {:induction false} UdpKeepsCounts(s: State, m: Message)
    requires Counts(s) && m.event.tenant == s.tenant && m.origin == Udp
    ensures Counts(ArriveByUdp(s, m))
  {
    hide Refused;
    ArrivalIsCounted(s.arrivals, Arrival(m, !Full(s)));
  }

  lemma {:induction false} TcpKeepsCounts(s: State, conn: nat, m: Message)
    requires Counts(s) && m.event.tenant == s.tenant && m.origin == Tcp(conn) && conn !in s.waiting
    ensures Counts(ArriveByTcp(s, conn, m))
  {
    hide Refused;
    ArrivalIsCounted(s.arrivals, Arrival(m, true));
    assert |s.waiting[conn := m]| == |s.waiting| + 1;
  }

  /** Conservation, order, the bound and the count of unfinished tasks survive every step. */
  lemma {:induction false} StepKeepsInvariant(s: State, step: Step)
    requires Inv(s) && Enabled(s, step)
    ensures Inv(Apply(s, step))
  {
    forall o
      ensures InOrder(Apply(s, step), o)
    {
      StepKeepsOrder(s, step, o);
    }
    match step
    case Datagram(data, now) =>
      DecodedTenant(s, StripNewlines(data), now);
      UdpKeepsCounts(s, Message(Udp, Decode(s, StripNewlines(data), now).event));
    case ReadLine(conn, raw, now) =>
      DecodedTenant(s, StripNewlines(raw), now);
      TcpKeepsCounts(s, conn, Message(Tcp(conn), Decode(s, StripNewlines(raw), now).event));
    case ResumePut(conn) =>
      assert |s.waiting - {conn}| == |s.waiting| - 1;
    case _ =>
  }

  lemma {:induction false} RunKeepsInvariant(states: seq<State>, steps: seq<Step>, n: nat)
    requires Run(states, steps) && Initial(states[0]) && n <= |steps|
    ensures Inv(states[n])
    decreases n
  {
    if n > 0 {
      RunKeepsInvariant(states, steps, n - 1);
      assert StepAt(states, steps, n - 1);
      StepKeepsInvariant(states[n - 1], steps[n - 1]);
    }
  }

  // ---- What is handled is what was received ----

  /** The step received the line that the message was made from. */
  predicate Carries(step: Step, tenant: string, m: Message) {
    match step
    case Datagram(data, now) =>
      && m.origin == Udp && HandleMessage(StripNewlines(data), tenant, now) == Produced(m.event)
      && OriginalText(m.event.raw) == Some(StripNewlines(data))
    case ReadLine(conn, raw, now) =>
      && m.origin == Tcp(conn) && HandleMessage(StripNewlines(raw), tenant, now) == Produced(m.event)
      && OriginalText(m.event.raw) == Some(StripNewlines(raw)) && StripNewlines(raw) != ""
    case _ => false
  }

  predicate Received(steps: seq<Step>, tenant: string, m: Message) {
    exists i :: 0 <= i < |steps| && Carries(steps[i], tenant, m)
  }

  /** Every message anywhere in the listener was received. */
  ghost predicate AllReceived(s: State, steps: seq<Step>, tenant: string) {
    && s.tenant == tenant
    && (forall k :: 0 <= k < |s.arrivals| ==> Received(steps, tenant, s.arrivals[k].message))
    && (forall c :: c in s.waiting ==> Received(steps, tenant, s.waiting[c]))
    && (forall k :: 0 <= k < |s.queue| ==> Received(steps, tenant, s.queue[k]))
    && (s.current.Some? ==> Received(steps, tenant, s.current.value))
    && (forall k :: 0 <= k < |s.handled| ==> Received(steps, tenant, s.handled[k].message))
  }

  lemma {:induction false} ReceivedEarlier(steps: seq<Step>, step: Step, tenant: string, m: Message)
    ensures Received(steps, tenant, m) ==> Received(steps + [step], tenant, m)
    ensures Carries(step, tenant, m) ==> Received(steps + [step], tenant, m)
  {
    hide Carries;
    var all := steps + [step];
    assert all[|steps|] == step;
    assert forall i :: 0 <= i < |steps| ==> all[i] == steps[i];
  }

  lemma {:induction false} LineIsCarried(s: State, step: Step)
    requires Enabled(s, step)
    ensures step.Datagram? ==>
              Carries(step, s.tenant, Message(Udp, HandleMessage(StripNewlines(step.data), s.tenant, step.now).event))
    ensures step.ReadLine? && StripNewlines(step.raw) != "" ==>
              Carries(step, s.tenant,
                Message(Tcp(step.conn), HandleMessage(StripNewlines(step.raw), s.tenant, step.now).event))
  {
    hide HandleMessage, StripNewlines, OriginalText;
    if step.Datagram? {
      DecodingIsTotal(StripNewlines(step.data), s.tenant, step.now);
    } else if step.ReadLine? {
      DecodingIsTotal(StripNewlines(step.raw), s.tenant, step.now);
    }
  }

  lemma {:induction false} StepKeepsReceived(s: State, step: Step, steps: seq<Step>, tenant: string)
    requires Enabled(s, step) && AllReceived(s, steps, tenant)
    ensures AllReceived(Apply(s, step), steps + [step], tenant)
  {
    hide Received, Carries, HandleMessage, StripNewlines;
    forall m
      ensures Received(steps, tenant, m) ==> Received(steps + [step], tenant, m)
      ensures Carries(step, tenant, m) ==> Received(steps + [step], tenant, m)
    {
      ReceivedEarlier(steps, step, tenant, m);
    }
    if step.Datagram? || step.ReadLine? {
      LineIsCarried(s, step);
      ReceivingDoes(s, step);
    } else {
      MovingDoes(s, step);
    }
  }

  /** In every run, each message that is written, dropped, queued or waiting comes from a line received as it stands. */
  lemma {:induction false} RunHandlesWhatItReceived(states: seq<State>, steps: seq<Step>, n: nat)
    requires Run(states, steps) && Initial(states[0]) && n <= |steps|
    ensures AllReceived(states[n], steps[..n], states[0].tenant)
    decreases n
  {
    hide AllReceived, Apply, Enabled;
    if n == 0 {
      InitiallyNothing(states[0], steps[..0]);
    } else {
      RunHandlesWhatItReceived(states, steps, n - 1);
      assert StepAt(states, steps, n - 1);
      assert steps[..n] == steps[..n - 1] + [steps[n - 1]];
      StepKeepsReceived(states[n - 1], steps[n - 1], steps[..n - 1], states[0].tenant);
    }
  }

  lemma {:induction false} InitiallyNothing(s: State, steps: seq<Step>)
    requires Initial(s)
    ensures AllReceived(s, steps, s.tenant)
  {
  }
}
