/** The listener's code over its queue, and what its runs guarantee. */
module Listener {
  import opened Text
  import opened Calendar
  import opened Normalize
  import opened ListenerModel

  class SyslogListener {
    const tenant: string
    const maxsize: int
    var arrivals: seq<Arrival>
    var waiting: map<nat, Message>
    var queue: seq<Message>
    var current: Option<Message>
    var handled: seq<Outcome>
    var unfinished: int
    var alive: bool

    function State(): State
      reads this
    {
      ListenerModel.State(tenant, maxsize, arrivals, waiting, queue, current, handled, unfinished, alive)
    }

    constructor (tenant: string, maxsize: int)
      ensures this.tenant == tenant && this.maxsize == maxsize && Initial(State())
    {
      this.tenant, this.maxsize := tenant, maxsize;
      arrivals, waiting, queue, current, handled := [], map[], [], None, [];
      unfinished, alive := 0, true;
    }

    predicate QueueFull()
      reads this
    {
      maxsize > 0 && |queue| >= maxsize
    }

    method PutNowait(m: Message)
      requires !QueueFull()
      modifies this`queue, this`unfinished
      ensures State() == Put(old(State()), m)
    {
      queue := queue + [m];
      unfinished := unfinished + 1;
    }

    /** One arrival over UDP; the message enters the queue unless that is full. */
    method DatagramReceived(data: string, now: DateTime) returns (dropped: bool)
      requires Enabled(State(), Datagram(data, now))
      modifies this
      ensures State() == Apply(old(State()), Datagram(data, now))
      ensures var m := Message(Udp, HandleMessage(StripNewlines(data), tenant, now).event);
              && dropped == (maxsize > 0 && old(|queue|) >= maxsize)
              && arrivals == old(arrivals) + [Arrival(m, !dropped)]
              && queue == (if dropped then old(queue) else old(queue) + [m])
              && unfinished == old(unfinished) + (if dropped then 0 else 1)
              && (waiting, current, handled, alive) == old((waiting, current, handled, alive))
    {
      var m := Message(Udp, HandleMessage(StripNewlines(data), tenant, now).event);
      dropped := QueueFull();
      arrivals := arrivals + [Arrival(m, !dropped)];
      if !dropped {
        PutNowait(m);
      }
    }

    /** One turn of a connection's loop, up to its put; it is suspended there while the queue is full. */
    method LineRead(conn: nat, raw: string, now: DateTime)
      requires Enabled(State(), ReadLine(conn, raw, now))
      modifies this
      ensures State() == Apply(old(State()), ReadLine(conn, raw, now))
      ensures StripNewlines(raw) == "" ==> State() == old(State())
      ensures StripNewlines(raw) != "" ==>
                var m := Message(Tcp(conn), HandleMessage(StripNewlines(raw), tenant, now).event);
                var full := maxsize > 0 && old(|queue|) >= maxsize;
                && arrivals == old(arrivals) + [Arrival(m, true)]
                && waiting == (if full then old(waiting)[conn := m] else old(waiting))
                && queue == (if full then old(queue) else old(queue) + [m])
                && unfinished == old(unfinished) + (if full then 0 else 1)
                && (current, handled, alive) == old((current, handled, alive))
    {
      var line := StripNewlines(raw);
      if line == "" {
        return;
      }
      var m := Message(Tcp(conn), HandleMessage(line, tenant, now).event);
      arrivals := arrivals + [Arrival(m, true)];
      if QueueFull() {
        waiting := waiting[conn := m];
      } else {
        PutNowait(m);
      }
    }

    method PutResumed(conn: nat)
      requires Enabled(State(), ResumePut(conn))
      modifies this
      ensures State() == Apply(old(State()), ResumePut(conn))
      ensures conn in old(waiting) && queue == old(queue) + [old(waiting)[conn]] && waiting == old(waiting) - {conn}
      ensures unfinished == old(unfinished) + 1
      ensures (arrivals, current, handled, alive) == old((arrivals, current, handled, alive))
    {
      PutNowait(waiting[conn]);
      waiting := waiting - {conn};
    }

    method WriterGets()
      requires Enabled(State(), Take)
      modifies this
      ensures State() == Apply(old(State()), Take)
      ensures current.Some? && [current.value] + queue == old(queue)
      ensures (arrivals, waiting, handled, unfinished, alive) == old((arrivals, waiting, handled, unfinished, alive))
    {
      current, queue := Some(queue[0]), queue[1..];
    }

    /** A write that raises is logged and its event dropped; either way the task is done. */
    method WriterFinishes(written: bool)
      requires Enabled(State(), Finish(written))
      modifies this
      ensures State() == Apply(old(State()), Finish(written))
      ensures old(current).Some? && handled == old(handled) + [Outcome(old(current).value, written)]
      ensures current == None && unfinished == old(unfinished) - 1
      ensures (arrivals, waiting, queue, alive) == old((arrivals, waiting, queue, alive))
    {
      handled := handled + [Outcome(current.value, written)];
      current := None;
      unfinished := unfinished - 1;
    }
  }

  // ---- Runs ----

  /** Each connection's events are handled in the order in which its lines arrived, without gaps. */
  lemma {:induction false} ConnectionsKeepOrder(states: seq<State>, steps: seq<Step>, n: nat, conn: nat)
    requires Run(states, steps) && Initial(states[0]) && n <= |steps|
    ensures Of(Messages(states[n].handled), Tcp(conn)) <= AcceptedOf(states[n].arrivals, Tcp(conn))
    ensures forall k :: 0 <= k < |states[n].arrivals| && states[n].arrivals[k].message.origin == Tcp(conn) ==>
                          states[n].arrivals[k].accepted
  {
    RunKeepsInvariant(states, steps, n);
    var s := states[n];
    assert InOrder(s, Tcp(conn));
    var rest := Current(s) + s.queue;
    assert Entered(s) == Messages(s.handled) + rest;
    OfConcat(Messages(s.handled), rest, Tcp(conn));
  }

  /** `task_done` is never called too often: there is an unfinished task when a write ends. */
  lemma {:induction false} TaskDoneIsPaired(states: seq<State>, steps: seq<Step>, n: nat, written: bool)
    requires Run(states, steps) && Initial(states[0]) && n <= |steps|
    ensures Enabled(states[n], Finish(written)) ==> states[n].unfinished >= 1
    ensures states[n].unfinished == 0 <==> states[n].queue == [] && states[n].current.None?
  {
    RunKeepsInvariant(states, steps, n);
  }

  /** Nothing arrives and the writer is not cancelled. */
  predicate Internal(step: Step) {
    step.ResumePut? || step.Take? || step.Finish?
  }

  function Work(s: State): nat {
    3 * |s.waiting| + 2 * |s.queue| + |Current(s)|
  }

  lemma {:induction false} InternalStepWorks(s: State, step: Step)
    requires Enabled(s, step) && Internal(step)
    ensures Work(Apply(s, step)) == Work(s) - 1
    ensures Apply(s, step).arrivals == s.arrivals && Apply(s, step).alive == s.alive
    ensures Apply(s, step).maxsize == s.maxsize
  {
    if step.ResumePut? {
      assert |s.waiting - {step.conn}| == |s.waiting| - 1;
    }
  }

  lemma {:induction false} InternalRunWorks(states: seq<State>, steps: seq<Step>, n: nat)
    requires Run(states, steps) && n <= |steps| && forall k :: 0 <= k < |steps| ==> Internal(steps[k])
    requires Inv(states[0])
    ensures Work(states[n]) == Work(states[0]) - n && Inv(states[n])
    ensures states[n].arrivals == states[0].arrivals && states[n].alive == states[0].alive
    decreases n
  {
    hide Inv, Work, Apply, Enabled;
    if n > 0 {
      InternalRunWorks(states, steps, n - 1);
      assert StepAt(states, steps, n - 1);
      InternalStepWorks(states[n - 1], steps[n - 1]);
      StepKeepsInvariant(states[n - 1], steps[n - 1]);
    }
  }

  ghost predicate Stuck(s: State) {
    forall step :: Internal(step) ==> !Enabled(s, step)
  }

  lemma {:induction false} StuckIsEmpty(s: State)
    requires s.alive && Stuck(s)
    ensures s.queue == [] && s.current.None? && s.waiting == map[]
  {
    assert !Enabled(s, Finish(true)) && !Enabled(s, Take);
    assert forall c :: c in s.waiting ==> !Enabled(s, ResumePut(c));
  }

  /**
   Draining. While nothing arrives, the writer and the waiting connections can take only as many steps
   as there is work; when they can take no more, every accepted message of every origin has been
   handled, in arrival order.
   */
  lemma {:induction false} QueueDrains(states: seq<State>, steps: seq<Step>, o: Origin)
    requires Run(states, steps) && Inv(states[0]) && states[0].alive
    requires forall k :: 0 <= k < |steps| ==> Internal(steps[k])
    ensures |steps| <= Work(states[0])
    ensures Stuck(states[|steps|]) <==> |steps| == Work(states[0])
    ensures Stuck(states[|steps|]) ==>
              Of(Messages(states[|steps|].handled), o) == AcceptedOf(states[0].arrivals, o)
  {
    InternalRunWorks(states, steps, |steps|);
    var s := states[|steps|];
    if Stuck(s) {
      StuckIsEmpty(s);
      assert InOrder(s, o);
      assert Entered(s) == Messages(s.handled);
    }
    if Work(s) == 0 {
      assert s.queue == [] && s.current.None? && |s.waiting| == 0;
      assert forall c :: c !in s.waiting;
    }
  }

  /** Once the writer is cancelled nothing is written any more, while messages are still taken in. */
  lemma {:induction false} DeadWriterHandlesNothing(states: seq<State>, steps: seq<Step>, m: nat, n: nat)
    requires Run(states, steps) && m <= n <= |steps| && !states[m].alive
    ensures states[n].handled == states[m].handled && !states[n].alive
    ensures |states[m].queue| <= |states[n].queue|
    decreases n
  {
    if m < n {
      DeadWriterHandlesNothing(states, steps, m, n - 1);
      assert StepAt(states, steps, n - 1);
    }
  }
}
