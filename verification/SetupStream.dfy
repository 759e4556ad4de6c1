/**
 The endpoint that streams a guided setup: a detached task fills a channel, the request drains it and
 interleaves heartbeats, and the reader may go away at any time. Every interleaving is a run of `Step`.
 */
module SetupStream {
  import opened SetupEvents
  import opened Options

  datatype Frame = EventFrame(event: Event) | Heartbeat

  /** Where the detached task is: how many progress events it has written, and what follows them. */
  datatype Producer = Reporting(written: nat) | Completing | Notifying | Finished

  /** Where the request is. `Left` keeps the event it had taken from the channel, if any. */
  datatype Reader = Waiting | Draining | Writing(event: Event) | Ended | Left(taken: Option<Event>)

  datatype State = State(
    producer: Producer,
    produced: seq<Event>,
    notified: seq<bool>,
    queue: seq<Event>,
    completed: bool,
    reader: Reader,
    aborted: bool,
    wire: seq<Frame>)

  const INITIAL := State(Reporting(0), [], [], [], false, Waiting, false, [])

  /** Without a domain there is no task: the request writes one result and is done. */
  const INITIAL_WITHOUT_DOMAIN :=
    State(
      Finished, [Event("result", MISSING_DOMAIN)], [], [], true, Writing(Event("result", MISSING_DOMAIN)), false, [])

  datatype Action = Produce | Wake | Beat | Take | Write | Leave | Abort

  function Step(setup: Setup, s: State, a: Action): State
  {
    match a
    case Produce => ProducerStep(setup, s)
    case Wake =>
      if !s.reader.Waiting? then s
      else if s.queue != [] then s.(reader := Draining)
      else if s.completed then s.(reader := Ended)
      else s
    case Beat => if s.reader.Waiting? then s.(wire := s.wire + [Heartbeat]) else s
    case Take =>
      if !s.reader.Draining? then s
      else if s.queue == [] then s.(reader := Waiting)
      else s.(reader := Writing(s.queue[0]), queue := s.queue[1..])
    case Write =>
      if s.reader.Writing? then s.(reader := Draining, wire := s.wire + [EventFrame(s.reader.event)]) else s
    case Leave =>
      if !s.aborted then s
      else if s.reader.Waiting? then s.(reader := Left(None))
      else if s.reader.Writing? then s.(reader := Left(Some(s.reader.event)))
      else s
    case Abort => s.(aborted := true)
  }

  function ProducerStep(setup: Setup, s: State): State
  {
    match s.producer
    case Reporting(n) =>
      if n < |setup.progress| then Emit(s, Event("step", setup.progress[n]), Reporting(n + 1))
      else Emit(s, Event("result", FinalOf(setup)), Completing)
    case Completing => s.(completed := true, producer := Notifying)
    case Notifying => s.(notified := s.notified + [IsSuccess(FinalOf(setup))], producer := Finished)
    case Finished => s
  }

  function Emit(s: State, e: Event, next: Producer): State
  {
    s.(produced := s.produced + [e], queue := s.queue + [e], producer := next)
  }

  function Run(setup: Setup, start: State, actions: seq<Action>): State
  {
    if actions == [] then start
    else Step(setup, Run(setup, start, actions[..|actions| - 1]), actions[|actions| - 1])
  }

  function EventsOf(frames: seq<Frame>): seq<Event>
  {
    if frames == [] then []
    else if frames[0].EventFrame? then [frames[0].event] + EventsOf(frames[1..])
    else EventsOf(frames[1..])
  }

  lemma {:induction false} EventsOfAppend(f: seq<Frame>, g: seq<Frame>)
    ensures EventsOf(f + g) == EventsOf(f) + EventsOf(g)
  {
    if f == [] {
      assert f + g == g;
    } else {
      assert (f + g)[1..] == f[1..] + g;
      EventsOfAppend(f[1..], g);
    }
  }

  /** The event the request has taken from the channel and not written. */
  function InHand(r: Reader): seq<Event>
  {
    if r.Writing? then [r.event] else if r.Left? && r.taken.Some? then [r.taken.value] else []
  }

  // ----- Nothing is lost, doubled or reordered -----

  /** The events on the wire, the one in hand and the queued ones are the ones produced. */
  ghost predicate Conserved(s: State)
  {
    EventsOf(s.wire) + InHand(s.reader) + s.queue == s.produced
  }

  ghost predicate ProducerInv(setup: Setup, s: State)
  {
    && (s.producer.Reporting? ==>
          s.producer.written <= |setup.progress| && s.produced == StepEvents(setup.progress[..s.producer.written])
          && !s.completed && s.notified == [])
    && (s.producer.Completing? ==> !s.completed && s.notified == [])
    && (s.producer.Notifying? ==> s.completed && s.notified == [])
    && (s.producer.Finished? ==> s.completed && s.notified == [IsSuccess(FinalOf(setup))])
    && (!s.producer.Reporting? ==> s.produced == AllEvents(setup))
  }

  ghost predicate Inv(setup: Setup, s: State)
  {
    && Conserved(s) && ProducerInv(setup, s)
    && (s.reader.Ended? ==> s.completed && s.queue == [])
    && (s.reader.Left? ==> s.aborted)
  }

  lemma StepConserves(setup: Setup, s: State, a: Action)
    requires Conserved(s)
    ensures Conserved(Step(setup, s, a))
  {
    match a
    case Produce => ProducerConserves(setup, s);
    case Beat => EventsOfAppend(s.wire, [Heartbeat]);
    case Write => WriteConserves(setup, s);
    case Take => TakeConserves(setup, s);
    case _ =>
  }

  lemma ProducerConserves(setup: Setup, s: State)
    requires Conserved(s)
    ensures Conserved(ProducerStep(setup, s))
  {
    var t := ProducerStep(setup, s);
    if s.producer.Reporting? {
      var e := t.produced[|s.produced|];
      assert t.queue == s.queue + [e] && t.produced == s.produced + [e] && t.wire == s.wire && t.reader == s.reader;
    }
  }

  lemma WriteConserves(setup: Setup, s: State)
    requires Conserved(s)
    ensures Conserved(Step(setup, s, Write))
  {
    if s.reader.Writing? {
      EventsOfAppend(s.wire, [EventFrame(s.reader.event)]);
      assert EventsOf([EventFrame(s.reader.event)]) == [s.reader.event];
    }
  }

  lemma TakeConserves(setup: Setup, s: State)
    requires Conserved(s)
    ensures Conserved(Step(setup, s, Take))
  {
    if s.queue != [] {
      assert s.queue == [s.queue[0]] + s.queue[1..];
    }
  }

  lemma {:induction false} StepKeepsInv(setup: Setup, s: State, a: Action)
    requires Inv(setup, s)
    ensures Inv(setup, Step(setup, s, a))
  {
    StepConserves(setup, s, a);
    if a.Produce? { ProducerKeepsInv(setup, s); }
  }

  lemma ProducerKeepsInv(setup: Setup, s: State)
    requires ProducerInv(setup, s)
    ensures ProducerInv(setup, ProducerStep(setup, s))
  {
    if s.producer.Reporting? {
      var n := s.producer.written;
      assert setup.progress[..|setup.progress|] == setup.progress;
      if n < |setup.progress| {
        assert StepEvents(setup.progress[..n + 1])
               == StepEvents(setup.progress[..n]) + [Event("step", setup.progress[n])];
      }
    }
  }

  lemma {:induction false} RunKeepsInv(setup: Setup, actions: seq<Action>)
    ensures Inv(setup, Run(setup, INITIAL, actions))
    decreases |actions|
  {
    if actions != [] {
      RunKeepsInv(setup, actions[..|actions| - 1]);
      StepKeepsInv(setup, Run(setup, INITIAL, actions[..|actions| - 1]), actions[|actions| - 1]);
    }
  }

  /**
   Every interleaving: what was written, what is in hand and what is queued are always the events produced,
   which are always a prefix of all the run reports.
   */
  lemma EventsConserved(setup: Setup, actions: seq<Action>)
    ensures var s := Run(setup, INITIAL, actions);
            && EventsOf(s.wire) + InHand(s.reader) + s.queue == s.produced
            && s.produced <= AllEvents(setup)
            && EventsOf(s.wire) <= AllEvents(setup)
  {
    RunKeepsInv(setup, actions);
    var s := Run(setup, INITIAL, actions);
    if s.producer.Reporting? {
      var n := s.producer.written;
      assert StepEvents(setup.progress[..n]) == StepEvents(setup.progress)[..n];
      assert AllEvents(setup)[..n] == StepEvents(setup.progress[..n]);
    }
    assert EventsOf(s.wire) == s.produced[..|EventsOf(s.wire)|];
  }

  /** A stream that ends without its reader leaving has written everything: the steps, then one result, last. */
  lemma EndedStreamIsComplete(setup: Setup, actions: seq<Action>)
    requires Run(setup, INITIAL, actions).reader.Ended?
    ensures EventsOf(Run(setup, INITIAL, actions).wire) == AllEvents(setup)
    ensures var events, n := EventsOf(Run(setup, INITIAL, actions).wire), |setup.progress|;
            && |events| == n + 1
            && (forall i | 0 <= i < n :: events[i] == Event("step", setup.progress[i]))
            && events[n] == Event("result",
                 if setup.outcome.Returns? then setup.outcome.result
                 else Final(false, Some("Domain setup failed unexpectedly. Please try again.")))
  {
    RunKeepsInv(setup, actions);
  }

  /**
   One step writes at most one frame: a heartbeat while it waits for events, or the event it has taken. Once the
   stream has ended or its reader has left, nothing more is written, taken or begun.
   */
  lemma {:induction false} WireGrows(setup: Setup, s: State, a: Action)
    ensures var t := Step(setup, s, a);
            && (t.wire == s.wire
                || (s.reader.Waiting? && t.wire == s.wire + [Heartbeat])
                || (s.reader.Writing? && t.wire == s.wire + [EventFrame(s.reader.event)] && t.reader.Draining?))
            && (s.reader.Ended? || s.reader.Left? ==>
                  t.wire == s.wire && t.reader == s.reader && (a.Produce? || t.queue == s.queue))
            && (t.reader.Left? && !s.reader.Left? ==> s.aborted)
  {
  }

  ghost predicate OneResultOnly(s: State)
  {
    && s.produced == [Event("result", MISSING_DOMAIN)] && s.notified == [] && s.completed && s.producer.Finished?
    && Conserved(s) && (s.reader.Ended? ==> s.queue == [])
  }

  lemma StepKeepsOneResult(setup: Setup, s: State, a: Action)
    requires OneResultOnly(s)
    ensures OneResultOnly(Step(setup, s, a))
  {
    StepConserves(setup, s, a);
  }

  /** The same request without a domain: one result, and nothing else but heartbeats. */
  lemma {:induction false} WithoutDomainOneResult(setup: Setup, actions: seq<Action>)
    ensures OneResultOnly(Run(setup, INITIAL_WITHOUT_DOMAIN, actions))
    ensures var s := Run(setup, INITIAL_WITHOUT_DOMAIN, actions);
            && s.notified == []
            && (s.reader.Ended? ==>
                  EventsOf(s.wire) == [Event("result", Final(false, Some("domain name is missing")))])
    decreases |actions|
  {
    if actions != [] {
      WithoutDomainOneResult(setup, actions[..|actions| - 1]);
      StepKeepsOneResult(setup, Run(setup, INITIAL_WITHOUT_DOMAIN, actions[..|actions| - 1]), actions[|actions| - 1]);
    }
  }

  // ----- The task does not depend on the reader -----

  function Produces(actions: seq<Action>): nat
  {
    if actions == [] then 0
    else Produces(actions[..|actions| - 1]) + if actions[|actions| - 1].Produce? then 1 else 0
  }

  /** The detached task alone, after a number of its own steps. */
  function Alone(setup: Setup, n: nat): State
  {
    if n == 0 then INITIAL else ProducerStep(setup, Alone(setup, n - 1))
  }

  ghost predicate SameTask(s: State, t: State)
  {
    s.producer == t.producer && s.produced == t.produced && s.completed == t.completed && s.notified == t.notified
  }

  lemma SameTaskSameStep(setup: Setup, s: State, t: State)
    requires SameTask(s, t)
    ensures SameTask(ProducerStep(setup, s), ProducerStep(setup, t))
  {
  }

  lemma {:induction false} TaskIgnoresReader(setup: Setup, actions: seq<Action>)
    ensures var s, t := Run(setup, INITIAL, actions), Alone(setup, Produces(actions));
            SameTask(s, t)
    decreases |actions|
  {
    if actions != [] {
      TaskIgnoresReader(setup, actions[..|actions| - 1]);
      OthersLeaveTask(setup, Run(setup, INITIAL, actions[..|actions| - 1]), actions[|actions| - 1]);
      if actions[|actions| - 1].Produce? {
        SameTaskSameStep(setup, Run(setup, INITIAL, actions[..|actions| - 1]), Alone(setup, Produces(actions) - 1));
      }
    }
  }

  lemma OthersLeaveTask(setup: Setup, s: State, a: Action)
    ensures if a.Produce? then Step(setup, s, a) == ProducerStep(setup, s) else SameTask(Step(setup, s, a), s)
  {
  }

  lemma {:induction false} AloneReports(setup: Setup, n: nat)
    requires n <= |setup.progress|
    ensures Alone(setup, n).producer == Reporting(n)
  {
    if n > 0 { AloneReports(setup, n - 1); }
  }

  lemma {:induction false} AloneFinishes(setup: Setup, n: nat)
    requires n >= |setup.progress| + 3
    ensures Alone(setup, n).producer.Finished?
  {
    var k := |setup.progress|;
    if n == k + 3 {
      AloneReports(setup, k);
      assert Alone(setup, k + 1).producer == Completing;
      assert Alone(setup, k + 2).producer == Notifying;
    } else {
      AloneFinishes(setup, n - 1);
    }
  }

  /**
   Whatever the reader does, leaving included: once the task has been scheduled often enough it has produced
   everything, completed the channel, and notified exactly once, with the outcome.
   */
  lemma TaskAlwaysFinishes(setup: Setup, actions: seq<Action>)
    requires Produces(actions) >= |setup.progress| + 3
    ensures var s := Run(setup, INITIAL, actions);
            && s.producer.Finished? && s.produced == AllEvents(setup) && s.completed
            && s.notified == [setup.outcome.Returns? && setup.outcome.result.Final? && setup.outcome.result.isSuccess]
  {
    TaskIgnoresReader(setup, actions);
    AloneFinishes(setup, Produces(actions));
    RunKeepsInv(setup, actions);
  }

  // ----- A reader that stays is served to the end -----

  function TaskLeft(setup: Setup, p: Producer): int
  {
    match p
    case Reporting(n) => |setup.progress| - n + 3
    case Completing => 2
    case Notifying => 1
    case Finished => 0
  }

  function Rank(s: State): nat
  {
    match s.reader
    case Waiting => if s.queue != [] then 3 else 1
    case Draining => 2
    case Writing(_) => 3
    case Ended => 0
    case Left(_) => 0
  }

  function Measure(setup: Setup, s: State): int { 8 * TaskLeft(setup, s.producer) + 4 * |s.queue| + Rank(s) }

  /** Every step that does something, other than a heartbeat or the reader's abort, brings the end closer. */
  lemma StepsApproachTheEnd(setup: Setup, s: State, a: Action)
    requires Inv(setup, s) && Step(setup, s, a) != s && !a.Beat? && !a.Abort?
    ensures 0 <= Measure(setup, Step(setup, s, a)) < Measure(setup, s)
  {
  }

  /** And until the stream has ended or been left, the task or the request can take such a step. */
  lemma NeverStuck(setup: Setup, s: State)
    requires Inv(setup, s) && !s.reader.Ended? && !s.reader.Left?
    ensures exists a: Action :: !a.Beat? && !a.Abort? && !a.Leave? && Step(setup, s, a) != s
  {
    if s.producer.Finished? {
      match s.reader
      case Waiting => assert Step(setup, s, Wake) != s;
      case Draining => assert Step(setup, s, Take) != s;
      case Writing(_) => assert Step(setup, s, Write) != s;
    } else {
      var t := Step(setup, s, Produce);
      assert t.producer != s.producer;
    }
  }

  /** So from any reachable state that was not left, the stream can be run to its end, complete. */
  lemma {:induction false} CanAlwaysEnd(setup: Setup, actions: seq<Action>)
    requires !Run(setup, INITIAL, actions).reader.Left?
    ensures exists more: seq<Action> :: Ends(setup, actions + more)
    decreases Measure(setup, Run(setup, INITIAL, actions))
  {
    if Ends(setup, actions) {
      assert actions + [] == actions;
    } else {
      var a := UsefulAction(setup, actions);
      CanAlwaysEnd(setup, actions + [a]);
      var more: seq<Action> :| Ends(setup, actions + [a] + more);
      assert actions + [a] + more == actions + ([a] + more);
    }
  }

  ghost predicate Ends(setup: Setup, actions: seq<Action>) { Run(setup, INITIAL, actions).reader.Ended? }

  lemma {:induction false} UsefulAction(setup: Setup, actions: seq<Action>) returns (a: Action)
    requires var s := Run(setup, INITIAL, actions); !s.reader.Ended? && !s.reader.Left?
    ensures var s, t := Run(setup, INITIAL, actions), Run(setup, INITIAL, actions + [a]);
            !t.reader.Left? && 0 <= Measure(setup, t) < Measure(setup, s)
  {
    var s := Run(setup, INITIAL, actions);
    RunKeepsInv(setup, actions);
    NeverStuck(setup, s);
    a :| !a.Beat? && !a.Abort? && !a.Leave? && Step(setup, s, a) != s;
    StepsApproachTheEnd(setup, s, a);
    assert (actions + [a])[..|actions|] == actions;
  }
}
