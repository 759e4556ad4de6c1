/**
 The page that follows a guided setup. A run of `start` stops at every `await`, so several runs may be under
 way, each with its own locals, while they share what the page shows. Every interleaving is a run of `Step`.
 */
module SetupClient {
  import opened Options
  import opened SetupEvents
  import opened EventStream

  datatype Phase = Idle | Running | Succeeded | Failed

  datatype StepState = Pending | Reported(status: Status, message: Option<string>)

  type Steps = map<StepId, StepState>

  const INITIAL_STEPS: Steps := map[AppDns := Pending, ApiDns := Pending, Ssl := Pending]

  const CONNECTION_LOST :=
    "We lost the connection to the server. "
    + "Setup may still finish on its own, so check the domain's status in a moment."
  const SETUP_DEFAULT_ERROR := "Domain setup failed. Please try again."

  function FirstErrorMessage(result: Payload): string
  {
    if result.Final? && result.firstError.Some? && result.firstError.value != "" then result.firstError.value
    else SETUP_DEFAULT_ERROR
  }

  predicate Succeeds(result: Option<Payload>) { result.Some? && IsSuccess(result.value) }

  function FailureMessage(result: Option<Payload>): string
  {
    if result.Some? then FirstErrorMessage(result.value) else CONNECTION_LOST
  }

  // ----- What the events of a run say -----

  function StepsFrom(steps: Steps, events: seq<Event>): Steps
  {
    if events == [] then steps
    else
      var e := events[|events| - 1];
      var before := StepsFrom(steps, events[..|events| - 1]);
      if e.name == "step" && e.data.Progress? then before[e.data.step := Reported(e.data.status, e.data.message)]
      else before
  }

  function ResultFrom(result: Option<Payload>, events: seq<Event>): Option<Payload>
  {
    if events == [] then result
    else
      var e := events[|events| - 1];
      if e.name == "result" then Some(e.data) else ResultFrom(result, events[..|events| - 1])
  }

  function StepsAfter(events: seq<Event>): Steps { StepsFrom(INITIAL_STEPS, events) }

  function ResultAfter(events: seq<Event>): Option<Payload> { ResultFrom(None, events) }

  lemma {:induction false} FoldsAppend(steps: Steps, result: Option<Payload>, a: seq<Event>, b: seq<Event>)
    ensures StepsFrom(steps, a + b) == StepsFrom(StepsFrom(steps, a), b)
    ensures ResultFrom(result, a + b) == ResultFrom(ResultFrom(result, a), b)
    decreases |b|
  {
    if b == [] {
      assert a + b == a;
    } else {
      assert (a + b)[..|a + b| - 1] == a + b[..|b| - 1];
      FoldsAppend(steps, result, a, b[..|b| - 1]);
    }
  }

  lemma FoldsMore(steps: Steps, result: Option<Payload>, events: seq<Event>, i: nat)
    requires i < |events|
    ensures var e, before := events[i], StepsFrom(steps, events[..i]);
            StepsFrom(steps, events[..i + 1])
            == if e.name == "step" && e.data.Progress?
               then before[e.data.step := Reported(e.data.status, e.data.message)]
               else before
    ensures ResultFrom(result, events[..i + 1])
            == if events[i].name == "result" then Some(events[i].data) else ResultFrom(result, events[..i])
  {
    assert events[..i + 1][..i] == events[..i];
  }

  // ----- The steps of all runs together -----

  /**
   A run reads until the stream ends or fails. Unless it is aborted by then, it has the project refetched,
   and after that it shows its verdict, without looking again whether it was aborted.
   */
  datatype Stage = Reading | Refetching | Gone

  datatype Follower = Follower(aborted: bool, stage: Stage, buffer: string, result: Option<Payload>)

  const NEW_FOLLOWER := Follower(false, Reading, "", None)

  datatype Page = Page(
    current: Option<nat>,
    followers: seq<Follower>,
    phase: Phase,
    steps: Steps,
    error: Option<string>)

  const INITIAL_PAGE := Page(None, [], Idle, INITIAL_STEPS, None)

  /** A run is named by its number. Aborting a run makes its reader fail, so it receives nothing more. */
  datatype Action = Start | Receive(run: nat, text: string) | Close(run: nat) | Show(run: nat) | Reset | Leave

  predicate Receives(p: Page, run: nat)
  {
    run < |p.followers| && p.followers[run].stage == Reading && !p.followers[run].aborted
  }

  predicate Refetches(p: Page, run: nat)
  {
    run < |p.followers| && p.followers[run].stage == Refetching
  }

  function AbortCurrent(p: Page): seq<Follower>
  {
    if p.current.Some? && p.current.value < |p.followers|
    then p.followers[p.current.value := p.followers[p.current.value].(aborted := true)]
    else p.followers
  }

  function Step(p: Page, a: Action, json: Json): Page
  {
    match a
    case Start => Page(Some(|p.followers|), AbortCurrent(p) + [NEW_FOLLOWER], Phase.Running, INITIAL_STEPS, None)
    case Receive(run, text) =>
      if !Receives(p, run) then p
      else
        var f := p.followers[run];
        var (events, rest) := ParseBuffer(f.buffer + text, json);
        p.(followers := p.followers[run := f.(buffer := rest, result := ResultFrom(f.result, events))],
           steps := StepsFrom(p.steps, events))
    case Close(run) =>
      if run >= |p.followers| || p.followers[run].stage != Reading then p
      else
        var f := p.followers[run];
        p.(followers := p.followers[run := f.(stage := if f.aborted then Gone else Refetching)])
    case Show(run) =>
      if !Refetches(p, run) then p
      else
        var f := p.followers[run];
        p.(followers := p.followers[run := f.(stage := Gone)],
           phase := if Succeeds(f.result) then Succeeded else Phase.Failed,
           error := if Succeeds(f.result) then p.error else Some(FailureMessage(f.result)))
    case Reset => Page(None, AbortCurrent(p), Idle, INITIAL_STEPS, None)
    case Leave => p.(followers := AbortCurrent(p))
  }

  function After(actions: seq<Action>, json: Json): Page
  {
    if actions == [] then INITIAL_PAGE
    else Step(After(actions[..|actions| - 1], json), actions[|actions| - 1], json)
  }

  /** The chunks a run has received. */
  function ChunksOf(actions: seq<Action>, run: nat, json: Json): seq<string>
  {
    if actions == [] then []
    else
      var before, a := actions[..|actions| - 1], actions[|actions| - 1];
      ChunksOf(before, run, json)
      + (if a.Receive? && a.run == run && Receives(After(before, json), run) then [a.text] else [])
  }

  function EventsOfRun(actions: seq<Action>, run: nat, json: Json): seq<Event>
  {
    Feed(ChunksOf(actions, run, json), json).0
  }

  /** The runs that showed their verdict since the last start or reset, in order. */
  function Writers(actions: seq<Action>, json: Json): seq<nat>
  {
    if actions == [] then []
    else
      var before, a := actions[..|actions| - 1], actions[|actions| - 1];
      if a.Start? || a.Reset? then []
      else Writers(before, json) + (if a.Show? && Refetches(After(before, json), a.run) then [a.run] else [])
  }

  /** `useDomainSetupStream`, with the locals of each run of `start`. */
  class SetupStreamHook {
    var phase: Phase
    var steps: Steps
    var error: Option<string>
    var abortRef: Option<nat>
    var followers: seq<Follower>

    ghost function State(): Page
      reads this
    {
      Page(abortRef, followers, phase, steps, error)
    }

    constructor ()
      ensures State() == INITIAL_PAGE
    {
      phase, steps, error := Idle, INITIAL_STEPS, None;
      abortRef, followers := None, [];
    }

    method Abort()
      modifies this`followers
      ensures followers == AbortCurrent(old(State()))
    {
      if abortRef.Some? && abortRef.value < |followers| {
        followers := followers[abortRef.value := followers[abortRef.value].(aborted := true)];
      }
    }

    /** The part of `start` before the request. */
    method Start(json: Json)
      modifies this
      ensures State() == Step(old(State()), Action.Start, json)
    {
      Abort();
      abortRef := Some(|followers|);
      followers := followers + [NEW_FOLLOWER];
      phase, steps, error := Phase.Running, INITIAL_STEPS, None;
    }

    /** One turn of the reading loop: the events of a chunk, one after the other. */
    method Receive(run: nat, text: string, json: Json)
      requires Receives(State(), run)
      modifies this`followers, this`steps
      ensures State() == Step(old(State()), Action.Receive(run, text), json)
    {
      var (events, remaining) := ParseBuffer(followers[run].buffer + text, json);
      var result := followers[run].result;
      for i := 0 to |events|
        invariant followers == old(followers)
        invariant steps == StepsFrom(old(steps), events[..i])
        invariant result == ResultFrom(followers[run].result, events[..i])
      {
        FoldsMore(old(steps), followers[run].result, events, i);
        var e := events[i];
        if e.name == "step" {
          if e.data.Progress? {
            steps := steps[e.data.step := Reported(e.data.status, e.data.message)];
          }
        } else if e.name == "result" {
          result := Some(e.data);
        }
      }
      assert events[..|events|] == events;
      followers := followers[run := followers[run].(buffer := remaining, result := result)];
    }

    /** The check after the loop. */
    method Close(run: nat, json: Json)
      requires run < |followers| && followers[run].stage == Reading
      modifies this`followers
      ensures State() == Step(old(State()), Action.Close(run), json)
    {
      var stage := Refetching;
      if followers[run].aborted {
        stage := Gone;
      }
      followers := followers[run := followers[run].(stage := stage)];
    }

    /** What follows the refetch. */
    method Show(run: nat, json: Json)
      requires Refetches(State(), run)
      modifies this`followers, this`phase, this`error
      ensures State() == Step(old(State()), Action.Show(run), json)
    {
      var result := followers[run].result;
      followers := followers[run := followers[run].(stage := Gone)];
      if result.Some? && IsSuccess(result.value) {
        phase := Succeeded;
        return;
      }
      error := if result.Some? then Some(FirstErrorMessage(result.value)) else Some(CONNECTION_LOST);
      phase := Phase.Failed;
    }

    method Reset(json: Json)
      modifies this
      ensures State() == Step(old(State()), Action.Reset, json)
    {
      Abort();
      abortRef := None;
      phase, steps, error := Idle, INITIAL_STEPS, None;
    }

    /** The effect's clean-up. */
    method Leave(json: Json)
      modifies this`followers
      ensures State() == Step(old(State()), Action.Leave, json)
    {
      Abort();
    }
  }

  // ----- What every interleaving keeps -----

  /** A run that is not aborted is the current one. */
  ghost predicate OthersAborted(p: Page)
  {
    && (p.current.Some? ==> p.current.value < |p.followers|)
    && forall i | 0 <= i < |p.followers| && !p.followers[i].aborted :: p.current == Some(i)
  }

  lemma {:induction false} StepAbortsOthers(p: Page, a: Action, json: Json)
    requires OthersAborted(p)
    ensures OthersAborted(Step(p, a, json))
  {
  }

  lemma {:induction false} AlwaysOthersAborted(actions: seq<Action>, json: Json)
    ensures OthersAborted(After(actions, json))
    decreases |actions|
  {
    if actions != [] {
      var before := actions[..|actions| - 1];
      AlwaysOthersAborted(before, json);
      StepAbortsOthers(After(before, json), actions[|actions| - 1], json);
    }
  }

  /** A run's locals are those of its own chunks, whatever other runs do. */
  ghost predicate ReadsItsOwn(p: Page, run: nat, chunks: seq<string>, json: Json)
  {
    if run < |p.followers| then
      var (events, rest) := Feed(chunks, json);
      p.followers[run].buffer == rest && p.followers[run].result == ResultAfter(events)
    else chunks == []
  }

  lemma FeedMore(chunks: seq<string>, text: string, json: Json)
    ensures var (events, rest) := Feed(chunks, json);
            var (more, last) := ParseBuffer(rest + text, json);
            var (all, end) := Feed(chunks + [text], json);
            && end == last
            && StepsFrom(StepsAfter(events), more) == StepsAfter(all)
            && ResultFrom(ResultAfter(events), more) == ResultAfter(all)
  {
    assert (chunks + [text])[..|chunks|] == chunks;
    var (events, rest) := Feed(chunks, json);
    FoldsAppend(INITIAL_STEPS, None, events, ParseBuffer(rest + text, json).0);
  }

  lemma {:induction false} EveryRunReadsItsOwn(actions: seq<Action>, run: nat, json: Json)
    ensures ReadsItsOwn(After(actions, json), run, ChunksOf(actions, run, json), json)
    decreases |actions|
  {
    if actions != [] {
      var before, a := actions[..|actions| - 1], actions[|actions| - 1];
      EveryRunReadsItsOwn(before, run, json);
      var p, chunks := After(before, json), ChunksOf(before, run, json);
      if a.Receive? && a.run == run && Receives(p, run) {
        FeedMore(chunks, a.text, json);
      } else {
        assert chunks + [] == chunks;
        OtherLocalsStay(p, a, run, json);
      }
    }
  }

  lemma {:induction false} OtherLocalsStay(p: Page, a: Action, run: nat, json: Json)
    requires !(a.Receive? && a.run == run && Receives(p, run))
    ensures var q := Step(p, a, json);
            && |q.followers| >= |p.followers|
            && (run < |p.followers| ==>
                  q.followers[run].buffer == p.followers[run].buffer
                  && q.followers[run].result == p.followers[run].result)
            && (|p.followers| <= run < |q.followers| ==> q.followers[run] == NEW_FOLLOWER)
  {
  }

  ghost predicate ShowsStepsOf(p: Page, actions: seq<Action>, json: Json)
  {
    p.steps == if p.current.None? then INITIAL_STEPS else StepsAfter(EventsOfRun(actions, p.current.value, json))
  }

  lemma {:induction false} ReceivedStepsShown(actions: seq<Action>, run: nat, text: string, json: Json)
    requires OthersAborted(After(actions, json)) && Receives(After(actions, json), run)
    requires ShowsStepsOf(After(actions, json), actions, json)
    ensures ShowsStepsOf(Step(After(actions, json), Receive(run, text), json), actions + [Receive(run, text)], json)
  {
    var chunks := ChunksOf(actions, run, json);
    EveryRunReadsItsOwn(actions, run, json);
    FeedMore(chunks, text, json);
    assert (actions + [Receive(run, text)])[..|actions|] == actions;
    assert ChunksOf(actions + [Receive(run, text)], run, json) == chunks + [text];
  }

  lemma {:induction false} OtherStepsShown(actions: seq<Action>, a: Action, json: Json)
    requires OthersAborted(After(actions, json)) && !(a.Receive? && Receives(After(actions, json), a.run))
    requires ShowsStepsOf(After(actions, json), actions, json)
    ensures ShowsStepsOf(Step(After(actions, json), a, json), actions + [a], json)
  {
    var p := After(actions, json);
    assert (actions + [a])[..|actions|] == actions;
    if a.Start? {
      EveryRunReadsItsOwn(actions, |p.followers|, json);
      assert ChunksOf(actions + [a], |p.followers|, json) == [] + [];
    } else if p.current.Some? {
      assert ChunksOf(actions + [a], p.current.value, json) == ChunksOf(actions, p.current.value, json);
    }
  }

  /** The steps shown are always those the current run has received, and untouched ones without a run. */
  lemma {:induction false} StepsAreTheCurrentRuns(actions: seq<Action>, json: Json)
    ensures ShowsStepsOf(After(actions, json), actions, json)
    decreases |actions|
  {
    if actions != [] {
      var before, a := actions[..|actions| - 1], actions[|actions| - 1];
      assert before + [a] == actions;
      StepsAreTheCurrentRuns(before, json);
      AlwaysOthersAborted(before, json);
      if a.Receive? && Receives(After(before, json), a.run) {
        ReceivedStepsShown(before, a.run, a.text, json);
      } else {
        OtherStepsShown(before, a, json);
      }
    }
  }

  lemma {:induction false} ChunksMore(actions: seq<Action>, a: Action, run: nat, json: Json)
    requires !(a.Receive? && Receives(After(actions, json), a.run))
    ensures ChunksOf(actions + [a], run, json) == ChunksOf(actions, run, json)
  {
    assert (actions + [a])[..|actions|] == actions;
  }

  /** Once the page is left, no run receives anything until another is started. */
  lemma {:induction false} LeavingEndsReading(actions: seq<Action>, more: seq<Action>, run: nat, json: Json)
    requires forall a | a in more :: !a.Start?
    ensures ChunksOf(actions + [Leave] + more, run, json) == ChunksOf(actions, run, json)
    ensures forall f | f in After(actions + [Leave] + more, json).followers :: f.aborted
    decreases |more|
  {
    if more == [] {
      assert actions + [Leave] + more == actions + [Leave];
      AfterMore(actions, Leave, json);
      ChunksMore(actions, Leave, run, json);
      AlwaysOthersAborted(actions, json);
    } else {
      var init, a := more[..|more| - 1], more[|more| - 1];
      var before := actions + [Leave] + init;
      assert actions + [Leave] + more == before + [a] && a in more;
      LeavingEndsReading(actions, init, run, json);
      AfterMore(before, a, json);
      AllStayAborted(After(before, json), a, json);
      ChunksMore(before, a, run, json);
    }
  }

  lemma {:induction false} AllStayAborted(p: Page, a: Action, json: Json)
    requires !a.Start? && forall f | f in p.followers :: f.aborted
    ensures forall f | f in Step(p, a, json).followers :: f.aborted
    ensures a.Receive? ==> !Receives(p, a.run)
  {
    forall i | 0 <= i < |p.followers| ensures p.followers[i].aborted { assert p.followers[i] in p.followers; }
  }

  // ----- Whose verdict is shown -----

  function PhaseOf(current: Option<nat>, results: seq<Option<Payload>>): Phase
  {
    if results != [] then if Succeeds(results[|results| - 1]) then Succeeded else Phase.Failed
    else if current.Some? then Phase.Running
    else Idle
  }

  /** Success leaves an error of a run before it in place. */
  function ErrorOf(results: seq<Option<Payload>>): Option<string>
  {
    if results == [] then None
    else
      var last := results[|results| - 1];
      if Succeeds(last) then ErrorOf(results[..|results| - 1]) else Some(FailureMessage(last))
  }

  ghost predicate AllGone(p: Page, runs: seq<nat>)
  {
    forall w | w in runs :: w < |p.followers| && p.followers[w].stage == Gone
  }

  function Results(p: Page, runs: seq<nat>): (results: seq<Option<Payload>>)
    requires forall w | w in runs :: w < |p.followers|
    ensures |results| == |runs|
  {
    seq(|runs|, i requires 0 <= i < |runs| => var w := runs[i]; assert w in runs; p.followers[w].result)
  }

  ghost predicate ShowsVerdictOf(p: Page, runs: seq<nat>)
  {
    AllGone(p, runs) && p.phase == PhaseOf(p.current, Results(p, runs)) && p.error == ErrorOf(Results(p, runs))
  }

  lemma {:induction false} ShowKeepsVerdict(p: Page, runs: seq<nat>, run: nat, json: Json)
    requires ShowsVerdictOf(p, runs) && Refetches(p, run)
    ensures ShowsVerdictOf(Step(p, Show(run), json), runs + [run])
  {
    var q := Step(p, Show(run), json);
    assert Results(q, runs + [run]) == Results(p, runs) + [p.followers[run].result];
    assert Results(q, runs + [run])[..|runs|] == Results(p, runs);
  }

  lemma {:induction false} OtherKeepsVerdict(p: Page, runs: seq<nat>, a: Action, json: Json)
    requires ShowsVerdictOf(p, runs) && !a.Start? && !a.Reset? && !(a.Show? && Refetches(p, a.run))
    ensures ShowsVerdictOf(Step(p, a, json), runs)
  {
    assert Results(Step(p, a, json), runs) == Results(p, runs);
  }

  /**
   Phase and error are always those of the runs that showed their verdict since the last start or reset, each
   by the events it received.
   */
  lemma {:induction false} VerdictIsTheWriters(actions: seq<Action>, json: Json)
    ensures var p, runs := After(actions, json), Writers(actions, json);
            && ShowsVerdictOf(p, runs)
            && forall w | w in runs :: p.followers[w].result == ResultAfter(EventsOfRun(actions, w, json))
    decreases |actions|
  {
    if actions != [] {
      var before, a := actions[..|actions| - 1], actions[|actions| - 1];
      var runs := Writers(before, json);
      VerdictIsTheWriters(before, json);
      if a.Show? && Refetches(After(before, json), a.run) {
        ShowKeepsVerdict(After(before, json), runs, a.run, json);
      } else if !a.Start? && !a.Reset? {
        OtherKeepsVerdict(After(before, json), runs, a, json);
        assert runs + [] == runs;
      }
    }
    forall w | w in Writers(actions, json)
      ensures After(actions, json).followers[w].result == ResultAfter(EventsOfRun(actions, w, json))
    {
      EveryRunReadsItsOwn(actions, w, json);
    }
  }

  // ----- When only the current run shows its verdict -----

  ghost predicate GoesOn(more: seq<Action>) { forall a | a in more :: !a.Start? && !a.Reset? }

  ghost predicate OnlyCurrentWrites(actions: seq<Action>, json: Json)
  {
    forall w | w in Writers(actions, json) :: After(actions, json).current == Some(w)
  }

  ghost predicate OnlyCurrentRefetches(p: Page)
  {
    forall i: nat | Refetches(p, i) :: p.current == Some(i)
  }

  lemma {:induction false} StepKeepsRefetching(p: Page, a: Action, json: Json)
    requires OthersAborted(p) && OnlyCurrentRefetches(p) && !a.Start? && !a.Reset?
    ensures OnlyCurrentRefetches(Step(p, a, json)) && Step(p, a, json).current == p.current
  {
    var q := Step(p, a, json);
    forall i: nat | Refetches(q, i) ensures p.current == Some(i) {
      assert Refetches(p, i) || (a.Close? && a.run == i && !p.followers[i].aborted);
    }
  }

  lemma {:induction false} NoStrayVerdict(actions: seq<Action>, more: seq<Action>, json: Json)
    requires GoesOn(more) && OnlyCurrentWrites(actions, json) && OnlyCurrentRefetches(After(actions, json))
    ensures OnlyCurrentWrites(actions + more, json) && OnlyCurrentRefetches(After(actions + more, json))
    decreases |more|
  {
    if more == [] {
      assert actions + more == actions;
    } else {
      var front, a := more[..|more| - 1], more[|more| - 1];
      assert (actions + more)[..|actions + more| - 1] == actions + front && a in more;
      NoStrayVerdict(actions, front, json);
      AlwaysOthersAborted(actions + front, json);
      StepKeepsRefetching(After(actions + front, json), a, json);
    }
  }

  /**
   After a start or a reset, no superseded run will ever show its verdict exactly when none of them was
   refetching then.
   */
  lemma OnlyCurrentWritesIff(actions: seq<Action>, json: Json)
    requires Writers(actions, json) == []
    ensures (forall more | GoesOn(more) :: OnlyCurrentWrites(actions + more, json))
            <==> OnlyCurrentRefetches(After(actions, json))
  {
    if OnlyCurrentRefetches(After(actions, json)) {
      forall more | GoesOn(more) ensures OnlyCurrentWrites(actions + more, json) {
        NoStrayVerdict(actions, more, json);
      }
    } else {
      var p := After(actions, json);
      var i: nat :| Refetches(p, i) && p.current != Some(i);
      assert (actions + [Show(i)])[..|actions|] == actions;
      assert i in Writers(actions + [Show(i)], json) && GoesOn([Show(i)]);
      assert !OnlyCurrentWrites(actions + [Show(i)], json);
    }
  }

  lemma {:induction false} ErrorOfOne(results: seq<Option<Payload>>, result: Option<Payload>)
    requires results != [] && forall r | r in results :: r == result
    ensures ErrorOf(results) == if Succeeds(result) then None else Some(FailureMessage(result))
    ensures PhaseOf(None, results) == if Succeeds(result) then Succeeded else Phase.Failed
  {
    var n := |results| - 1;
    assert results[n] in results;
    if n > 0 {
      forall r | r in results[..n] ensures r == result { assert r in results; }
      ErrorOfOne(results[..n], result);
    }
  }

  lemma {:induction false} OneRunShown(p: Page, runs: seq<nat>, run: nat)
    requires ShowsVerdictOf(p, runs) && p.current == Some(run) && forall w | w in runs :: w == run
    ensures runs == [] ==> p.phase == Phase.Running && p.error == None
    ensures runs != [] ==>
              && run in runs
              && if Succeeds(p.followers[run].result) then p.phase == Succeeded && p.error == None
                 else p.phase == Phase.Failed && p.error == Some(FailureMessage(p.followers[run].result))
  {
    if runs != [] {
      assert runs[0] in runs;
      var results := Results(p, runs);
      forall i | 0 <= i < |results| ensures results[i] == p.followers[run].result {
        assert runs[i] in runs;
      }
      ErrorOfOne(results, p.followers[run].result);
    }
  }

  /** And then the page is running until the current run's verdict is shown, and shows that. */
  lemma CurrentRunIsShown(actions: seq<Action>, run: nat, json: Json)
    requires OnlyCurrentWrites(actions, json) && After(actions, json).current == Some(run)
    ensures var p := After(actions, json);
            var events := EventsOfRun(actions, run, json);
            && p.steps == StepsAfter(events)
            && (Writers(actions, json) == [] ==> p.phase == Phase.Running && p.error == None)
            && (Writers(actions, json) != [] ==>
                  if Succeeds(ResultAfter(events)) then p.phase == Succeeded && p.error == None
                  else p.phase == Phase.Failed && p.error == Some(FailureMessage(ResultAfter(events))))
  {
    StepsAreTheCurrentRuns(actions, json);
    VerdictIsTheWriters(actions, json);
    OneRunShown(After(actions, json), Writers(actions, json), run);
  }

  lemma AfterMore(actions: seq<Action>, a: Action, json: Json)
    ensures After(actions + [a], json) == Step(After(actions, json), a, json)
  {
    assert (actions + [a])[..|actions|] == actions;
  }

  /** A run started anew during a refetch: the page shows the old verdict while the new run is still reading. */
  lemma SupersededVerdictIsShown(text: string, json: Json)
    ensures var p := After([Start] + [Receive(0, text)] + [Close(0)] + [Start] + [Show(0)], json);
            var result := ResultAfter(ParseBuffer(text, json).0);
            && p.current == Some(1) && |p.followers| == 2 && p.followers[1] == NEW_FOLLOWER && p.steps == INITIAL_STEPS
            && p.phase == if Succeeds(result) then Succeeded else Phase.Failed
  {
    var one := [Start];
    assert one == [] + [Start];
    AfterMore([], Start, json);
    AfterMore(one, Receive(0, text), json);
    AfterMore(one + [Receive(0, text)], Close(0), json);
    AfterMore(one + [Receive(0, text)] + [Close(0)], Start, json);
    AfterMore(one + [Receive(0, text)] + [Close(0)] + [Start], Show(0), json);
    assert "" + text == text;
  }
}
