/** The whole way of a guided setup, from the setup service to the open page. */
module SetupEndToEnd {
  import opened Options
  import opened SetupEvents
  import opened BlockCuts
  import opened EventStream
  import opened SetupClient
  import Server = SetupStream

  /** The state shown for a step is the last thing reported about it, or that nothing was. */
  ghost predicate LastReport(state: StepState, progress: seq<Payload>, k: StepId)
    requires forall p | p in progress :: p.Progress?
  {
    || (state == Pending && forall p | p in progress :: p.step != k)
    || exists i | 0 <= i < |progress| :: progress[i].step == k
         && state == Reported(progress[i].status, progress[i].message)
         && forall j | i < j < |progress| :: progress[j].step != k
  }

  ghost predicate LastReports(steps: Steps, progress: seq<Payload>)
    requires forall p | p in progress :: p.Progress?
  {
    steps.Keys == {AppDns, ApiDns, Ssl} && forall k | k in steps :: LastReport(steps[k], progress, k)
  }

  lemma {:induction false} StepsAreLastReports(progress: seq<Payload>)
    requires forall p | p in progress :: p.Progress?
    ensures LastReports(StepsAfter(StepEvents(progress)), progress)
    ensures ResultAfter(StepEvents(progress)) == None
    decreases |progress|
  {
    if progress != [] {
      var n := |progress| - 1;
      var before, last := progress[..n], progress[n];
      StepsAreLastReports(before);
      assert StepEvents(progress)[..n] == StepEvents(before);
      var now := StepsAfter(StepEvents(progress));
      assert now == StepsAfter(StepEvents(before))[last.step := Reported(last.status, last.message)];
      forall k | k in now ensures LastReport(now[k], progress, k) {
        if k != last.step { LaterReportElsewhere(now[k], progress, k); }
      }
    }
  }

  lemma LaterReportElsewhere(state: StepState, progress: seq<Payload>, k: StepId)
    requires progress != [] && forall p | p in progress :: p.Progress?
    requires progress[|progress| - 1].step != k && LastReport(state, progress[..|progress| - 1], k)
    ensures LastReport(state, progress, k)
  {
    var n := |progress| - 1;
    var before := progress[..n];
    assert progress == before + [progress[n]];
    if !(state == Pending && forall p | p in before :: p.step != k) {
      var i :| 0 <= i < n && before[i].step == k && state == Reported(before[i].status, before[i].message)
               && forall j | i < j < n :: before[j].step != k;
      assert progress[i] == before[i];
      forall j | i < j < |progress| ensures progress[j].step != k { if j < n { assert progress[j] == before[j]; } }
    }
  }

  lemma AllEventsFolded(setup: Setup)
    requires setup.Valid()
    ensures StepsAfter(AllEvents(setup)) == StepsAfter(StepEvents(setup.progress))
    ensures ResultAfter(AllEvents(setup)) == Some(FinalOf(setup))
  {
    var all := AllEvents(setup);
    assert all[..|all| - 1] == StepEvents(setup.progress);
  }

  lemma {:induction false} FramesAreNamed(frames: seq<Server.Frame>)
    ensures forall f | f in frames && f.EventFrame? :: f.event in Server.EventsOf(frames)
  {
    if frames != [] {
      FramesAreNamed(frames[1..]);
      assert frames == [frames[0]] + frames[1..];
    }
  }

  function Served(setup: Setup, serving: seq<Server.Action>): Server.State
  {
    Server.Run(setup, Server.INITIAL, serving)
  }

  lemma NamesAreWords(setup: Setup, event: Event)
    requires event in AllEvents(setup)
    ensures OneLine(event.name)
  {
    assert event.name == "step" || event.name == "result";
  }

  lemma RunIsPrintable(setup: Setup, serving: seq<Server.Action>)
    ensures Printable(Served(setup, serving).wire)
  {
    var wire := Served(setup, serving).wire;
    Server.EventsConserved(setup, serving);
    FramesAreNamed(wire);
    forall f | f in wire && f.EventFrame? ensures OneLine(f.event.name) {
      var events := Server.EventsOf(wire);
      var i :| 0 <= i < |events| && events[i] == f.event;
      assert f.event == AllEvents(setup)[i];
      NamesAreWords(setup, f.event);
    }
  }

  /** What a run reads of a stream that was served to its end. */
  lemma {:induction false} EndedStreamIsRead(
    setup: Setup, serving: seq<Server.Action>, chunks: seq<string>, json: Json)
    requires setup.Valid() && Faithful(json)
    requires Served(setup, serving).reader.Ended? && Concat(chunks) == Wire(Served(setup, serving).wire, json)
    ensures var events := Feed(chunks, json).0;
            LastReports(StepsAfter(events), setup.progress) && ResultAfter(events) == Some(FinalOf(setup))
  {
    RunIsPrintable(setup, serving);
    Server.EndedStreamIsComplete(setup, serving);
    WireRoundTrip(Served(setup, serving).wire, chunks, json);
    AllEventsFolded(setup);
    StepsAreLastReports(setup.progress);
  }

  /** What the user is told about a setup that did not succeed. */
  ghost function ErrorOf(outcome: Outcome): string
  {
    match outcome
    case Throws => "Domain setup failed unexpectedly. Please try again."
    case Returns(Final(_, Some(message))) => if message != "" then message else "Domain setup failed. Please try again."
    case Returns(_) => "Domain setup failed. Please try again."
  }

  /**
   Any setup, any interleaving on the server that ends without the reader leaving, any heartbeats, any cutting
   into chunks, and any interleaving of starts, resets and runs on the page: once the current run, and no
   other, has shown its verdict on the whole text, the page shows the last report of every step, and success
   exactly when setup returned a successful result.
   */
  lemma {:induction false} EndToEnd(
    setup: Setup, serving: seq<Server.Action>, actions: seq<Action>, run: nat, json: Json)
    requires setup.Valid() && Faithful(json) && Served(setup, serving).reader.Ended?
    requires Concat(ChunksOf(actions, run, json)) == Wire(Served(setup, serving).wire, json)
    requires After(actions, json).current == Some(run)
    requires OnlyCurrentWrites(actions, json) && Writers(actions, json) != []
    ensures var p := After(actions, json);
            && LastReports(p.steps, setup.progress)
            && (p.phase == Succeeded <==> setup.outcome.Returns? && setup.outcome.result.isSuccess)
            && p.phase in {Succeeded, Phase.Failed}
            && p.error == if p.phase == Succeeded then None else Some(ErrorOf(setup.outcome))
  {
    EndedStreamIsRead(setup, serving, ChunksOf(actions, run, json), json);
    CurrentRunIsShown(actions, run, json);
  }

  /** A result read from a stream that broke off anywhere is the one the task produced. */
  lemma {:induction false} BrokenStreamIsRead(
    setup: Setup, serving: seq<Server.Action>, chunks: seq<string>, json: Json)
    requires setup.Valid() && Faithful(json) && Concat(chunks) <= Wire(Served(setup, serving).wire, json)
    ensures var result := ResultAfter(Feed(chunks, json).0);
            result.Some? ==> result == Some(FinalOf(setup)) && Served(setup, serving).produced == AllEvents(setup)
  {
    var s := Served(setup, serving);
    RunIsPrintable(setup, serving);
    Server.EventsConserved(setup, serving);
    Server.RunKeepsInv(setup, serving);
    BrokenWireGivesPrefix(s.wire, chunks, json);
    var events := Feed(chunks, json).0;
    var all := AllEvents(setup);
    assert events <= s.produced && events <= all;
    if |events| < |all| {
      assert events == StepEvents(setup.progress[..|events|]);
      StepsAreLastReports(setup.progress[..|events|]);
    } else {
      assert events == all;
      AllEventsFolded(setup);
    }
  }

  /** A connection that breaks anywhere never makes a setup look successful that was not. */
  lemma {:induction false} BrokenConnectionNeverClaimsSuccess(
    setup: Setup, serving: seq<Server.Action>, actions: seq<Action>, run: nat, json: Json)
    requires setup.Valid() && Faithful(json)
    requires Concat(ChunksOf(actions, run, json)) <= Wire(Served(setup, serving).wire, json)
    requires OnlyCurrentWrites(actions, json) && After(actions, json).current == Some(run)
    requires After(actions, json).phase == Succeeded
    ensures IsSuccess(FinalOf(setup)) && Served(setup, serving).produced == AllEvents(setup)
  {
    BrokenStreamIsRead(setup, serving, ChunksOf(actions, run, json), json);
    CurrentRunIsShown(actions, run, json);
  }

  lemma {:induction false} NoResultRead(events: seq<Event>)
    requires forall e | e in events :: e.name != "result"
    ensures ResultAfter(events) == None
    decreases |events|
  {
    if events != [] {
      assert events[|events| - 1] in events;
      NoResultRead(events[..|events| - 1]);
    }
  }

  /** A run that read no result shows that the connection was lost, whatever else it read. */
  lemma {:induction false} LostConnectionIsShown(actions: seq<Action>, run: nat, json: Json)
    requires OnlyCurrentWrites(actions, json) && After(actions, json).current == Some(run)
    requires Writers(actions, json) != [] && forall e | e in EventsOfRun(actions, run, json) :: e.name != "result"
    ensures After(actions, json).phase == Phase.Failed
    ensures After(actions, json).error
            == Some("We lost the connection to the server. "
                    + "Setup may still finish on its own, so check the domain's status in a moment.")
  {
    NoResultRead(EventsOfRun(actions, run, json));
    CurrentRunIsShown(actions, run, json);
  }
}
