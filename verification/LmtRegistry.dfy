/**
 The LMT worker's consumer registry over whole runs, with broker calls that may fail. The functions here
 specify the methods of class LmtWorker.Worker.
 */
module LmtRegistry {

  import opened Options
  import Strings

  /** The broker calls that start a consumer, in order. */
  datatype BrokerCall = Connect | CreateChannel | DeclareExchange | DeclareQueue | BindQueue | SetQos | Consume

  /** Where starting the log and the trace consumer of each loaded service fails, if it does. */
  type Faults = nat -> (Option<BrokerCall>, Option<BrokerCall>)

  /** How stopping a consumer goes: whether its channel is still open, and whether cancelling fails then. */
  datatype StopCourse = StopCourse(isOpen: bool, cancelFails: bool)
  {
    predicate Throws() { isOpen && cancelFails }
  }

  /** The consumers of one kind: a channel and a consumer tag for each service. Channels are numbered as opened. */
  datatype Consumers = Consumers(channels: map<string, nat>, tags: map<string, nat>)

  datatype State = State(cache: set<string>, logs: Consumers, traces: Consumers, total: nat, disposed: set<nat>)
  {
    function Kind(isLogs: bool): Consumers { if isLogs then logs else traces }

    function With(isLogs: bool, c: Consumers): State { if isLogs then this.(logs := c) else this.(traces := c) }
  }

  const INITIAL := State({}, Consumers(map[], map[]), Consumers(map[], map[]), 0, {})

  function Start(s: State, id: string, isLogs: bool, fault: Option<BrokerCall>): State
  {
    var c := s.Kind(isLogs);
    if id in c.channels || fault == Some(Connect) || fault == Some(CreateChannel) then s
    else
      var o := s.(total := s.total + 1);
      if fault.Some? then o
      else o.With(isLogs, Consumers(c.channels[id := s.total], if id in c.tags then c.tags else c.tags[id := s.total]))
  }

  function StartBoth(s: State, id: string, logsFault: Option<BrokerCall>, tracesFault: Option<BrokerCall>): State
  {
    Start(Start(s.(cache := s.cache + {id}), id, true, logsFault), id, false, tracesFault)
  }

  /** Whether the consumer of a service is found, so that stopping it reaches the broker. */
  predicate Stops(s: State, id: string, isLogs: bool)
  {
    id in s.Kind(isLogs).tags && id in s.Kind(isLogs).channels
  }

  function Stop(s: State, id: string, isLogs: bool, course: StopCourse): State
  {
    var c := s.Kind(isLogs);
    if id !in c.tags then s
    else
      var r := s.With(isLogs, Consumers(c.channels - {id}, c.tags - {id}));
      if id !in c.channels || course.Throws() then r else r.(disposed := r.disposed + {c.channels[id]})
  }

  /** A cancel call that fails for the logs keeps the traces from being stopped. */
  function StopBoth(s: State, id: string, logsStop: StopCourse, tracesStop: StopCourse): State
  {
    var r := Stop(s.(cache := s.cache - {id}), id, true, logsStop);
    if Stops(s, id, true) && logsStop.Throws() then r else Stop(r, id, false, tracesStop)
  }

  datatype Event =
    | Load(services: Option<seq<Option<string>>>, faults: Faults)
    | Message(content: Option<Update>, logsFault: Option<BrokerCall>, tracesFault: Option<BrokerCall>,
              logsStop: StopCourse, tracesStop: StopCourse)

  /** A service activity message, where its text can be read as one. */
  datatype Update = Update(action: string, serviceId: string)

  /** The database could be read and every document in it names its service. */
  predicate Loads(services: Option<seq<Option<string>>>)
  {
    services.Some? && forall d | d in services.value :: d.Some?
  }

  function LoadFrom(s: State, ids: seq<Option<string>>, faults: Faults): State
    requires forall d | d in ids :: d.Some?
    decreases |ids|
  {
    if ids == [] then s
    else
      var i := |ids| - 1;
      StartBoth(LoadFrom(s, ids[..i], faults), ids[i].value, faults(i).0, faults(i).1)
  }

  /** A message about a service, asking for an action. */
  predicate Asks(e: Event, action: string)
  {
    e.Message? && e.content.Some? && !Strings.IsBlank(e.content.value.serviceId) && e.content.value.action == action
  }

  predicate Adds(e: Event) { Asks(e, "add") }

  predicate Removes(e: Event) { Asks(e, "remove") }

  function Step(s: State, e: Event): State
  {
    if e.Load? then if Loads(e.services) then LoadFrom(s, e.services.value, e.faults) else s
    else if Adds(e) then StartBoth(s, e.content.value.serviceId, e.logsFault, e.tracesFault)
    else if Removes(e) then StopBoth(s, e.content.value.serviceId, e.logsStop, e.tracesStop)
    else s
  }

  function Run(events: seq<Event>): State
  {
    if events == [] then INITIAL else Step(Run(events[..|events| - 1]), events[|events| - 1])
  }

  // ----- What every run keeps, faults or not -----

  ghost predicate Paired(c: Consumers) { c.channels.Keys == c.tags.Keys }

  ghost predicate Sound(s: State)
  {
    && Paired(s.logs) && Paired(s.traces)
    && (forall d | d in s.disposed :: d < s.total)
    && (forall id | id in s.logs.channels :: s.logs.channels[id] < s.total && s.logs.channels[id] !in s.disposed)
    && (forall id | id in s.traces.channels ::
          s.traces.channels[id] < s.total && s.traces.channels[id] !in s.disposed)
    && (forall i, j | i in s.logs.channels && j in s.logs.channels && i != j ::
          s.logs.channels[i] != s.logs.channels[j])
    && (forall i, j | i in s.traces.channels && j in s.traces.channels && i != j ::
          s.traces.channels[i] != s.traces.channels[j])
    && (forall i, j | i in s.logs.channels && j in s.traces.channels :: s.logs.channels[i] != s.traces.channels[j])
  }

  lemma StartSound(s: State, id: string, isLogs: bool, fault: Option<BrokerCall>)
    requires Sound(s)
    ensures Sound(Start(s, id, isLogs, fault))
  {
  }

  lemma StopSound(s: State, id: string, isLogs: bool, course: StopCourse)
    requires Sound(s)
    ensures Sound(Stop(s, id, isLogs, course))
  {
  }

  lemma StartBothSound(s: State, id: string, f: Option<BrokerCall>, g: Option<BrokerCall>)
    requires Sound(s)
    ensures Sound(StartBoth(s, id, f, g))
  {
    var t := s.(cache := s.cache + {id});
    StartSound(t, id, true, f);
    StartSound(Start(t, id, true, f), id, false, g);
  }

  lemma {:induction false} LoadSound(s: State, ids: seq<Option<string>>, faults: Faults)
    requires Sound(s) && forall d | d in ids :: d.Some?
    ensures Sound(LoadFrom(s, ids, faults))
    decreases |ids|
  {
    if ids != [] {
      var i := |ids| - 1;
      LoadSound(s, ids[..i], faults);
      StartBothSound(LoadFrom(s, ids[..i], faults), ids[i].value, faults(i).0, faults(i).1);
    }
  }

  lemma StepSound(s: State, e: Event)
    requires Sound(s)
    ensures Sound(Step(s, e))
  {
    if e.Load? {
      if Loads(e.services) { LoadSound(s, e.services.value, e.faults); }
    } else if Adds(e) {
      StartBothSound(s, e.content.value.serviceId, e.logsFault, e.tracesFault);
    } else if Removes(e) {
      var id := e.content.value.serviceId;
      var t := s.(cache := s.cache - {id});
      assert Sound(t);
      StopSound(t, id, true, e.logsStop);
      StopSound(Stop(t, id, true, e.logsStop), id, false, e.tracesStop);
    }
  }

  /**
   Whatever fails: each kind has a tag for exactly its channels, and no registered channel was disposed or is
   shared.
   */
  lemma {:induction false} EveryRunIsSound(events: seq<Event>)
    ensures Sound(Run(events))
    decreases |events|
  {
    if events != [] {
      EveryRunIsSound(events[..|events| - 1]);
      StepSound(Run(events[..|events| - 1]), events[|events| - 1]);
    }
  }

  // ----- What each message does -----

  /** The channels and tags of a kind once a service has got a channel of its own. */
  function Joined(c: Consumers, id: string, channel: nat): Consumers
  {
    Consumers(c.channels[id := channel], c.tags[id := channel])
  }

  function Left(c: Consumers, id: string): Consumers { Consumers(c.channels - {id}, c.tags - {id}) }

  /** An "add" opens a channel for each kind that has none, up to the broker call that fails, and registers it. */
  lemma AddMessage(
    events: seq<Event>, id: string, f: Option<BrokerCall>, g: Option<BrokerCall>, l: StopCourse, t: StopCourse)
    requires !Strings.IsBlank(id)
    ensures var s := Run(events);
            var opensLogs := id !in s.logs.channels && f != Some(Connect) && f != Some(CreateChannel);
            var opensTraces := id !in s.traces.channels && g != Some(Connect) && g != Some(CreateChannel);
            var next := s.total + if opensLogs then 1 else 0;
            Run(events + [Message(Some(Update("add", id)), f, g, l, t)])
            == State(
                 s.cache + {id},
                 if opensLogs && f == None then Joined(s.logs, id, s.total) else s.logs,
                 if opensTraces && g == None then Joined(s.traces, id, next) else s.traces,
                 next + (if opensTraces then 1 else 0),
                 s.disposed)
  {
    var e := Message(Some(Update("add", id)), f, g, l, t);
    EveryRunIsSound(events);
    assert (events + [e])[..|events|] == events;
    assert id in Run(events).logs.tags <==> id in Run(events).logs.channels;
    assert id in Run(events).traces.tags <==> id in Run(events).traces.channels;
  }

  /**
   A "remove" takes the service out of the cache and of the maps, and disposes its channels. An open log channel
   whose consumer cannot be cancelled is forgotten without being disposed, and then the traces stay as they are.
   */
  lemma RemoveMessage(
    events: seq<Event>, id: string, f: Option<BrokerCall>, g: Option<BrokerCall>,
    logsOpen: bool, logsFail: bool, tracesOpen: bool, tracesFail: bool)
    requires !Strings.IsBlank(id)
    ensures var s := Run(events);
            var l, t := StopCourse(logsOpen, logsFail), StopCourse(tracesOpen, tracesFail);
            var logsThrow := id in s.logs.channels && logsOpen && logsFail;
            var tracesThrow := id in s.traces.channels && tracesOpen && tracesFail;
            Run(events + [Message(Some(Update("remove", id)), f, g, l, t)])
            == State(
                 s.cache - {id}, Left(s.logs, id), if logsThrow then s.traces else Left(s.traces, id), s.total,
                 s.disposed
                 + (if id in s.logs.channels && !logsThrow then {s.logs.channels[id]} else {})
                 + (if id in s.traces.channels && !logsThrow && !tracesThrow then {s.traces.channels[id]} else {}))
  {
    var l, t := StopCourse(logsOpen, logsFail), StopCourse(tracesOpen, tracesFail);
    var e := Message(Some(Update("remove", id)), f, g, l, t);
    EveryRunIsSound(events);
    assert (events + [e])[..|events|] == events;
    var s := Run(events).(cache := Run(events).cache - {id});
    StopMessage(s, id, true, l);
    StopMessage(Stop(s, id, true, l), id, false, t);
  }

  lemma StopMessage(s: State, id: string, isLogs: bool, course: StopCourse)
    requires Paired(s.Kind(isLogs))
    ensures var c := s.Kind(isLogs);
            Stop(s, id, isLogs, course)
            == s.With(isLogs, Left(c, id)).(
                 disposed := s.disposed + if id in c.channels && !(course.isOpen && course.cancelFails)
                                          then {c.channels[id]} else {})
  {
    var c := s.Kind(isLogs);
    if id !in c.channels { assert Left(c, id) == c; }
  }

  /** A message that cannot be read, names no service or asks for anything else changes nothing. */
  lemma OtherMessage(
    events: seq<Event>, content: Option<Update>, f: Option<BrokerCall>, g: Option<BrokerCall>, l: StopCourse,
    t: StopCourse)
    requires content.None? || Strings.IsBlank(content.value.serviceId) || content.value.action !in {"add", "remove"}
    ensures Run(events + [Message(content, f, g, l, t)]) == Run(events)
  {
    assert (events + [Message(content, f, g, l, t)])[..|events|] == events;
  }

  function Named(ids: seq<string>): (services: seq<Option<string>>)
    ensures |services| == |ids| && forall i | 0 <= i < |ids| :: services[i] == Some(ids[i])
    ensures forall d | d in services :: d.Some?
  {
    seq(|ids|, i requires 0 <= i < |ids| => Some(ids[i]))
  }

  /** Every service is in the cache and has the consumers that could be started; nothing was taken away. */
  ghost predicate LoadedInto(s: State, t: State, ids: seq<string>, faults: Faults)
  {
    && t.cache == s.cache + (set id | id in ids) && t.disposed == s.disposed
    && Grown(s.logs.channels, t.logs.channels) && Grown(s.traces.channels, t.traces.channels)
    && (forall i | 0 <= i < |ids| && faults(i).0 == None :: ids[i] in t.logs.channels)
    && (forall i | 0 <= i < |ids| && faults(i).1 == None :: ids[i] in t.traces.channels)
  }

  /** Loading goes through every service document, each with its own failures, and takes nothing away. */
  lemma {:induction false} LoadMessage(events: seq<Event>, ids: seq<string>, faults: Faults)
    ensures LoadedInto(Run(events), Run(events + [Load(Some(Named(ids)), faults)]), ids, faults)
  {
    var e := Load(Some(Named(ids)), faults);
    assert (events + [e])[..|events|] == events;
    LoadStarts(Run(events), ids, Named(ids), faults);
  }

  /** Where the database cannot be read, or a document does not name its service, nothing is started. */
  lemma FailedLoad(events: seq<Event>, services: Option<seq<Option<string>>>, faults: Faults)
    requires services.None? || None in services.value
    ensures Run(events + [Load(services, faults)]) == Run(events)
  {
    assert (events + [Load(services, faults)])[..|events|] == events;
  }

  ghost predicate Grown(before: map<string, nat>, after: map<string, nat>)
  {
    forall id | id in before :: id in after && after[id] == before[id]
  }

  lemma {:induction false} LoadStarts(s: State, ids: seq<string>, services: seq<Option<string>>, faults: Faults)
    requires |services| == |ids| && forall i | 0 <= i < |ids| :: services[i] == Some(ids[i])
    requires forall d | d in services :: d.Some?
    ensures LoadedInto(s, LoadFrom(s, services, faults), ids, faults)
    decreases |ids|
  {
    if ids != [] {
      var n := |ids| - 1;
      LoadStarts(s, ids[..n], services[..n], faults);
      OneMoreStarted(LoadFrom(s, services[..n], faults), ids[n], faults(n).0, faults(n).1);
      assert ids == ids[..n] + [ids[n]];
    }
  }

  lemma OneMoreStarted(s: State, id: string, f: Option<BrokerCall>, g: Option<BrokerCall>)
    ensures var t := StartBoth(s, id, f, g);
            && t.cache == s.cache + {id} && t.disposed == s.disposed
            && Grown(s.logs.channels, t.logs.channels) && Grown(s.traces.channels, t.traces.channels)
            && (f == None ==> id in t.logs.channels) && (g == None ==> id in t.traces.channels)
  {
  }

  // ----- Self-healing -----

  /**
   From any state a run can reach, one add that goes through leaves the service with both consumers, keeps the
   ones that were running, and touches no other service.
   */
  lemma AddHeals(events: seq<Event>, e: Event)
    requires Adds(e) && e.logsFault.None? && e.tracesFault.None?
    ensures var s, t, id := Run(events), Run(events + [e]), e.content.value.serviceId;
            && id in t.cache && t.cache == s.cache + {id} && t.disposed == s.disposed
            && Healed(s.logs, t.logs, id) && Healed(s.traces, t.traces, id)
  {
    var s, id := Run(events), e.content.value.serviceId;
    EveryRunIsSound(events);
    assert (events + [e])[..|events|] == events;
    var t := s.(cache := s.cache + {id});
    StartHeals(t, id, true);
    StartHeals(Start(t, id, true, None), id, false);
  }

  lemma StartHeals(s: State, id: string, isLogs: bool)
    requires Paired(s.Kind(isLogs))
    ensures var t := Start(s, id, isLogs, None);
            && Healed(s.Kind(isLogs), t.Kind(isLogs), id) && t.Kind(!isLogs) == s.Kind(!isLogs)
            && t.cache == s.cache && t.disposed == s.disposed
  {
  }

  ghost predicate Healed(before: Consumers, after: Consumers, id: string)
  {
    && id in after.channels && id in after.tags
    && (forall j | j in before.channels :: j in after.channels && after.channels[j] == before.channels[j])
    && (forall j | j in before.tags :: j in after.tags && after.tags[j] == before.tags[j])
    && after.channels.Keys == before.channels.Keys + {id} && after.tags.Keys == before.tags.Keys + {id}
  }

  /**
   And one remove that goes through takes the service out of the cache and all four maps, whatever an earlier
   remove that failed half-way left there. Other services stay.
   */
  lemma RemoveClears(events: seq<Event>, e: Event)
    requires Removes(e) && !e.logsStop.Throws() && !e.tracesStop.Throws()
    ensures var s, t, id := Run(events), Run(events + [e]), e.content.value.serviceId;
            && t.cache == s.cache - {id}
            && t.logs == Consumers(s.logs.channels - {id}, s.logs.tags - {id})
            && t.traces == Consumers(s.traces.channels - {id}, s.traces.tags - {id})
  {
    var s, id := Run(events), e.content.value.serviceId;
    EveryRunIsSound(events);
    assert (events + [e])[..|events|] == events;
    var t := s.(cache := s.cache - {id});
    StopClears(t, id, true, e.logsStop);
    StopClears(Stop(t, id, true, e.logsStop), id, false, e.tracesStop);
  }

  lemma StopClears(s: State, id: string, isLogs: bool, course: StopCourse)
    requires Paired(s.Kind(isLogs)) && !course.Throws()
    ensures var t, c := Stop(s, id, isLogs, course), s.Kind(isLogs);
            && t.Kind(isLogs) == Consumers(c.channels - {id}, c.tags - {id})
            && t.Kind(!isLogs) == s.Kind(!isLogs) && t.cache == s.cache
  {
    var c := s.Kind(isLogs);
    if id !in c.tags { assert c.channels - {id} == c.channels && c.tags - {id} == c.tags; }
  }

  // ----- Failure-free runs: the registry is the set of services -----

  ghost predicate Goes(e: Event)
  {
    match e
    case Load(_, faults) => forall i: nat :: faults(i) == (None, None)
    case Message(_, f, g, l, t) => f.None? && g.None? && !l.Throws() && !t.Throws()
  }

  function Ids(services: seq<Option<string>>): set<string>
  {
    set d | d in services && d.Some? :: d.value
  }

  /** Loaded or last added, and not removed since. */
  function Registered(events: seq<Event>): set<string>
  {
    if events == [] then {}
    else
      var e := events[|events| - 1];
      var before := Registered(events[..|events| - 1]);
      if e.Load? && Loads(e.services) then before + Ids(e.services.value)
      else if Adds(e) then before + {e.content.value.serviceId}
      else if Removes(e) then before - {e.content.value.serviceId}
      else before
  }

  ghost predicate AllKeys(s: State, ids: set<string>)
  {
    && s.cache == ids
    && s.logs.channels.Keys == ids && s.logs.tags.Keys == ids
    && s.traces.channels.Keys == ids && s.traces.tags.Keys == ids
  }

  lemma StartBothKeys(s: State, id: string, before: set<string>)
    requires AllKeys(s, before)
    ensures AllKeys(StartBoth(s, id, None, None), before + {id})
  {
  }

  lemma StopBothKeys(s: State, id: string, logsStop: StopCourse, tracesStop: StopCourse, before: set<string>)
    requires AllKeys(s, before) && !logsStop.Throws() && !tracesStop.Throws()
    ensures AllKeys(StopBoth(s, id, logsStop, tracesStop), before - {id})
  {
    var t := s.(cache := s.cache - {id});
    StopClears(t, id, true, logsStop);
    StopClears(Stop(t, id, true, logsStop), id, false, tracesStop);
  }

  lemma {:induction false} LoadKeys(s: State, ids: seq<Option<string>>, faults: Faults, before: set<string>)
    requires AllKeys(s, before) && (forall d | d in ids :: d.Some?) && forall i: nat :: faults(i) == (None, None)
    ensures AllKeys(LoadFrom(s, ids, faults), before + Ids(ids))
    decreases |ids|
  {
    if ids == [] {
      assert before + Ids(ids) == before;
    } else {
      var i := |ids| - 1;
      LoadKeys(s, ids[..i], faults, before);
      assert ids == ids[..i] + [ids[i]];
      assert Ids(ids) == Ids(ids[..i]) + {ids[i].value};
      assert before + Ids(ids) == before + Ids(ids[..i]) + {ids[i].value};
      StartBothKeys(LoadFrom(s, ids[..i], faults), ids[i].value, before + Ids(ids[..i]));
    }
  }

  /** In a run in which no broker call fails, the cache and all four maps have exactly the registered services. */
  lemma {:induction false} RegistryRefinesSet(events: seq<Event>)
    requires forall e | e in events :: Goes(e)
    ensures AllKeys(Run(events), Registered(events))
    decreases |events|
  {
    if events != [] {
      var before := events[..|events| - 1];
      var e := events[|events| - 1];
      assert Goes(e);
      RegistryRefinesSet(before);
      if e.Load? && Loads(e.services) {
        LoadKeys(Run(before), e.services.value, e.faults, Registered(before));
      } else if Adds(e) {
        StartBothKeys(Run(before), e.content.value.serviceId, Registered(before));
      } else if Removes(e) {
        StopBothKeys(Run(before), e.content.value.serviceId, e.logsStop, e.tracesStop, Registered(before));
      }
    }
  }

  // ----- Conservation of channels -----

  /** Channels that are neither registered nor disposed: opened minus disposed minus registered. */
  function Lost(s: State): int
  {
    s.total - |s.disposed| - |s.logs.channels| - |s.traces.channels|
  }

  /** A start that fails once its channel exists loses that channel. */
  function StartLoses(s: State, id: string, isLogs: bool, fault: Option<BrokerCall>): nat
  {
    if id !in s.Kind(isLogs).channels && fault.Some? && fault != Some(Connect) && fault != Some(CreateChannel) then 1
    else 0
  }

  /** A stop whose cancel call fails loses the channel: it is out of the maps and never disposed. */
  function StopLoses(s: State, id: string, isLogs: bool, course: StopCourse): nat
  {
    if Stops(s, id, isLogs) && course.Throws() then 1 else 0
  }

  function StartBothLoses(s: State, id: string, f: Option<BrokerCall>, g: Option<BrokerCall>): nat
  {
    StartLoses(s, id, true, f) + StartLoses(s, id, false, g)
  }

  function StopBothLoses(s: State, id: string, logsStop: StopCourse, tracesStop: StopCourse): nat
  {
    var first := StopLoses(s, id, true, logsStop);
    if first > 0 then first else StopLoses(s, id, false, tracesStop)
  }

  function LoadLoses(s: State, ids: seq<Option<string>>, faults: Faults): nat
    requires forall d | d in ids :: d.Some?
    decreases |ids|
  {
    if ids == [] then 0
    else
      var i := |ids| - 1;
      LoadLoses(s, ids[..i], faults)
      + StartBothLoses(LoadFrom(s, ids[..i], faults), ids[i].value, faults(i).0, faults(i).1)
  }

  function StepLoses(s: State, e: Event): nat
  {
    if e.Load? then if Loads(e.services) then LoadLoses(s, e.services.value, e.faults) else 0
    else if Adds(e) then StartBothLoses(s, e.content.value.serviceId, e.logsFault, e.tracesFault)
    else if Removes(e) then StopBothLoses(s, e.content.value.serviceId, e.logsStop, e.tracesStop)
    else 0
  }

  function RunLoses(events: seq<Event>): nat
  {
    if events == [] then 0
    else RunLoses(events[..|events| - 1]) + StepLoses(Run(events[..|events| - 1]), events[|events| - 1])
  }

  lemma StartLost(s: State, id: string, isLogs: bool, fault: Option<BrokerCall>)
    requires Sound(s)
    ensures Lost(Start(s, id, isLogs, fault)) == Lost(s) + StartLoses(s, id, isLogs, fault)
    ensures Start(s, id, isLogs, fault).Kind(!isLogs) == s.Kind(!isLogs)
  {
    var c := s.Kind(isLogs);
    if id !in c.channels { assert c.channels[id := s.total].Keys == c.channels.Keys + {id}; }
  }

  lemma StopLost(s: State, id: string, isLogs: bool, course: StopCourse)
    requires Paired(s.Kind(isLogs))
    requires id in s.Kind(isLogs).channels ==> s.Kind(isLogs).channels[id] !in s.disposed
    ensures Lost(Stop(s, id, isLogs, course)) == Lost(s) + StopLoses(s, id, isLogs, course)
  {
    var c := s.Kind(isLogs);
    if id in c.channels {
      assert (c.channels - {id}).Keys == c.channels.Keys - {id};
      assert |c.channels - {id}| == |c.channels| - 1;
    }
  }

  lemma StartBothLost(s: State, id: string, f: Option<BrokerCall>, g: Option<BrokerCall>)
    requires Sound(s)
    ensures Lost(StartBoth(s, id, f, g)) == Lost(s) + StartBothLoses(s, id, f, g)
  {
    var t := s.(cache := s.cache + {id});
    StartSound(t, id, true, f);
    StartLost(t, id, true, f);
    StartLost(Start(t, id, true, f), id, false, g);
  }

  lemma {:induction false} LoadLost(s: State, ids: seq<Option<string>>, faults: Faults)
    requires Sound(s) && forall d | d in ids :: d.Some?
    ensures Lost(LoadFrom(s, ids, faults)) == Lost(s) + LoadLoses(s, ids, faults)
    decreases |ids|
  {
    if ids != [] {
      var i := |ids| - 1;
      LoadSound(s, ids[..i], faults);
      LoadLost(s, ids[..i], faults);
      StartBothLost(LoadFrom(s, ids[..i], faults), ids[i].value, faults(i).0, faults(i).1);
    }
  }

  lemma StopBothLost(s: State, id: string, logsStop: StopCourse, tracesStop: StopCourse)
    requires Sound(s)
    ensures Lost(StopBoth(s, id, logsStop, tracesStop)) == Lost(s) + StopBothLoses(s, id, logsStop, tracesStop)
  {
    var t := s.(cache := s.cache - {id});
    assert Lost(t) == Lost(s);
    StopLost(t, id, true, logsStop);
    var r := Stop(t, id, true, logsStop);
    OtherKindStays(t, id, true, logsStop);
    StopLost(r, id, false, tracesStop);
  }

  lemma OtherKindStays(s: State, id: string, isLogs: bool, course: StopCourse)
    requires Sound(s)
    ensures var r := Stop(s, id, isLogs, course);
            && r.Kind(!isLogs) == s.Kind(!isLogs)
            && (id in r.Kind(!isLogs).channels ==> r.Kind(!isLogs).channels[id] !in r.disposed)
  {
    StopSound(s, id, isLogs, course);
  }

  lemma StepLost(s: State, e: Event)
    requires Sound(s)
    ensures Lost(Step(s, e)) == Lost(s) + StepLoses(s, e)
  {
    if e.Load? {
      if Loads(e.services) { LoadLost(s, e.services.value, e.faults); }
    } else if Adds(e) {
      StartBothLost(s, e.content.value.serviceId, e.logsFault, e.tracesFault);
    } else if Removes(e) {
      StopBothLost(s, e.content.value.serviceId, e.logsStop, e.tracesStop);
    }
  }

  /** Over any run: opened channels are the disposed ones, the registered ones, and one for each losing fault. */
  lemma {:induction false} Conservation(events: seq<Event>)
    ensures Lost(Run(events)) == RunLoses(events)
    decreases |events|
  {
    if events != [] {
      var before := events[..|events| - 1];
      EveryRunIsSound(before);
      Conservation(before);
      StepLost(Run(before), events[|events| - 1]);
    }
  }

  /** No channel is lost in a failure-free run, which therefore holds two channels for each service in the cache. */
  lemma {:induction false} FailureFreeConservation(events: seq<Event>)
    requires forall e | e in events :: Goes(e)
    ensures RunLoses(events) == 0
    ensures Run(events).total - |Run(events).disposed| == 2 * |Run(events).cache|
    decreases |events|
  {
    if events != [] {
      var before := events[..|events| - 1];
      var e := events[|events| - 1];
      assert Goes(e);
      FailureFreeConservation(before);
      if e.Load? && Loads(e.services) { FailureFreeLoad(Run(before), e.services.value, e.faults); }
    }
    Conservation(events);
    RegistryRefinesSet(events);
    var s := Run(events);
    assert |s.logs.channels.Keys| == |s.cache| && |s.traces.channels.Keys| == |s.cache|;
  }

  lemma {:induction false} FailureFreeLoad(s: State, ids: seq<Option<string>>, faults: Faults)
    requires (forall d | d in ids :: d.Some?) && forall i: nat :: faults(i) == (None, None)
    ensures LoadLoses(s, ids, faults) == 0
    decreases |ids|
  {
    if ids != [] { FailureFreeLoad(s, ids[..|ids| - 1], faults); }
  }

  // ----- Shutdown -----

  function ChannelsOf(m: map<string, nat>): set<nat> { set id | id in m :: m[id] }

  /** Channels closed and disposed one after the other, up to one whose closing fails. */
  function CloseAll(disposed: set<nat>, channels: seq<nat>, failing: set<nat>): (set<nat>, bool)
    decreases |channels|
  {
    if channels == [] then (disposed, false)
    else if channels[0] in failing then (disposed, true)
    else CloseAll(disposed + {channels[0]}, channels[1..], failing)
  }

  lemma {:induction false} CloseAllAppend(disposed: set<nat>, a: seq<nat>, b: seq<nat>, failing: set<nat>)
    ensures CloseAll(disposed, a + b, failing)
            == var first := CloseAll(disposed, a, failing); if first.1 then first else CloseAll(first.0, b, failing)
    decreases |a|
  {
    if a == [] {
      assert a + b == b;
    } else {
      assert (a + b)[1..] == a[1..] + b;
      CloseAllAppend(disposed + {a[0]}, a[1..], b, failing);
    }
  }

  /** The values of a dictionary, in the order it is enumerated. */
  ghost predicate Lists(channels: seq<nat>, m: map<string, nat>)
  {
    forall c :: c in channels <==> c in ChannelsOf(m)
  }

  /** `StopAsync`: the log channels are closed and disposed, then the trace channels. */
  function Shutdown(s: State, logs: seq<nat>, traces: seq<nat>, failing: set<nat>): State
  {
    s.(disposed := CloseAll(s.disposed, logs + traces, failing).0)
  }

  lemma {:induction false} CloseAllCloses(disposed: set<nat>, channels: seq<nat>, failing: set<nat>)
    ensures var (after, threw) := CloseAll(disposed, channels, failing);
            && disposed <= after && (forall c | c in after :: c in disposed || (c in channels && c !in failing))
            && (threw <==> exists c :: c in channels && c in failing)
            && (!threw ==> forall c | c in channels :: c in after)
    decreases |channels|
  {
    if channels != [] {
      assert channels == [channels[0]] + channels[1..];
      if channels[0] !in failing { CloseAllCloses(disposed + {channels[0]}, channels[1..], failing); }
    }
  }

  /** The channels before the first that fails to close are disposed, and none from there on. */
  lemma {:induction false} CloseAllUpTo(
    disposed: set<nat>, before: seq<nat>, channel: nat, after: seq<nat>, failing: set<nat>)
    requires channel in failing && forall c | c in before :: c !in failing
    ensures CloseAll(disposed, before + [channel] + after, failing) == (disposed + (set c | c in before), true)
    decreases |before|
  {
    var all := before + [channel] + after;
    if before == [] {
      assert all[0] == channel && disposed + (set c | c in before) == disposed;
    } else {
      assert all[1..] == before[1..] + [channel] + after;
      CloseAllUpTo(disposed + {before[0]}, before[1..], channel, after, failing);
      assert before == [before[0]] + before[1..];
      assert disposed + {before[0]} + (set c | c in before[1..]) == disposed + (set c | c in before);
    }
  }

  ghost predicate EveryChannelDisposed(s: State) { forall c: nat | c < s.total :: c in s.disposed }

  lemma {:induction false} ChannelsOfSize(m: map<string, nat>)
    requires forall i, j | i in m && j in m && i != j :: m[i] != m[j]
    ensures |ChannelsOf(m)| == |m|
    decreases |m|
  {
    if m.Keys == {} {
      assert m == map[] && ChannelsOf(m) == {};
    } else {
      var id :| id in m;
      var rest := m - {id};
      assert rest.Keys == m.Keys - {id};
      ChannelsOfSize(rest);
      forall c ensures c in ChannelsOf(m) <==> c in ChannelsOf(rest) + {m[id]} {
        if c in ChannelsOf(m) {
          var j :| j in m && m[j] == c;
          assert j == id || j in rest;
        }
      }
      assert ChannelsOf(m) == ChannelsOf(rest) + {m[id]};
    }
  }

  lemma {:induction false} FullSet(n: nat, s: set<nat>)
    requires forall c | c in s :: c < n
    ensures |s| <= n
    ensures |s| == n <==> forall c: nat | c < n :: c in s
    decreases n
  {
    if n == 0 {
      assert s == {};
    } else {
      var rest := s - {n - 1};
      FullSet(n - 1, rest);
      if n - 1 in s {
        assert |s| == |rest| + 1;
        assert forall c: nat | c < n - 1 :: c in s <==> c in rest;
      } else {
        assert rest == s;
      }
    }
  }

  lemma {:induction false} CleanShutdownIff(events: seq<Event>)
    ensures var s := Run(events);
            (forall c: nat | c < s.total ::
               c in s.disposed + ChannelsOf(s.logs.channels) + ChannelsOf(s.traces.channels))
            <==> RunLoses(events) == 0
  {
    var s := Run(events);
    EveryRunIsSound(events);
    Conservation(events);
    var l, t := ChannelsOf(s.logs.channels), ChannelsOf(s.traces.channels);
    ChannelsOfSize(s.logs.channels);
    ChannelsOfSize(s.traces.channels);
    assert s.disposed !! l && s.disposed !! t && l !! t;
    assert |s.disposed + l + t| == |s.disposed| + |l| + |t|;
    FullSet(s.total, s.disposed + l + t);
  }

  /** The close of some registered channel fails. */
  ghost predicate CloseFails(s: State, failing: set<nat>)
  {
    exists c :: c in failing && (c in ChannelsOf(s.logs.channels) || c in ChannelsOf(s.traces.channels))
  }

  /**
   After shutdown every channel the run ever opened has been disposed, exactly when no fault lost one and no
   registered channel fails to close, in whatever order the dictionaries list their channels.
   */
  lemma ShutdownDisposesAllIff(events: seq<Event>, logs: seq<nat>, traces: seq<nat>, failing: set<nat>)
    requires Lists(logs, Run(events).logs.channels) && Lists(traces, Run(events).traces.channels)
    ensures EveryChannelDisposed(Shutdown(Run(events), logs, traces, failing))
            <==> RunLoses(events) == 0 && !CloseFails(Run(events), failing)
  {
    var s := Run(events);
    CleanShutdownIff(events);
    if CloseFails(s, failing) {
      FailingCloseLeaves(events, logs, traces, failing);
    } else {
      CleanCloseDisposes(s, logs, traces, failing);
    }
  }

  lemma FailingCloseLeaves(events: seq<Event>, logs: seq<nat>, traces: seq<nat>, failing: set<nat>)
    requires Lists(logs, Run(events).logs.channels) && Lists(traces, Run(events).traces.channels)
    requires CloseFails(Run(events), failing)
    ensures !EveryChannelDisposed(Shutdown(Run(events), logs, traces, failing))
  {
    var s := Run(events);
    var c :| c in failing && (c in ChannelsOf(s.logs.channels) || c in ChannelsOf(s.traces.channels));
    RegisteredIsOpen(events, c);
    CloseAllCloses(s.disposed, logs + traces, failing);
    assert c !in Shutdown(s, logs, traces, failing).disposed;
  }

  lemma CleanCloseDisposes(s: State, logs: seq<nat>, traces: seq<nat>, failing: set<nat>)
    requires Lists(logs, s.logs.channels) && Lists(traces, s.traces.channels) && !CloseFails(s, failing)
    ensures Shutdown(s, logs, traces, failing).disposed
            == s.disposed + ChannelsOf(s.logs.channels) + ChannelsOf(s.traces.channels)
  {
    CloseAllCloses(s.disposed, logs + traces, failing);
    forall c | c in logs + traces ensures c !in failing { assert c in logs || c in traces; }
    forall c ensures c in logs + traces <==> c in ChannelsOf(s.logs.channels) || c in ChannelsOf(s.traces.channels) {
      assert c in logs <==> c in ChannelsOf(s.logs.channels);
    }
  }

  lemma {:induction false} RegisteredIsOpen(events: seq<Event>, c: nat)
    requires var s := Run(events); c in ChannelsOf(s.logs.channels) || c in ChannelsOf(s.traces.channels)
    ensures c < Run(events).total && c !in Run(events).disposed
  {
    EveryRunIsSound(events);
  }

  // ----- Shutdowns that leave a channel -----

  function Add(logsFault: Option<BrokerCall>): Event
  {
    Message(Some(Update("add", "s")), logsFault, None, StopCourse(true, false), StopCourse(true, false))
  }

  lemma {:induction false} AfterAdd(logsFault: Option<BrokerCall>)
    ensures Run([Add(logsFault)]) == StartBoth(INITIAL, "s", logsFault, None)
    ensures RunLoses([Add(logsFault)]) == StartLoses(INITIAL, "s", true, logsFault)
  {
    assert [Add(logsFault)][..0] == [];
    assert 's' in "s" && !Strings.IsBlank("s");
  }

  /** A consumer that fails at binding its queue leaves its channel open for good. */
  lemma FailedBindIsNeverDisposed(logs: seq<nat>, traces: seq<nat>, failing: set<nat>)
    requires var s := Run([Add(Some(BindQueue))]); Lists(logs, s.logs.channels) && Lists(traces, s.traces.channels)
    ensures !EveryChannelDisposed(Shutdown(Run([Add(Some(BindQueue))]), logs, traces, failing))
  {
    AfterAdd(Some(BindQueue));
    ShutdownDisposesAllIff([Add(Some(BindQueue))], logs, traces, failing);
  }

  /** A log channel that fails to close keeps the trace channel from being disposed. */
  lemma FailedCloseSkipsTheRest()
    ensures var s := Run([Add(None)]);
            && Lists([0], s.logs.channels) && Lists([1], s.traces.channels)
            && Shutdown(s, [0], [1], {0}).disposed == {}
  {
    AfterAdd(None);
    assert [0] + [1] == [0, 1];
  }
}
