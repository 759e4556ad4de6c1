/** A debounced function on an event loop whose timers go off on time. */
module Debounce {
  import opened Options

  /** What happens to a debounced function: it is called, it is cancelled, or time goes on by one unit. */
  datatype Input = Call(args: int) | Cancel | Tick

  datatype Timer = Timer(due: nat, args: int)

  datatype State = State(now: nat, timers: map<nat, Timer>, nextId: nat, timeoutId: Option<nat>, runs: seq<(nat, int)>)

  const INITIAL := State(0, map[], 1, None, [])

  /** A timer never goes off in the turn that sets it. */
  function Delay(ms: nat): nat { if ms == 0 then 1 else ms }

  function Clear(s: State): State
  {
    if s.timeoutId.Some? then s.(timers := s.timers - {s.timeoutId.value}) else s
  }

  /** The timers that are due, in the order they were set. */
  function Due(timers: map<nat, Timer>, now: nat, upTo: nat): seq<(nat, int)>
  {
    if upTo == 0 then []
    else
      var id := upTo - 1;
      Due(timers, now, id) + if id in timers && timers[id].due <= now then [(now, timers[id].args)] else []
  }

  function Step(s: State, ms: nat, x: Input): State
  {
    match x
    case Call(args) =>
      var c := Clear(s);
      c.(timers := c.timers[c.nextId := Timer(c.now + Delay(ms), args)],
         timeoutId := Some(c.nextId), nextId := c.nextId + 1)
    case Cancel => Clear(s).(timeoutId := None)
    case Tick =>
      var now := s.now + 1;
      s.(now := now, runs := s.runs + Due(s.timers, now, s.nextId),
         timers := map id | id in s.timers && s.timers[id].due > now :: s.timers[id])
  }

  function Run(inputs: seq<Input>, ms: nat): State
  {
    if inputs == [] then INITIAL else Step(Run(inputs[..|inputs| - 1], ms), ms, inputs[|inputs| - 1])
  }

  /** The debounced function and the loop it runs on. */
  class Debounced {
    const ms: nat
    var now: nat
    var timers: map<nat, Timer>
    var nextId: nat
    var timeoutId: Option<nat>
    var runs: seq<(nat, int)>

    ghost function Value(): State
      reads this
    {
      State(now, timers, nextId, timeoutId, runs)
    }

    constructor (ms: nat)
      ensures this.ms == ms && Value() == INITIAL
    {
      this.ms := ms;
      now, timers, nextId, timeoutId, runs := 0, map[], 1, None, [];
    }

    method SetTimeout(args: int) returns (id: nat)
      modifies this`timers, this`nextId
      ensures id == old(nextId) && nextId == id + 1
      ensures timers == old(timers)[id := Timer(now + Delay(ms), args)]
    {
      id := nextId;
      timers := timers[id := Timer(now + Delay(ms), args)];
      nextId := nextId + 1;
    }

    method ClearTimeout(id: nat)
      modifies this`timers
      ensures timers == old(timers) - {id}
    {
      timers := timers - {id};
    }

    method Call(args: int)
      modifies this
      ensures Value() == Step(old(Value()), ms, Input.Call(args))
    {
      if timeoutId.Some? {
        ClearTimeout(timeoutId.value);
      }
      var id := SetTimeout(args);
      timeoutId := Some(id);
    }

    method Cancel()
      modifies this
      ensures Value() == Step(old(Value()), ms, Input.Cancel)
    {
      if timeoutId.Some? {
        ClearTimeout(timeoutId.value);
        timeoutId := None;
      }
    }

    /** One unit of time: the timers that are due run and are forgotten. */
    method Tick()
      modifies this
      ensures Value() == Step(old(Value()), ms, Input.Tick)
    {
      now := now + 1;
      for id := 0 to nextId
        invariant runs == old(runs) + Due(timers, now, id)
        invariant now == old(now) + 1 && timers == old(timers) && nextId == old(nextId) && timeoutId == old(timeoutId)
      {
        if id in timers && timers[id].due <= now {
          runs := runs + [(now, timers[id].args)];
        }
      }
      timers := map id | id in timers && timers[id].due > now :: timers[id];
    }
  }

  // ----- Whole runs -----

  /** The time at which an input of a run happens. */
  function TimeAt(inputs: seq<Input>, i: nat): nat
    requires i <= |inputs|
  {
    if i == 0 then 0 else TimeAt(inputs, i - 1) + if inputs[i - 1].Tick? then 1 else 0
  }

  /** The call at `i` is the last word before `t`, when its delay is over. */
  ghost predicate Fires(inputs: seq<Input>, ms: nat, i: nat, t: nat, args: int)
  {
    && i < |inputs| && inputs[i] == Call(args)
    && t == TimeAt(inputs, i) + Delay(ms) && t <= TimeAt(inputs, |inputs|)
    && forall j | i < j < |inputs| && !inputs[j].Tick? :: t <= TimeAt(inputs, j)
  }

  /** The call at `i` is the last word so far, and its delay is not over. */
  ghost predicate Waits(inputs: seq<Input>, ms: nat, i: nat, due: nat, args: int)
  {
    && i < |inputs| && inputs[i] == Call(args)
    && due == TimeAt(inputs, i) + Delay(ms) && due > TimeAt(inputs, |inputs|)
    && forall j | i < j < |inputs| :: inputs[j].Tick?
  }

  ghost predicate Fired(inputs: seq<Input>, ms: nat, t: nat, args: int)
  {
    exists i: nat :: Fires(inputs, ms, i, t, args)
  }

  ghost predicate Awaited(inputs: seq<Input>, ms: nat, due: nat, args: int)
  {
    exists i: nat :: Waits(inputs, ms, i, due, args)
  }

  predicate Pending(s: State, due: nat, args: int)
  {
    s.timeoutId.Some? && s.timeoutId.value in s.timers && s.timers[s.timeoutId.value] == Timer(due, args)
  }

  ghost predicate Inv(inputs: seq<Input>, ms: nat, s: State)
  {
    && s.now == TimeAt(inputs, |inputs|)
    && (forall id | id in s.timers :: s.timeoutId == Some(id) && id < s.nextId && s.timers[id].due > s.now)
    && (forall due: nat, args: int :: Pending(s, due, args) <==> Awaited(inputs, ms, due, args))
    && (forall t: nat, args: int :: (t, args) in s.runs <==> Fired(inputs, ms, t, args))
    && (forall k | 0 <= k < |s.runs| :: s.runs[k].0 <= s.now)
    && (forall k, l | 0 <= k < l < |s.runs| :: s.runs[k].0 < s.runs[l].0)
  }

  lemma {:induction false} TimeAtPrefix(inputs: seq<Input>, x: Input, i: nat)
    requires i <= |inputs|
    ensures TimeAt(inputs + [x], i) == TimeAt(inputs, i)
  {
    if i > 0 { TimeAtPrefix(inputs, x, i - 1); }
  }

  lemma {:induction false} TimeAtGrows(inputs: seq<Input>, i: nat, j: nat)
    requires i <= j <= |inputs|
    ensures TimeAt(inputs, i) <= TimeAt(inputs, j)
    decreases j
  {
    if i < j { TimeAtGrows(inputs, i, j - 1); }
  }

  lemma NextTime(inputs: seq<Input>, x: Input)
    ensures var more := inputs + [x];
            && TimeAt(more, |inputs|) == TimeAt(inputs, |inputs|)
            && TimeAt(more, |more|) == TimeAt(inputs, |inputs|) + (if x.Tick? then 1 else 0)
            && forall i | 0 <= i <= |inputs| :: TimeAt(more, i) == TimeAt(inputs, i)
  {
    var more := inputs + [x];
    forall i | 0 <= i <= |inputs| ensures TimeAt(more, i) == TimeAt(inputs, i) { TimeAtPrefix(inputs, x, i); }
    assert more[|more| - 1] == x;
  }

  /** A call or a cancel changes no past run; only a call waits after it. */
  lemma WordChanges(inputs: seq<Input>, ms: nat, x: Input)
    requires !x.Tick?
    ensures forall t: nat, args: int :: Fired(inputs + [x], ms, t, args) <==> Fired(inputs, ms, t, args)
    ensures forall due: nat, args: int :: Awaited(inputs + [x], ms, due, args)
              <==> x == Call(args) && due == TimeAt(inputs, |inputs|) + Delay(ms)
  {
    var more := inputs + [x];
    NextTime(inputs, x);
    forall i: nat, t: nat, args: int ensures Fires(more, ms, i, t, args) <==> Fires(inputs, ms, i, t, args) {
      WordChangesFires(inputs, ms, x, i, t, args);
    }
    forall due: nat, args: int
      ensures Awaited(more, ms, due, args) <==> x == Call(args) && due == TimeAt(inputs, |inputs|) + Delay(ms)
    {
      if x == Call(args) && due == TimeAt(inputs, |inputs|) + Delay(ms) {
        assert Waits(more, ms, |inputs|, due, args);
      }
      forall i: nat | Waits(more, ms, i, due, args) ensures i == |inputs| { assert more[|inputs|] == x; }
    }
  }

  lemma WordChangesFires(inputs: seq<Input>, ms: nat, x: Input, i: nat, t: nat, args: int)
    requires !x.Tick?
    ensures Fires(inputs + [x], ms, i, t, args) <==> Fires(inputs, ms, i, t, args)
  {
    var more := inputs + [x];
    NextTime(inputs, x);
    if Fires(inputs, ms, i, t, args) {
      forall j | i < j < |more| && !more[j].Tick? ensures t <= TimeAt(more, j) {
        if j < |inputs| { assert inputs[j] == more[j]; }
      }
    }
    if Fires(more, ms, i, t, args) {
      assert i != |inputs|;
      forall j | i < j < |inputs| && !inputs[j].Tick? ensures t <= TimeAt(inputs, j) { assert more[j] == inputs[j]; }
    }
  }

  /** A tick runs what waited for it, and nothing else. */
  lemma TickChanges(inputs: seq<Input>, ms: nat)
    ensures var now := TimeAt(inputs, |inputs|) + 1;
            && (forall t: nat, args: int :: Fired(inputs + [Tick], ms, t, args)
                  <==> Fired(inputs, ms, t, args) || (t == now && Awaited(inputs, ms, now, args)))
            && (forall due: nat, args: int :: Awaited(inputs + [Tick], ms, due, args)
                  <==> Awaited(inputs, ms, due, args) && due > now)
  {
    var more := inputs + [Tick];
    var now := TimeAt(inputs, |inputs|) + 1;
    forall i: nat, t: nat, args: int
      ensures Fires(more, ms, i, t, args)
              <==> Fires(inputs, ms, i, t, args) || (t == now && Waits(inputs, ms, i, t, args))
      ensures Waits(more, ms, i, t, args) <==> Waits(inputs, ms, i, t, args) && t > now
    {
      TickChangesFires(inputs, ms, i, t, args);
    }
  }

  lemma TickChangesFires(inputs: seq<Input>, ms: nat, i: nat, t: nat, args: int)
    ensures var now := TimeAt(inputs, |inputs|) + 1; var more := inputs + [Tick];
            && (Fires(more, ms, i, t, args)
                <==> Fires(inputs, ms, i, t, args) || (t == now && Waits(inputs, ms, i, t, args)))
            && (Waits(more, ms, i, t, args) <==> Waits(inputs, ms, i, t, args) && t > now)
  {
    var more := inputs + [Tick];
    NextTime(inputs, Tick);
    assert more[|inputs|] == Tick && forall j | 0 <= j < |inputs| :: more[j] == inputs[j];
    forall j | 0 <= j < |inputs| ensures TimeAt(inputs, j) <= TimeAt(inputs, |inputs|) {
      TimeAtGrows(inputs, j, |inputs|);
    }
  }

  lemma {:induction false} DueOne(timers: map<nat, Timer>, now: nat, upTo: nat, id: nat)
    requires timers.Keys <= {id}
    ensures Due(timers, now, upTo)
            == if id in timers && id < upTo && timers[id].due <= now then [(now, timers[id].args)] else []
  {
    if upTo > 0 { DueOne(timers, now, upTo - 1, id); }
  }

  lemma WordKeepsInv(inputs: seq<Input>, ms: nat, s: State, x: Input)
    requires Inv(inputs, ms, s) && !x.Tick?
    ensures Inv(inputs + [x], ms, Step(s, ms, x))
  {
    NextTime(inputs, x);
    WordChanges(inputs, ms, x);
    assert Clear(s).timers == map[];
  }

  lemma TickKeepsInv(inputs: seq<Input>, ms: nat, s: State)
    requires Inv(inputs, ms, s)
    ensures Inv(inputs + [Tick], ms, Step(s, ms, Tick))
  {
    NextTime(inputs, Tick);
    TickChanges(inputs, ms);
    DueOne(s.timers, s.now + 1, s.nextId, if s.timeoutId.Some? then s.timeoutId.value else 0);
    forall at: nat, args: int
      ensures (at, args) in Step(s, ms, Tick).runs <==> Fired(inputs + [Tick], ms, at, args)
      ensures Pending(Step(s, ms, Tick), at, args) <==> Awaited(inputs + [Tick], ms, at, args)
    {
      TickOfOne(inputs, ms, s, at, args);
    }
  }

  lemma TickOfOne(inputs: seq<Input>, ms: nat, s: State, at: nat, args: int)
    requires Inv(inputs, ms, s)
    ensures (at, args) in Step(s, ms, Tick).runs <==> Fired(inputs + [Tick], ms, at, args)
    ensures Pending(Step(s, ms, Tick), at, args) <==> Awaited(inputs + [Tick], ms, at, args)
  {
    TickChanges(inputs, ms);
    DueOne(s.timers, s.now + 1, s.nextId, if s.timeoutId.Some? then s.timeoutId.value else 0);
    assert Pending(s, at, args) <==> Awaited(inputs, ms, at, args);
    assert Pending(s, s.now + 1, args) <==> Awaited(inputs, ms, s.now + 1, args);
  }

  lemma {:induction false} RunKeepsInv(inputs: seq<Input>, ms: nat)
    ensures Inv(inputs, ms, Run(inputs, ms))
    decreases |inputs|
  {
    if inputs != [] {
      var before := inputs[..|inputs| - 1];
      RunKeepsInv(before, ms);
      assert before + [inputs[|inputs| - 1]] == inputs;
      if inputs[|inputs| - 1].Tick? {
        TickKeepsInv(before, ms, Run(before, ms));
      } else {
        WordKeepsInv(before, ms, Run(before, ms), inputs[|inputs| - 1]);
      }
    } else {
      assert forall i: nat, t: nat, args: int :: !Fires(inputs, ms, i, t, args) && !Waits(inputs, ms, i, t, args);
    }
  }

  /** Nothing is called or cancelled after the input at `i` and before `t`, which has come. */
  ghost predicate QuietUntil(inputs: seq<Input>, i: nat, t: nat)
    requires i < |inputs|
  {
    t <= TimeAt(inputs, |inputs|) && forall j | i < j < |inputs| && !inputs[j].Tick? :: t <= TimeAt(inputs, j)
  }

  /**
   Over any run: at most one timer is ever pending; the function runs at a time, with arguments, exactly when
   it was called with them `ms` earlier, or one unit for a delay of zero, and neither called again nor cancelled
   before that time; and it runs at most once at any time, in order.
   */
  lemma RunsExactlyAfterQuiet(inputs: seq<Input>, ms: nat)
    ensures var s := Run(inputs, ms);
            && (forall a, b | a in s.timers && b in s.timers :: a == b)
            && (forall t: nat, args: int :: (t, args) in s.runs <==>
                  exists i: nat :: i < |inputs| && inputs[i] == Call(args) && QuietUntil(inputs, i, t)
                                   && t == TimeAt(inputs, i) + if ms == 0 then 1 else ms)
            && (forall k, l | 0 <= k < l < |s.runs| :: s.runs[k].0 < s.runs[l].0)
  {
    RunKeepsInv(inputs, ms);
    forall t: nat, args: int
      ensures Fired(inputs, ms, t, args) <==>
              exists i: nat :: i < |inputs| && inputs[i] == Call(args) && QuietUntil(inputs, i, t)
                               && t == TimeAt(inputs, i) + if ms == 0 then 1 else ms
    {
      if i: nat :| i < |inputs| && inputs[i] == Call(args) && QuietUntil(inputs, i, t)
                   && t == TimeAt(inputs, i) + if ms == 0 then 1 else ms {
        assert Fires(inputs, ms, i, t, args);
      }
    }
  }
}
