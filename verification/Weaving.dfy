/**
 The method and the transition system are about the same thing: the steps that one stream makes in a run
 are a trace of `Scheduler.Pick`, and a trace of `Scheduler.Pick` with interference made of events is a run.
 */
module Weaving {
  import opened LeaseTable
  import opened Selector
  import opened PickProgram
  import opened Interleaving
  import opened Retry
  import S = Scheduler

  /** Turn x is the event at k, a step of stream id. */
  ghost predicate IsEvent(r: Run, k: nat, id: nat, x: S.Turn) {
    && StepsFrom(r, k, id, x.from) && k + 1 < |r.states|
    && x.before == r.states[k].shared && x.after == r.states[k + 1].shared
    && x.now == r.events[k].now && x.later == r.events[k].later
  }

  /** The turns are the events at these places, in order, all of them from place j and before place k. */
  ghost predicate AreEvents(r: Run, id: nat, trace: seq<S.Turn>, places: seq<nat>, j: nat, k: nat) {
    && |places| == |trace|
    && (forall n :: 0 <= n < |trace| ==> j <= places[n] < k && IsEvent(r, places[n], id, trace[n]))
    && (forall m, n :: 0 <= m < n < |places| ==> places[m] < places[n])
  }

  lemma PickingBefore(s: State, e: Event, id: nat)
    requires Okay(s) && Enabled(s, e) && id in s.streams && id in Apply(s, e).streams && Apply(s, e).streams[id].phase.Picking?
    ensures s.streams[id].phase.Picking? && (Concerns(e, id) ==> e.action == Step(id))
  {
    hide Okay, SharedAfter, EvictedAfter, Advance;
  }

  lemma StreamKept(s: State, e: Event, id: nat)
    requires Okay(s) && Enabled(s, e) && id in s.streams
    ensures id in Apply(s, e).streams && Apply(s, e).sel == s.sel && s.clock <= e.now <= e.later == Apply(s, e).clock
  {
    hide Okay, SharedAfter, EvictedAfter, Advance;
  }

  lemma {:induction false} StreamStays(r: Run, j: nat, k: nat, id: nat)
    requires IsRun(r) && j <= k < |r.states| && id in r.states[j].streams
    ensures id in r.states[k].streams && r.states[k].sel == r.states[j].sel
    decreases k
  {
    hide IsRun, Okay, Enabled, Apply;
    if j < k {
      StreamStays(r, j, k - 1, id);
      var s, e := RunStep(r, k);
      StreamKept(s, e, id);
    }
  }

  /** The step that the event at k is, as a turn. */
  lemma TurnAtEvent(r: Run, k: nat, id: nat, p: Pick) returns (x: S.Turn)
    requires IsRun(r) && StepsFrom(r, k, id, p)
    ensures IsEvent(r, k, id, x) && x.from == p && S.IsStep(r.states[k].sel, x)
    ensures id in r.states[k + 1].streams && r.states[k + 1].streams[id].phase == Settle(x.to)
    ensures r.states[k].clock <= x.now && x.later == r.states[k + 1].clock
  {
    hide IsRun, Okay, Consistent, Advance;
    StepTaken(r, k, id, p);
    var s, e := r.states[k], r.events[k];
    x := S.Turn(s.shared, p, e.now, e.later, r.states[k + 1].shared, Advance(s.sel, s.shared, p, e.now, e.later).1);
  }

  lemma OneMoreEvent(r: Run, id: nat, trace: seq<S.Turn>, places: seq<nat>, j: nat, k: nat, x: S.Turn)
    requires AreEvents(r, id, trace, places, j, k) && j <= k && IsEvent(r, k, id, x)
    ensures AreEvents(r, id, trace + [x], places + [k], j, k + 1)
  {
    hide IsEvent;
  }

  lemma LaterPlace(r: Run, id: nat, trace: seq<S.Turn>, places: seq<nat>, j: nat, k: nat)
    requires AreEvents(r, id, trace, places, j, k)
    ensures AreEvents(r, id, trace, places, j, k + 1)
  {
    hide IsEvent;
  }

  /** Every step of the stream in this stretch is among the places. */
  ghost predicate Complete(r: Run, id: nat, places: seq<nat>, j: nat, k: nat) {
    forall m: nat :: j <= m < k && m < |r.events| && r.events[m].action == Step(id) ==> m in places
  }

  lemma CompleteNext(r: Run, id: nat, places: seq<nat>, j: nat, k: nat)
    requires Complete(r, id, places, j, k) && k < |r.events|
    ensures r.events[k].action != Step(id) ==> Complete(r, id, places, j, k + 1)
    ensures Complete(r, id, places + [k], j, k + 1)
  {
    assert (places + [k])[|places|] == k && forall m :: m in places ==> m in places + [k];
  }

  /** In every run, the steps that a stream has made since some point of its Pick are a trace, from there to here. */
  lemma {:induction false} RunIsTrace(r: Run, j: nat, k: nat, id: nat, first: Pick)
    returns (trace: seq<S.Turn>, places: seq<nat>, p: Pick)
    requires IsRun(r) && j <= k < |r.states|
    requires id in r.states[j].streams && r.states[j].streams[id].phase == Picking(first)
    requires id in r.states[k].streams && r.states[k].streams[id].phase.Picking?
    ensures r.states[k].streams[id].phase == Picking(p)
    ensures S.Traces(r.states[j].sel, trace, first, p, r.states[j].clock, r.states[k].clock)
    ensures AreEvents(r, id, trace, places, j, k) && Complete(r, id, places, j, k)
    decreases k
  {
    hide IsRun, Okay, Enabled, Apply, Concerns, S.Traces, IsEvent, AreEvents, Complete;
    p := r.states[k].streams[id].phase.pick;
    if j == k {
      trace, places := [], [];
      NothingYet(r, j, id, first);
    } else {
      var s, e := RunStep(r, k);
      StreamStays(r, j, k - 1, id);
      PickingBefore(s, e, id);
      StreamKept(s, e, id);
      var q;
      trace, places, q := RunIsTrace(r, j, k - 1, id, first);
      CompleteNext(r, id, places, j, k - 1);
      if e.action == Step(id) {
        var x := TurnAtEvent(r, k - 1, id, q);
        SettledPicking(x.to, p);
        S.TraceExtended(s.sel, trace, first, r.states[j].clock, s.clock, x);
        OneMoreEvent(r, id, trace, places, j, k - 1, x);
        trace, places := trace + [x], places + [k - 1];
      } else {
        OthersUntouched(s, e, id);
        S.TraceLater(s.sel, trace, first, q, r.states[j].clock, s.clock, r.states[k].clock);
        LaterPlace(r, id, trace, places, j, k - 1);
      }
    }
  }

  lemma NothingYet(r: Run, j: nat, id: nat, first: Pick)
    requires j < |r.states|
    ensures S.Traces(r.states[j].sel, [], first, first, r.states[j].clock, r.states[j].clock)
    ensures AreEvents(r, id, [], [], j, j) && Complete(r, id, [], j, j)
  {
  }

  lemma SettledPicking(p: Pick, q: Pick)
    ensures Settle(p) == Picking(q) ==> p == q
  {
  }

  /**
   So, in every run, all the steps a stream makes from the start of its Pick to its end are a trace of
   `Scheduler.Pick`, with the shared state before and after each as the run has it, and the stream goes on
   with what the trace ends with.
   */
  lemma PickIsTrace(r: Run, j: nat, b: nat, id: nat, first: Pick, q: Pick)
    returns (trace: seq<S.Turn>, places: seq<nat>, p: Pick)
    requires IsRun(r) && j <= b && j < |r.states| && id in r.states[j].streams
    requires r.states[j].streams[id].phase == Picking(first) && StepsFrom(r, b, id, q)
    ensures b + 1 < |r.states| && S.Traces(r.states[j].sel, trace, first, p, r.states[j].clock, r.states[b + 1].clock)
    ensures AreEvents(r, id, trace, places, j, b + 1) && Complete(r, id, places, j, b + 1)
    ensures S.EndsIn(trace, r.states[b + 1].shared)
    ensures id in r.states[b + 1].streams && r.states[b + 1].streams[id].phase == Settle(p)
  {
    hide IsRun, Okay, Enabled, Apply, S.Traces, IsEvent, AreEvents, Complete;
    RunStart(r);
    var last;
    trace, places, last := RunIsTrace(r, j, b, id, first);
    var x := TurnAtEvent(r, b, id, q);
    StreamStays(r, j, b, id);
    S.TraceExtended(r.states[j].sel, trace, first, r.states[j].clock, r.states[b].clock, x);
    OneMoreEvent(r, id, trace, places, j, b, x);
    CompleteNext(r, id, places, j, b);
    trace, places, p := trace + [x], places + [b], x.to;
    EventAfter(r, b, id, x);
  }

  lemma EventAfter(r: Run, k: nat, id: nat, x: S.Turn)
    requires IsEvent(r, k, id, x)
    ensures x.after == r.states[k + 1].shared
  {
  }

  // ---------------------------------------------------------------- the other way round

  /** What happens next: a step of the method, or an event of someone else. */
  datatype Item = Mine | Other(event: Event)

  /** The state after the method's turn x: what x says of the shared state and of the stream, and its history. */
  function Moved(s: State, id: nat, x: S.Turn): State
    requires id in s.streams
  {
    State(s.sel, x.later, x.after, s.streams[id := s.streams[id].(phase := Settle(x.to))],
          if |x.after.table.leases| > |s.created| then s.created + [x.later] else s.created,
          EvictedAfter(s.evicted, x.after.table, x.later))
  }

  /**
   The items can be played from s: every other event can happen and is not the stream's own, and each turn
   of the trace, in order, finds the shared state it starts from.
   */
  ghost predicate Playable(s: State, id: nat, items: seq<Item>, trace: seq<S.Turn>)
    decreases |items|
  {
    id in s.streams
    && if items == [] then trace == []
       else
         match items[0]
         case Other(e) => Okay(s) && Enabled(s, e) && !Concerns(e, id) && Playable(Apply(s, e), id, items[1..], trace)
         case Mine =>
           && trace != [] && s.shared == trace[0].before && s.clock <= trace[0].now
           && Playable(Moved(s, id, trace[0]), id, items[1..], trace[1..])
  }

  ghost function Played(s: State, id: nat, items: seq<Item>, trace: seq<S.Turn>): State
    requires Playable(s, id, items, trace)
    decreases |items|
  {
    if items == [] then s
    else
      match items[0]
      case Other(e) => Played(Apply(s, e), id, items[1..], trace)
      case Mine => Played(Moved(s, id, trace[0]), id, items[1..], trace[1..])
  }

  /** Steps that follow one another, from local state `first` on. */
  ghost predicate Chained(sel: ScoredSelector, trace: seq<S.Turn>, first: Pick) {
    && (forall k :: 0 <= k < |trace| ==> S.IsStep(sel, trace[k]))
    && (trace != [] ==> trace[0].from == first)
    && (forall k :: 0 <= k < |trace| - 1 ==> trace[k + 1].from == trace[k].to)
  }

  lemma EmptyTrace(sel: ScoredSelector, first: Pick, last: Pick, start: int, end: int)
    requires S.Traces(sel, [], first, last, start, end)
    ensures first == last
  {
  }

  lemma TraceChained(sel: ScoredSelector, trace: seq<S.Turn>, first: Pick, last: Pick, start: int, end: int)
    requires S.Traces(sel, trace, first, last, start, end)
    ensures Chained(sel, trace, first) && last == if trace == [] then first else trace[|trace| - 1].to
  {
    hide S.Traces, S.IsStep;
    forall k | 0 <= k < |trace| ensures S.IsStep(sel, trace[k]) { S.TurnAt(sel, trace, first, last, start, end, k); }
    forall k | 0 <= k < |trace| - 1 ensures trace[k + 1].from == trace[k].to {
      S.TurnAt(sel, trace, first, last, start, end, k + 1);
    }
    if trace == [] {
      EmptyTrace(sel, first, last, start, end);
    } else {
      S.TurnAt(sel, trace, first, last, start, end, 0);
    }
    if trace != [] { S.TurnAt(sel, trace, first, last, start, end, |trace| - 1); }
  }

  lemma ChainedRest(sel: ScoredSelector, trace: seq<S.Turn>, first: Pick)
    requires Chained(sel, trace, first) && trace != []
    ensures S.IsStep(sel, trace[0]) && trace[0].from == first && Chained(sel, trace[1..], trace[0].to)
  {
    var rest := trace[1..];
    forall k | 0 <= k < |rest| - 1 ensures rest[k + 1].from == rest[k].to { assert trace[k + 2].from == trace[k + 1].to; }
    if rest != [] { assert trace[0 + 1].from == trace[0].to; }
  }

  /** A turn that finds the shared state it starts from is an event of the system. */
  lemma TurnIsEvent(s: State, id: nat, x: S.Turn)
    requires Okay(s) && id in s.streams && s.streams[id].phase == Picking(x.from)
    requires S.IsStep(s.sel, x) && s.shared == x.before && s.clock <= x.now
    ensures Enabled(s, Event(x.now, x.later, Step(id))) && Apply(s, Event(x.now, x.later, Step(id))) == Moved(s, id, x)
  {
    hide Advance, Consistent;
  }

  lemma OtherLeaves(s: State, e: Event, id: nat)
    requires Okay(s) && Enabled(s, e) && id in s.streams && !Concerns(e, id)
    ensures id in Apply(s, e).streams && Apply(s, e).streams[id] == s.streams[id] && Apply(s, e).sel == s.sel
  {
    hide Okay, SharedAfter, EvictedAfter, Advance;
  }

  /** The run goes on with an event that can happen. */
  lemma GoOn(r: Run, e: Event) returns (r': Run)
    requires IsRun(r) && Enabled(r.states[|r.events|], e)
    ensures Okay(r.states[|r.events|]) && IsRun(r') && r' == Run(r.states + [Apply(r.states[|r.events|], e)], r.events + [e])
  {
    RunExtends(r, e);
    r' := Run(r.states + [Apply(r.states[|r.events|], e)], r.events + [e]);
  }

  /** Steps that follow one another, with the events of others in between, are played by a run. */
  lemma {:induction false} ChainIsRun(r: Run, id: nat, items: seq<Item>, trace: seq<S.Turn>, first: Pick) returns (r': Run)
    requires IsRun(r) && id in r.states[|r.events|].streams && r.states[|r.events|].streams[id].phase == Settle(first)
    requires Chained(r.states[|r.events|].sel, trace, first) && Playable(r.states[|r.events|], id, items, trace)
    ensures IsRun(r') && |r'.states| == |r'.events| + 1
    ensures r'.states[|r'.events|] == Played(r.states[|r.events|], id, items, trace)
    ensures id in r'.states[|r'.events|].streams
    ensures r'.states[|r'.events|].streams[id].phase == Settle(if trace == [] then first else trace[|trace| - 1].to)
    decreases |items|
  {
    hide IsRun, Okay, Enabled, Apply, Concerns, Chained, Moved, S.IsStep;
    RunStart(r);
    var s := r.states[|r.events|];
    if items == [] {
      r' := r;
    } else {
      match items[0]
      case Other(e) =>
        var r1 := GoOn(r, e);
        OtherLeaves(s, e, id);
        RunStart(r1);
        r' := ChainIsRun(r1, id, items[1..], trace, first);
      case Mine =>
        ChainedRest(s.sel, trace, first);
        StepPicking(s.sel, trace[0]);
        RunOkay(r, |r.events|);
        TurnIsEvent(s, id, trace[0]);
        var r1 := GoOn(r, Event(trace[0].now, trace[0].later, Step(id)));
        MovedTo(s, id, trace[0]);
        RunStart(r1);
        r' := ChainIsRun(r1, id, items[1..], trace[1..], trace[0].to);
    }
  }

  lemma StepPicking(sel: ScoredSelector, x: S.Turn)
    requires S.IsStep(sel, x)
    ensures Settle(x.from) == Picking(x.from)
  {
  }

  lemma MovedTo(s: State, id: nat, x: S.Turn)
    requires id in s.streams
    ensures id in Moved(s, id, x).streams && Moved(s, id, x).streams[id].phase == Settle(x.to) && Moved(s, id, x).sel == s.sel
  {
  }

  /**
   A trace of `Scheduler.Pick`, with any events of others in between that leave each of its steps the shared
   state it was found to start from, is played by a run of the system: the run ends in the state that the
   trace and the events lead to, and so the stream with what Pick ends with.
   */
  lemma TraceIsRun(r: Run, id: nat, items: seq<Item>, trace: seq<S.Turn>, first: Pick, last: Pick, start: int, end: int)
    returns (r': Run)
    requires IsRun(r) && id in r.states[|r.events|].streams && r.states[|r.events|].streams[id].phase == Picking(first)
    requires S.Traces(r.states[|r.events|].sel, trace, first, last, start, end) && trace != []
    requires Playable(r.states[|r.events|], id, items, trace)
    ensures IsRun(r') && |r'.states| == |r'.events| + 1
    ensures r'.states[|r'.events|] == Played(r.states[|r.events|], id, items, trace)
    ensures id in r'.states[|r'.events|].streams && r'.states[|r'.events|].streams[id].phase == Settle(last)
  {
    hide IsRun, Playable, Chained, S.Traces;
    RunStart(r);
    TraceChained(r.states[|r.events|].sel, trace, first, last, start, end);
    FirstPicking(r.states[|r.events|].sel, trace, first);
    r' := ChainIsRun(r, id, items, trace, first);
  }

  lemma FirstPicking(sel: ScoredSelector, trace: seq<S.Turn>, first: Pick)
    requires Chained(sel, trace, first) && trace != []
    ensures Settle(first) == Picking(first)
  {
  }
}
