/**
 Conservation of references along the dial path: in every interleaving the counts of all leases, evicted
 ones included, add up to the dials in flight and the wrapped connections not yet closed, and nothing
 leaks: when every stream has ended, every count is zero.
 */
module Accounting {
  import opened Wrappers
  import opened LeaseTable
  import opened Pool
  import opened RefCounts
  import opened Selector
  import opened Username
  import opened PickProgram
  import opened Interleaving

  /** The real handle a stream is responsible for: none while picking, nor for the no-op handle. */
  function HandleOf(x: Stream): Option<nat> {
    match x.phase
    case Dialing(_, Ref(h)) => Some(h)
    case Wrapped(_, Ref(h), _) => Some(h)
    case _ => None
  }

  function Held(streams: map<nat, Stream>): map<nat, nat> {
    map id | id in streams && HandleOf(streams[id]).Some? :: HandleOf(streams[id]).value
  }

  function OpenAll(t: Table): set<nat> {
    set h: nat | h < |t.handles| && !t.handles[h].closed
  }

  ghost predicate Injective(m: map<nat, nat>) {
    forall a, b :: a in m && b in m && m[a] == m[b] ==> a == b
  }

  /** The streams' handles are exactly the open ones, each with one owner. */
  ghost predicate Accounted(s: State) {
    && Okay(s) && Counted(s.shared.table)
    && Injective(Held(s.streams)) && Held(s.streams).Values == OpenAll(s.shared.table)
  }

  lemma {:induction false} InjectiveSize(m: map<nat, nat>)
    requires Injective(m)
    ensures |m.Values| == |m|
    decreases |m|
  {
    if m.Keys == {} {
      assert m == map[] && m.Values == {};
    } else {
      var a :| a in m;
      var rest := m - {a};
      InjectiveSize(rest);
      assert m.Keys == rest.Keys + {a};
      assert m.Values == rest.Values + {m[a]};
      assert |m| == |m.Keys| && |rest| == |rest.Keys|;
    }
  }

  lemma ValuesAdd(m: map<nat, nat>, id: nat, h: nat)
    requires id !in m
    ensures m[id := h].Values == m.Values + {h}
  {
    var m' := m[id := h];
    forall x | x in m.Values ensures x in m'.Values {
      var a :| a in m && m[a] == x;
      assert m'[a] == x;
    }
    assert m'[id] == h;
  }

  lemma ValuesRemove(m: map<nat, nat>, id: nat)
    requires Injective(m) && id in m
    ensures (m - {id}).Values == m.Values - {m[id]}
  {
    var m' := m - {id};
    forall x | x in m.Values && x != m[id] ensures x in m'.Values {
      var a :| a in m && m[a] == x;
      assert m'[a] == x;
    }
  }

  // ---------------------------------------------------------------- the three ways handles move

  lemma Unmoved(s: State, s': State)
    requires Accounted(s) && Okay(s')
    requires Counted(s'.shared.table) && s'.shared.table.handles == s.shared.table.handles
    requires Held(s'.streams) == Held(s.streams)
    ensures Accounted(s')
  {
    hide Okay, Counted, HandleOf;
    assert OpenAll(s'.shared.table) == OpenAll(s.shared.table);
  }

  lemma HandedOut(s: State, s': State, id: nat, i: nat)
    requires Accounted(s) && Okay(s') && Counted(s'.shared.table)
    requires s'.shared.table.handles == s.shared.table.handles + [HandleState(i, false)]
    requires id !in Held(s.streams) && Held(s'.streams) == Held(s.streams)[id := |s.shared.table.handles|]
    ensures Accounted(s')
  {
    hide Okay, Counted, HandleOf;
    var h := |s.shared.table.handles|;
    var m, m' := Held(s.streams), Held(s'.streams);
    assert h !in m.Values;
    assert OpenAll(s'.shared.table) == OpenAll(s.shared.table) + {h};
    ValuesAdd(m, id, h);
  }

  lemma Returned(s: State, s': State, id: nat)
    requires Accounted(s) && Okay(s') && Counted(s'.shared.table)
    requires id in Held(s.streams) && Held(s'.streams) == Held(s.streams) - {id}
    requires Held(s.streams)[id] < |s.shared.table.handles|
    requires var h := Held(s.streams)[id];
             s'.shared.table.handles == s.shared.table.handles[h := HandleState(s.shared.table.handles[h].lease, true)]
    ensures Accounted(s')
  {
    hide Okay, Counted, HandleOf;
    var m, m' := Held(s.streams), Held(s'.streams);
    var h := m[id];
    assert OpenAll(s'.shared.table) == OpenAll(s.shared.table) - {h};
    ValuesRemove(m, id);
  }

  // ---------------------------------------------------------------- one event

  /** A stream's own step changes nobody else's handle. */
  lemma HeldUpdate(streams: map<nat, Stream>, id: nat, x: Stream)
    ensures Held(streams[id := x]) == if HandleOf(x).Some? then Held(streams)[id := HandleOf(x).value] else Held(streams) - {id}
  {
  }

  lemma StepHeld(s: State, e: Event)
    requires Accounted(s) && Enabled(s, e) && e.action.Step?
    ensures var id, s' := e.action.id, Apply(s, e);
            && id !in Held(s.streams) && id in s'.streams
            && Held(s'.streams) == match HandleOf(s'.streams[id])
                                   case Some(h) => Held(s.streams)[id := h]
                                   case None => Held(s.streams)
  {
    hide Advance, Counted, Consistent, Injective, SharedAfter, EvictedAfter;
    HeldUpdate(s.streams, e.action.id, Apply(s, e).streams[e.action.id]);
    assert Held(s.streams) - {e.action.id} == Held(s.streams);
  }

  /** The sticky path hands out one more reference. */
  lemma ReferenceAccounted(s: State, e: Event)
    requires Accounted(s) && Enabled(s, e) && e.action.Step?
    requires var p := s.streams[e.action.id].phase.pick; p.Referencing? && Live(s.shared.table, p.lease)
    ensures Accounted(Apply(s, e))
  {
    OkayPreserved(s, e);
    StepHeld(s, e);
    var p := s.streams[e.action.id].phase.pick;
    CountedAcquireRef(s.shared.table, p.lease);
    HandedOut(s, Apply(s, e), e.action.id, p.lease);
  }

  /** A granted Acquire hands out the new lease's first reference. */
  lemma GrantAccounted(s: State, e: Event)
    requires Accounted(s) && Grants(s, e)
    ensures Accounted(Apply(s, e))
  {
    OkayPreserved(s, e);
    StepHeld(s, e);
    var p, t := s.streams[e.action.id].phase.pick, s.shared.table;
    CountedAcquire(t, p.tok.UserKey(), p.device, p.tok.country, p.tok.duration, e.now, e.later);
    HandedOut(s, Apply(s, e), e.action.id, |t.leases|);
  }

  lemma StepAccounted(s: State, e: Event)
    requires Accounted(s) && Enabled(s, e) && e.action.Step?
    ensures Accounted(Apply(s, e))
  {
    var t, p := s.shared.table, s.streams[e.action.id].phase.pick;
    if p.Referencing? && Live(t, p.lease) {
      ReferenceAccounted(s, e);
    } else if p.Acquiring? && !Taken(t, p.tok.UserKey(), p.device, e.now) {
      GrantAccounted(s, e);
    } else {
      OkayPreserved(s, e);
      StepHeld(s, e);
      assert Fits(t, s.streams[e.action.id]);
      StepHandsNothing(s, p, e);
      CountedByIndexOnly(t, Apply(s, e).shared.table);
      Unmoved(s, Apply(s, e));
    }
  }

  lemma StepHandsNothing(s: State, p: Pick, e: Event)
    requires Okay(s) && Consistent(s.shared.table) && Sound(s.shared.table, p) && !Over(p)
    requires !(p.Referencing? && Live(s.shared.table, p.lease))
    requires !(p.Acquiring? && !Taken(s.shared.table, p.tok.UserKey(), p.device, e.now))
    ensures var (sh, p') := Advance(s.sel, s.shared, p, e.now, e.later);
            && sh.table.leases == s.shared.table.leases && sh.table.handles == s.shared.table.handles
            && HandleOf(Stream("", Settle(p'))).None?
  {
    hide Consistent, Okay, Parse, Choice, SnapshotSet, Taken, Acquire;
  }

  lemma ReleaseAccounted(s: State, e: Event)
    requires Accounted(s) && Enabled(s, e) && (e.action.DialFails? || e.action.ReleaseLease?)
    ensures Accounted(Apply(s, e))
  {
    OkayPreserved(s, e);
    var s', t, id, h := Apply(s, e), s.shared.table, e.action.id, Released(s, e);
    assert Fits(t, s.streams[id]);
    CountedClose(t, h);
    HeldUpdate(s.streams, id, s'.streams[id]);
    if h.Ref? {
      assert Held(s.streams)[id] == h.id && h.id in Held(s.streams).Values;
      assert h.id in OpenAll(t);
      Returned(s, s', id);
    } else {
      assert Held(s.streams) - {id} == Held(s.streams);
      Unmoved(s, s');
    }
  }

  lemma EventAccounted(s: State, e: Event)
    requires Accounted(s) && Enabled(s, e)
    ensures Accounted(Apply(s, e))
  {
    if e.action.Step? {
      StepAccounted(s, e);
    } else if e.action.DialFails? || e.action.ReleaseLease? {
      ReleaseAccounted(s, e);
    } else {
      OkayPreserved(s, e);
      CountedByIndexOnly(s.shared.table, SharedAfter(s, e).table);
      assert Held(Apply(s, e).streams) == Held(s.streams);
      Unmoved(s, Apply(s, e));
    }
  }

  lemma InitialAccounted(s: State)
    requires Initial(s)
    ensures Accounted(s)
  {
    CountedInitially();
    assert Held(s.streams) == map[] && OpenAll(EMPTY) == {};
  }

  lemma {:induction false} AccountedAlways(r: Run, k: nat)
    requires IsRun(r) && k < |r.states|
    ensures Accounted(r.states[k])
    decreases k
  {
    hide IsRun, Okay, Enabled, Apply, Accounted;
    if k == 0 {
      RunStart(r);
      InitialAccounted(r.states[0]);
    } else {
      AccountedAlways(r, k - 1);
      var s, e := RunStep(r, k);
      EventAccounted(s, e);
    }
  }

  // ---------------------------------------------------------------- conservation

  /** In every interleaving, each lease's count is the number of its open handles, evicted or not. */
  lemma RefcountExact(r: Run, k: nat, i: nat)
    requires IsRun(r) && k < |r.states| && i < |r.states[k].shared.table.leases|
    ensures r.states[k].shared.table.leases[i].refcount == |OpenHandles(r.states[k].shared.table, i)|
  {
    AccountedAlways(r, k);
  }

  /** The streams in a dial, or with a wrapped connection not yet closed, that have a real handle. */
  function InUse(s: State): set<nat> {
    set id | id in s.streams && (s.streams[id].phase.Dialing? || s.streams[id].phase.Wrapped?)
             && s.streams[id].phase.handle.Ref?
  }

  /** The counts add up to the dials in flight and the connections not yet closed. */
  lemma RefcountsConserved(r: Run, k: nat)
    requires IsRun(r) && k < |r.states|
    ensures Total(r.states[k].shared.table.leases) == |InUse(r.states[k])|
  {
    AccountedAlways(r, k);
    var s := r.states[k];
    var t := s.shared.table;
    TotalIsOpen(t, |t.leases|);
    assert t.leases[..|t.leases|] == t.leases;
    assert OpenBelow(t, |t.leases|) == OpenAll(t);
    InjectiveSize(Held(s.streams));
    assert Held(s.streams).Keys == InUse(s);
    assert |Held(s.streams)| == |Held(s.streams).Keys|;
  }

  /** Nothing leaks: once no stream is dialing or connected, every count is zero. */
  lemma AllReleased(r: Run, k: nat, i: nat)
    requires IsRun(r) && k < |r.states| && i < |r.states[k].shared.table.leases|
    requires forall id :: id in r.states[k].streams ==>
               !r.states[k].streams[id].phase.Dialing? && !r.states[k].streams[id].phase.Wrapped?
    ensures r.states[k].shared.table.leases[i].refcount == 0
  {
    AccountedAlways(r, k);
    var s := r.states[k];
    assert Held(s.streams) == map[];
    forall h ensures h !in OpenHandles(s.shared.table, i) { assert h !in OpenAll(s.shared.table); }
    assert OpenHandles(s.shared.table, i) == {};
  }

  /** Whoever releases a handle finds it open and leaves it closed. */
  lemma ReleaseCloses(s: State, e: Event)
    requires Accounted(s) && Enabled(s, e) && Released(s, e).Ref?
    ensures var h := Released(s, e).id;
            && h < |s.shared.table.handles| && !s.shared.table.handles[h].closed
            && h < |Apply(s, e).shared.table.handles| && Apply(s, e).shared.table.handles[h].closed
  {
    var id, h := e.action.id, Released(s, e).id;
    assert Fits(s.shared.table, s.streams[id]);
    assert Held(s.streams)[id] == h && h in Held(s.streams).Values;
  }

  lemma {:induction false} ClosedForGood(r: Run, j: nat, k: nat, h: nat)
    requires IsRun(r) && j <= k < |r.states| && h < |r.states[j].shared.table.handles|
    requires r.states[j].shared.table.handles[h].closed
    ensures h < |r.states[k].shared.table.handles| && r.states[k].shared.table.handles[h].closed
    decreases k
  {
    hide IsRun, Okay, Enabled, StreamsAfter, SharedAfter, EvictedAfter;
    if j < k {
      ClosedForGood(r, j, k - 1, h);
      var s, e := RunStep(r, k);
      TableGrows(s, e);
    }
  }

  /** The event at k lets go of handle h: a failed dial, or the end of a wrapped connection. */
  ghost predicate ReleasesAt(r: Run, k: int, h: nat) {
    0 <= k < |r.events| && k < |r.states| && Enabled(r.states[k], r.events[k]) && Released(r.states[k], r.events[k]) == Ref(h)
  }

  /**
   No handle is ever released twice: however often, and however interleaved, connections are closed, at most
   one event of a run releases a given handle.
   */
  lemma ReleasedOnce(r: Run, j: nat, k: nat, h: nat)
    requires IsRun(r) && ReleasesAt(r, j, h) && ReleasesAt(r, k, h)
    ensures j == k
  {
    if j < k { NotReleasedAgain(r, j, k, h); }
    if k < j { NotReleasedAgain(r, k, j, h); }
  }

  lemma NotReleasedAgain(r: Run, j: nat, k: nat, h: nat)
    requires IsRun(r) && j < k && ReleasesAt(r, j, h)
    ensures !ReleasesAt(r, k, h)
  {
    hide IsRun, Okay, Enabled, Accounted, Apply, Released;
    RunStart(r);
    AccountedAlways(r, j);
    var s, e := RunStep(r, j + 1);
    ReleaseCloses(s, e);
    if ReleasesAt(r, k, h) {
      ClosedForGood(r, j + 1, k, h);
      AccountedAlways(r, k);
      ReleaseCloses(r.states[k], r.events[k]);
    }
  }
}
