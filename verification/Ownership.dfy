/**
 What the exclusivity of leases means for streams: in every interleaving, a stream that dials or is
 connected with a real handle holds a lease of its own user on the very device it is connected through.
 */
module Ownership {
  import opened LeaseTable
  import opened Pool
  import opened Selector
  import opened Username
  import opened PickProgram
  import opened Interleaving
  import opened Exclusivity

  /** The lease behind a real handle is this user's, on this device. */
  predicate LeasedTo(t: Table, h: Handle, userKey: string, device: string) {
    h.Ref? ==>
      && h.id < |t.handles| && t.handles[h.id].lease < |t.leases|
      && t.leases[t.handles[h.id].lease].userKey == userKey && t.leases[t.handles[h.id].lease].deviceID == device
  }

  predicate Owns(t: Table, x: Stream) {
    match x.phase
    case Picking(Referencing(tok, i)) => i < |t.leases| && t.leases[i].userKey == tok.UserKey()
    case Dialing(device, h) => Parse(x.username).Ok? && LeasedTo(t, h, Parse(x.username).value.UserKey(), device)
    case Wrapped(device, h, _) => Parse(x.username).Ok? && LeasedTo(t, h, Parse(x.username).value.UserKey(), device)
    case _ => true
  }

  ghost predicate AllOwn(s: State) {
    forall id :: id in s.streams ==> Owns(s.shared.table, s.streams[id])
  }

  /** A step leaves its stream with a handle on its own user's lease. */
  lemma StepOwns(sel: ScoredSelector, s: Shared, x: Stream, now: int, later: int)
    requires Consistent(s.table) && Fits(s.table, x) && x.phase.Picking? && Owns(s.table, x)
    ensures var (s', p') := Advance(sel, s, x.phase.pick, now, later);
            Owns(s'.table, x.(phase := Settle(p')))
  {
    hide Consistent, Parse, Choice, SnapshotSet, HeldDeviceIDs, Taken, Acquire;
  }

  lemma OwnsLater(t: Table, t': Table, x: Stream)
    requires Owns(t, x) && Grows(t, t')
    requires forall i: nat :: i < |t.leases| ==> SameLease(t.leases[i], t'.leases[i])
    ensures Owns(t', x)
  {
    hide Parse;
  }

  lemma SameLeases(s: State, e: Event)
    requires Okay(s) && Enabled(s, e)
    ensures Grows(s.shared.table, SharedAfter(s, e).table)
    ensures forall i: nat :: i < |s.shared.table.leases| ==> SameLease(s.shared.table.leases[i], SharedAfter(s, e).table.leases[i])
  {
    TableGrows(s, e);
    Effect(s, e);
  }

  lemma EventKeepsOwners(s: State, e: Event)
    requires Okay(s) && Enabled(s, e) && AllOwn(s)
    ensures AllOwn(Apply(s, e))
  {
    hide Consistent, Parse, Advance;
    SameLeases(s, e);
    forall id | id in Apply(s, e).streams ensures Owns(Apply(s, e).shared.table, Apply(s, e).streams[id]) {
      if id in s.streams {
        OwnsLater(s.shared.table, SharedAfter(s, e).table, s.streams[id]);
        if e.action.Step? && e.action.id == id {
          assert Fits(s.shared.table, s.streams[id]);
          StepOwns(s.sel, s.shared, s.streams[id], e.now, e.later);
        }
      }
    }
  }

  lemma {:induction false} OwnedAlways(r: Run, k: nat)
    requires IsRun(r) && k < |r.states|
    ensures AllOwn(r.states[k])
    decreases k
  {
    hide IsRun, Okay, Enabled, Apply, AllOwn;
    if k == 0 {
      NobodyAtFirst(r);
    } else {
      OwnedAlways(r, k - 1);
      var s, e := RunStep(r, k);
      EventKeepsOwners(s, e);
    }
  }

  lemma NobodyAtFirst(r: Run)
    requires IsRun(r)
    ensures AllOwn(r.states[0])
  {
    RunStart(r);
  }

  /** A stream that dials or is connected, with a real handle. */
  predicate Connected(x: Stream) {
    (x.phase.Dialing? || x.phase.Wrapped?) && x.phase.handle.Ref?
  }

  /** In every run, the lease a connected stream holds is one of its own user on its own device. */
  lemma ConnectedByOwnLease(r: Run, k: nat, id: nat) returns (i: nat)
    requires IsRun(r) && k < |r.states| && id in r.states[k].streams && Connected(r.states[k].streams[id])
    ensures var x, t := r.states[k].streams[id], r.states[k].shared.table;
            && x.phase.handle.id < |t.handles| && t.handles[x.phase.handle.id].lease == i && i < |t.leases|
            && Parse(x.username).Ok? && t.leases[i].userKey == Parse(x.username).value.UserKey()
            && t.leases[i].deviceID == x.phase.device
  {
    hide IsRun, Parse;
    OwnedAlways(r, k);
    assert Owns(r.states[k].shared.table, r.states[k].streams[id]);
    i := r.states[k].shared.table.handles[r.states[k].streams[id].phase.handle.id].lease;
  }

  /**
   So two streams of different users that are connected through one device never have their leases in force
   at the same time.
   */
  lemma StreamsExclusive(r: Run, k: nat, id: nat, id': nat, at: int) returns (i: nat, j: nat)
    requires IsRun(r) && k < |r.states| && id in r.states[k].streams && id' in r.states[k].streams
    requires Connected(r.states[k].streams[id]) && Connected(r.states[k].streams[id'])
    requires r.states[k].streams[id].phase.device == r.states[k].streams[id'].phase.device
    requires Parse(r.states[k].streams[id].username).Ok? && Parse(r.states[k].streams[id'].username).Ok?
    requires Parse(r.states[k].streams[id].username).value.UserKey() != Parse(r.states[k].streams[id'].username).value.UserKey()
    ensures var s := r.states[k];
            && s.streams[id].phase.handle.id < |s.shared.table.handles| && s.streams[id'].phase.handle.id < |s.shared.table.handles|
            && i == s.shared.table.handles[s.streams[id].phase.handle.id].lease
            && j == s.shared.table.handles[s.streams[id'].phase.handle.id].lease
    ensures i != j && !(Holds(r.states[k], i, at) && Holds(r.states[k], j, at))
  {
    hide IsRun, Parse, Holds;
    i := ConnectedByOwnLease(r, k, id);
    j := ConnectedByOwnLease(r, k, id');
    LifetimesDisjoint(r, k, i, j, at);
  }
}
