/**
 Stickiness over whole runs: an unexpired lease is removed only by its own user's Acquire, so while its
 device stays online every Pick its user starts returns that device, whatever the scores, the country and
 the duration asked for, and however the other users, the sweeper and the heartbeats interleave.
 */
module Stickiness {
  import opened Wrappers
  import opened LeaseTable
  import opened Selector
  import opened Username
  import opened PickProgram
  import opened Pool
  import opened Interleaving
  import opened Exclusivity
  import opened Retry

  /** The event is a successful Acquire by the user with this key. */
  ghost predicate GrantsTo(s: State, e: Event, userKey: string) {
    Grants(s, e) && Grantee(s, e).0.UserKey() == userKey
  }

  /** An unexpired lease leaves the table only by its own user's Acquire; nothing else can remove it. */
  lemma RemovedOnlyByOwnUser(s: State, e: Event, i: nat)
    requires Okay(s) && Enabled(s, e) && Active(s.shared.table, i, e.now)
    ensures !Live(SharedAfter(s, e).table, i) ==> GrantsTo(s, e, s.shared.table.leases[i].userKey)
  {
    Effect(s, e);
    assert s.shared.table.byDev[s.shared.table.leases[i].deviceID] == i;
  }

  lemma StaysOneStep(s: State, e: Event, i: nat)
    requires Okay(s) && Enabled(s, e) && Active(s.shared.table, i, s.clock)
    requires Apply(s, e).clock < s.shared.table.leases[i].expires
    requires !GrantsTo(s, e, s.shared.table.leases[i].userKey)
    ensures Active(s.shared.table, i, e.now)
    ensures Active(Apply(s, e).shared.table, i, Apply(s, e).clock)
    ensures SameLease(s.shared.table.leases[i], Apply(s, e).shared.table.leases[i])
  {
    RemovedOnlyByOwnUser(s, e, i);
    LeaseKept(s, e, i);
  }

  /** Over a run: until it expires, a lease whose user acquires nothing new stays as it is. */
  lemma {:induction false} StaysUntilExpiry(r: Run, j: nat, k: nat, i: nat)
    requires IsRun(r) && j <= k < |r.states| && Live(r.states[j].shared.table, i)
    requires r.states[k].clock < r.states[j].shared.table.leases[i].expires
    requires forall m :: j <= m < k ==> !GrantsTo(r.states[m], r.events[m], r.states[j].shared.table.leases[i].userKey)
    ensures Active(r.states[k].shared.table, i, r.states[k].clock)
    ensures SameLease(r.states[j].shared.table.leases[i], r.states[k].shared.table.leases[i])
    decreases k
  {
    hide IsRun, Okay, Enabled, Apply, GrantsTo;
    if j < k {
      var s, e := RunStep(r, k);
      ClockForward(r, k - 1, k);
      StaysUntilExpiry(r, j, k - 1, i);
      assert !GrantsTo(s, e, r.states[j].shared.table.leases[i].userKey);
      StaysOneStep(s, e, i);
    }
  }

  // ---------------------------------------------------------------- the user's own Picks

  predicate IsUser(x: Stream, userKey: string) {
    Parse(x.username).Ok? && Parse(x.username).value.UserKey() == userKey
  }

  /** A real handle on lease i. */
  predicate HandleOn(t: Table, h: Handle, i: nat) {
    h.Ref? && h.id < |t.handles| && t.handles[h.id].lease == i
  }

  /** A stream that is bound to lease i and its device d, or is yet to look. */
  predicate OnTrack(t: Table, x: Stream, i: nat, d: string) {
    match x.phase
    case Picking(Starting(_, _)) => true
    case Picking(AskingActive(_, online)) => d in online
    case Picking(Referencing(_, l)) => l == i
    case Refused(error) => error == Cancelled
    case Dialing(device, h) => device == d && HandleOn(t, h, i)
    case Wrapped(device, h, _) => device == d && HandleOn(t, h, i)
    case Ended(device) => device == d
    case _ => false
  }

  /** In state k: the lease is in force, and each of the user's streams is on track or was past Pick at j. */
  ghost predicate Bound(r: Run, j: nat, k: nat, i: nat, l: LeaseData)
    requires j <= k < |r.states|
  {
    var s := r.states[k];
    && Okay(s) && Active(s.shared.table, i, s.clock) && SameLease(l, s.shared.table.leases[i])
    && forall id :: id in s.streams && IsUser(s.streams[id], l.userKey) ==>
                    OnTrack(s.shared.table, s.streams[id], i, l.deviceID) || PastPick(r.states[j], id)
  }

  /** The stream's Pick was already over in this state. */
  predicate PastPick(s: State, id: nat) {
    id in s.streams && !s.streams[id].phase.Picking?
  }

  lemma PastPickKept(s: State, e: Event, id: nat)
    requires Okay(s) && Enabled(s, e) && PastPick(s, id)
    ensures PastPick(Apply(s, e), id)
  {
    hide Okay, SharedAfter, EvictedAfter, Advance;
  }

  /** Once a Pick is over it stays over. */
  lemma {:induction false} PastPickStays(r: Run, j: nat, k: nat, id: nat)
    requires IsRun(r) && j <= k < |r.states| && PastPick(r.states[j], id)
    ensures PastPick(r.states[k], id)
    decreases k
  {
    hide IsRun, Okay, Enabled, Apply, PastPick;
    if j < k {
      PastPickStays(r, j, k - 1, id);
      var s, e := RunStep(r, k);
      PastPickKept(s, e, id);
    }
  }

  /** A step of a Pick on track keeps it on track. */
  lemma StepOnTrack(sel: ScoredSelector, s: Shared, x: Stream, now: int, later: int, i: nat)
    requires Consistent(s.table) && Fits(s.table, x) && x.phase.Picking?
    requires Active(s.table, i, now) && IsUser(x, s.table.leases[i].userKey)
    requires s.table.leases[i].deviceID in s.online && OnTrack(s.table, x, i, s.table.leases[i].deviceID)
    ensures var (s', p') := Advance(sel, s, x.phase.pick, now, later);
            OnTrack(s'.table, x.(phase := Settle(p')), i, s.table.leases[i].deviceID)
  {
    hide Consistent, Choice, SnapshotSet;
    ActiveFound(s.table, i, now);
  }

  lemma ActiveFound(t: Table, i: nat, now: int)
    requires Consistent(t) && Active(t, i, now)
    ensures GetActive(t, t.leases[i].userKey, now) == (t, Some(i))
  {
  }

  /** While the user's streams are on track or done, none of them makes an Acquire. */
  lemma NoneAcquires(r: Run, j: nat, k: nat, i: nat, l: LeaseData)
    requires IsRun(r) && j <= k < |r.events| && Bound(r, j, k, i, l)
    ensures !GrantsTo(r.states[k], r.events[k], l.userKey)
  {
    var s, e := r.states[k], r.events[k];
    if GrantsTo(s, e, l.userKey) {
      var id := e.action.id;
      assert Fits(s.shared.table, s.streams[id]);
      assert IsUser(s.streams[id], l.userKey);
      if PastPick(r.states[j], id) { PastPickStays(r, j, k, id); }
    }
  }

  lemma StreamBoundStep(s: State, e: Event, id: nat, i: nat)
    requires Okay(s) && Enabled(s, e) && id in StreamsAfter(s, e)
    requires Active(s.shared.table, i, e.now) && s.shared.table.leases[i].deviceID in s.shared.online
    requires IsUser(StreamsAfter(s, e)[id], s.shared.table.leases[i].userKey)
    requires id in s.streams ==> OnTrack(s.shared.table, s.streams[id], i, s.shared.table.leases[i].deviceID)
    ensures OnTrack(SharedAfter(s, e).table, StreamsAfter(s, e)[id], i, s.shared.table.leases[i].deviceID)
  {
    hide Advance, Consistent, Parse;
    TableGrows(s, e);
    if id in s.streams && e.action.Step? && e.action.id == id {
      assert Fits(s.shared.table, s.streams[id]);
      StepOnTrack(s.sel, s.shared, s.streams[id], e.now, e.later, i);
    }
  }

  /** No event changes the username of a stream. */
  lemma SameUser(s: State, e: Event, id: nat, userKey: string)
    requires Okay(s) && Enabled(s, e) && id in Apply(s, e).streams
    ensures Apply(s, e).streams[id] == StreamsAfter(s, e)[id] && id in StreamsAfter(s, e)
    ensures Apply(s, e).shared == SharedAfter(s, e)
    ensures id in s.streams ==> (IsUser(Apply(s, e).streams[id], userKey) <==> IsUser(s.streams[id], userKey))
  {
    hide Okay, SharedAfter, EvictedAfter, Advance, Parse;
  }

  lemma StreamStaysBound(s: State, e: Event, id: nat, i: nat, l: LeaseData, past: bool)
    requires Okay(s) && Enabled(s, e) && id in Apply(s, e).streams && IsUser(Apply(s, e).streams[id], l.userKey)
    requires Active(s.shared.table, i, e.now) && SameLease(l, s.shared.table.leases[i]) && l.deviceID in s.shared.online
    requires id in s.streams && IsUser(s.streams[id], l.userKey) ==> OnTrack(s.shared.table, s.streams[id], i, l.deviceID) || past
    ensures OnTrack(Apply(s, e).shared.table, Apply(s, e).streams[id], i, l.deviceID) || past
  {
    hide Okay, Enabled, Apply, OnTrack, IsUser;
    SameUser(s, e, id, l.userKey);
    if !past { StreamBoundStep(s, e, id, i); }
  }

  lemma BoundStep(r: Run, j: nat, k: nat, i: nat, l: LeaseData)
    requires IsRun(r) && j <= k < |r.events| && Bound(r, j, k, i, l)
    requires l.deviceID in r.states[k].shared.online && r.states[k + 1].clock < l.expires
    ensures Bound(r, j, k + 1, i, l)
  {
    assert k + 1 < |r.states|;
    hide IsRun, Okay, Enabled, Apply, PastPick, OnTrack, IsUser;
    var s, e := RunStep(r, k + 1);
    var s' := r.states[k + 1];
    OkayPreserved(s, e);
    NoneAcquires(r, j, k, i, l);
    StaysOneStep(s, e, i);
    forall id | id in s'.streams && IsUser(s'.streams[id], l.userKey)
      ensures OnTrack(s'.shared.table, s'.streams[id], i, l.deviceID) || PastPick(r.states[j], id)
    {
      StreamStaysBound(s, e, id, i, l, PastPick(r.states[j], id));
    }
  }

  lemma BoundAtFirst(r: Run, j: nat, i: nat)
    requires IsRun(r) && j < |r.states| && Live(r.states[j].shared.table, i)
    requires r.states[j].clock < r.states[j].shared.table.leases[i].expires
    requires forall id :: id in r.states[j].streams && r.states[j].streams[id].phase.Picking?
                          && IsUser(r.states[j].streams[id], r.states[j].shared.table.leases[i].userKey) ==>
                          r.states[j].streams[id].phase.pick.Starting?
    ensures Bound(r, j, j, i, r.states[j].shared.table.leases[i])
  {
    hide IsRun, IsUser;
    RunOkay(r, j);
  }

  /**
   Let user u hold lease i on device d at state j, with no Pick of u in its middle. As long as d stays
   online and the lease has not run out, at every later state k the lease is in force and every Pick that u
   started since has got d with a real handle on the lease, or is on its way there, unless its caller had cancelled it. Overlapping Picks of
   one user are included: none of them reaches Acquire.
   */
  lemma {:induction false} PicksStick(r: Run, j: nat, k: nat, i: nat)
    requires IsRun(r) && j <= k < |r.states| && Live(r.states[j].shared.table, i)
    requires forall id :: id in r.states[j].streams && r.states[j].streams[id].phase.Picking?
                          && IsUser(r.states[j].streams[id], r.states[j].shared.table.leases[i].userKey) ==>
                          r.states[j].streams[id].phase.pick.Starting?
    requires forall m :: j <= m <= k ==> r.states[j].shared.table.leases[i].deviceID in r.states[m].shared.online
    requires r.states[k].clock < r.states[j].shared.table.leases[i].expires
    ensures Bound(r, j, k, i, r.states[j].shared.table.leases[i])
    decreases k
  {
    hide IsRun, Okay, Enabled, Apply, Bound, OnTrack, IsUser;
    if j == k {
      BoundAtFirst(r, j, i);
    } else {
      var s, e := RunStep(r, k);
      ClockForward(r, k - 1, k);
      PicksStick(r, j, k - 1, i);
      BoundStep(r, j, k - 1, i, r.states[j].shared.table.leases[i]);
    }
  }

  /** In particular, a Pick started after j that is over by k was given the leased device, with a real handle on the lease. */
  lemma LaterPickGetsLeasedDevice(r: Run, j: nat, k: nat, i: nat, id: nat)
    requires IsRun(r) && j <= k < |r.states| && Live(r.states[j].shared.table, i)
    requires forall id :: id in r.states[j].streams && r.states[j].streams[id].phase.Picking?
                          && IsUser(r.states[j].streams[id], r.states[j].shared.table.leases[i].userKey) ==>
                          r.states[j].streams[id].phase.pick.Starting?
    requires forall m :: j <= m <= k ==> r.states[j].shared.table.leases[i].deviceID in r.states[m].shared.online
    requires r.states[k].clock < r.states[j].shared.table.leases[i].expires
    requires id !in r.states[j].streams && id in r.states[k].streams
    requires IsUser(r.states[k].streams[id], r.states[j].shared.table.leases[i].userKey)
    ensures match r.states[k].streams[id].phase
            case Picking(p) => p.Starting? || p.AskingActive? || p.Referencing?
            case Refused(error) => error == Cancelled
            case Dialing(device, h) =>
              device == r.states[j].shared.table.leases[i].deviceID && HandleOn(r.states[k].shared.table, h, i)
            case Wrapped(device, h, _) =>
              device == r.states[j].shared.table.leases[i].deviceID && HandleOn(r.states[k].shared.table, h, i)
            case Ended(device) => device == r.states[j].shared.table.leases[i].deviceID
  {
    PicksStick(r, j, k, i);
  }
}
