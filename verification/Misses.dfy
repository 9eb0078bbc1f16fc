/**
 The sticky path between its two locked steps: GetActive finds the user's lease, and AcquireRef may find it
 gone. Then `Pick` still returns the device, with the no-op handle, and does not pick again. Here is exactly
 when that happens, in every run, and a run in which it does.
 */
module Misses {
  import opened LeaseTable
  import opened Selector
  import opened Pool
  import opened Username
  import opened PickProgram
  import opened Interleaving
  import opened Exclusivity
  import opened Retry
  import opened Stickiness

  /** The event takes lease i out of the table, if it is there. */
  ghost predicate Removes(s: State, e: Event, i: nat)
    requires Okay(s) && i < |s.shared.table.leases|
  {
    var l := s.shared.table.leases[i];
    match e.action
    case SweepTick => Expired(l, e.now)
    case Step(id) =>
      && id in s.streams && s.streams[id].phase.Picking?
      && (match s.streams[id].phase.pick
          case AskingActive(tok, _) => tok.UserKey() == l.userKey && Expired(l, e.now)
          case AskingHeld(_, _, _) => Expired(l, e.now)
          case Acquiring(tok, _, d, _) =>
            !Taken(s.shared.table, tok.UserKey(), d, e.now) && (tok.UserKey() == l.userKey || d == l.deviceID)
          case _ => false)
    case _ => false
  }

  lemma PickRemoves(sel: ScoredSelector, s: Shared, p: Pick, now: int, later: int, i: nat)
    requires Consistent(s.table) && Sound(s.table, p) && !Over(p) && Live(s.table, i)
    ensures var l := s.table.leases[i];
            !Live(Advance(sel, s, p, now, later).0.table, i) <==>
            match p
            case AskingActive(tok, _) => tok.UserKey() == l.userKey && Expired(l, now)
            case AskingHeld(_, _, _) => Expired(l, now)
            case Acquiring(tok, _, d, _) =>
              !Taken(s.table, tok.UserKey(), d, now) && (tok.UserKey() == l.userKey || d == l.deviceID)
            case _ => false
  {
    hide Parse, Choice, SnapshotSet;
  }

  lemma RemovesExact(s: State, e: Event, i: nat)
    requires Okay(s) && Enabled(s, e) && Live(s.shared.table, i)
    ensures !Live(Apply(s, e).shared.table, i) <==> Removes(s, e, i)
  {
    if e.action.Step? {
      assert Fits(s.shared.table, s.streams[e.action.id]);
      PickRemoves(s.sel, s.shared, s.streams[e.action.id].phase.pick, e.now, e.later, i);
    }
    hide Advance, StreamsAfter, EvictedAfter, Fits;
  }

  ghost predicate RemovedAt(r: Run, m: int, i: nat) {
    && 0 <= m < |r.events| && m < |r.states| && Okay(r.states[m])
    && i < |r.states[m].shared.table.leases| && Removes(r.states[m], r.events[m], i)
  }

  /** A lease stays in the table until the first event that removes it, and never comes back. */
  lemma {:induction false} LiveUntilRemoved(r: Run, j: nat, k: nat, i: nat)
    requires IsRun(r) && j <= k < |r.states| && Live(r.states[j].shared.table, i)
    ensures Live(r.states[k].shared.table, i) <==> forall m :: j <= m < k ==> !RemovedAt(r, m, i)
    decreases k
  {
    hide IsRun, Okay, Enabled, Apply, Live, Removes;
    if j < k {
      var s, e := RunStep(r, k);
      LiveUntilRemoved(r, j, k - 1, i);
      LeaseExists(r, j, k - 1, i);
      if Live(s.shared.table, i) {
        RemovesExact(s, e, i);
        assert RemovedAt(r, k - 1, i) <==> Removes(s, e, i);
      } else if Live(r.states[k].shared.table, i) {
        LiveBefore(s, e, i);
      }
    }
  }

  lemma LeaseExists(r: Run, j: nat, k: nat, i: nat)
    requires IsRun(r) && j <= k < |r.states| && Live(r.states[j].shared.table, i)
    ensures i < |r.states[j].shared.table.leases| && i < |r.states[k].shared.table.leases|
    ensures SameLease(r.states[j].shared.table.leases[i], r.states[k].shared.table.leases[i])
  {
    LeasesImmutable(r, j, k, i);
  }

  // ---------------------------------------------------------------- the two steps of the sticky path

  lemma CameToReference(sel: ScoredSelector, s: Shared, p: Pick, now: int, later: int, q: Pick)
    requires Consistent(s.table) && Sound(s.table, p) && !Over(p)
    requires Settle(Advance(sel, s, p, now, later).1) == Picking(q) && q.Referencing?
    ensures p.AskingActive? && p.tok == q.tok && Advance(sel, s, p, now, later).0 == s
    ensures Active(s.table, q.lease, now) && s.table.leases[q.lease].userKey == q.tok.UserKey()
    ensures s.table.leases[q.lease].deviceID in p.online
  {
    hide Parse, Choice, SnapshotSet, Acquire, HeldDeviceIDs;
  }

  /** Every AcquireRef step of a stream has the GetActive step that found its lease, in force. */
  lemma FoundBefore(r: Run, b: nat, id: nat, tok: UserToken, i: nat) returns (a: nat, online: set<string>)
    requires IsRun(r) && StepsFrom(r, b, id, Referencing(tok, i))
    ensures a < b && StepsFrom(r, a, id, AskingActive(tok, online))
    ensures Active(r.states[a].shared.table, i, r.events[a].now)
    ensures r.states[a + 1].shared == r.states[a].shared
    ensures Live(r.states[a].shared.table, i) && i < |r.states[a].shared.table.leases|
    ensures r.states[a].shared.table.leases[i].userKey == tok.UserKey()
    ensures r.states[a].shared.table.leases[i].deviceID in online
  {
    hide IsRun, Okay, Enabled, Consistent, Advance;
    var p;
    a, p := LastStep(r, b, id);
    StepTaken(r, a, id, p);
    var s, e := r.states[a], r.events[a];
    CameToReference(s.sel, s.shared, p, e.now, e.later, Referencing(tok, i));
    online := p.online;
  }

  /**
   In every run, with the lease found at a and referenced at b: Pick returns the leased device in any case,
   with the no-op handle exactly if some event in between removed the lease, and otherwise with a real
   handle on it.
   */
  lemma MissIff(r: Run, b: nat, id: nat, tok: UserToken, i: nat) returns (a: nat, online: set<string>)
    requires IsRun(r) && StepsFrom(r, b, id, Referencing(tok, i))
    ensures a < b && StepsFrom(r, a, id, AskingActive(tok, online))
    ensures Active(r.states[a].shared.table, i, r.events[a].now)
    ensures i < |r.states[a].shared.table.leases| && r.states[a].shared.table.leases[i].userKey == tok.UserKey()
    ensures i < |r.states[a + 1].shared.table.leases| && Live(r.states[a + 1].shared.table, i)
    ensures r.states[a + 1].shared.table.leases[i] == r.states[a].shared.table.leases[i]
    ensures b + 1 < |r.states| && id in r.states[b + 1].streams && r.states[b + 1].streams[id].phase.Dialing?
    ensures r.states[b + 1].streams[id].phase.device == r.states[a].shared.table.leases[i].deviceID
    ensures var h := r.states[b + 1].streams[id].phase.handle;
            && (h == Noop <==> exists m :: a < m < b && RemovedAt(r, m, i))
            && (h != Noop ==> h.id < |r.states[b + 1].shared.table.handles|
                              && r.states[b + 1].shared.table.handles[h.id] == HandleState(i, false))
  {
    hide IsRun, Okay, Enabled, Apply, Live, Active, RemovedAt, SameLease;
    RunStart(r);
    a, online := FoundBefore(r, b, id, tok, i);
    LiveUntilRemoved(r, a + 1, b, i);
    SameDevice(r, a, b, i);
    StepTaken(r, b, id, Referencing(tok, i));
    AcquireRefGives(r.states[b].shared.table, i);
  }

  lemma SameDevice(r: Run, a: nat, b: nat, i: nat)
    requires IsRun(r) && a < b < |r.states| && i < |r.states[a].shared.table.leases|
    ensures i < |r.states[b].shared.table.leases|
    ensures r.states[b].shared.table.leases[i].deviceID == r.states[a].shared.table.leases[i].deviceID
  {
    LeasesImmutable(r, a, b, i);
  }

  lemma AcquireRefGives(t: Table, i: nat)
    requires Consistent(t) && i < |t.leases|
    ensures var (t', h) := AcquireRef(t, i);
            && (h == Noop <==> !Live(t, i))
            && (h != Noop ==> h.id < |t'.handles| && t'.handles[h.id] == HandleState(i, false))
  {
  }

  lemma GrantRemoves(s: State, e: Event, i: nat)
    requires Okay(s) && i < |s.shared.table.leases| && GrantsTo(s, e, s.shared.table.leases[i].userKey)
    ensures Removes(s, e, i)
  {
  }

  /**
   Whose doing a miss is: the lease has run out, or the same user acquired another in between. And such an
   acquisition always causes one.
   */
  lemma MissCauses(r: Run, a: nat, b: nat, i: nat, userKey: string)
    requires IsRun(r) && a < b < |r.events| && Live(r.states[a + 1].shared.table, i)
    requires r.states[a + 1].shared.table.leases[i].userKey == userKey
    ensures (exists m :: a < m < b && RemovedAt(r, m, i)) ==>
              r.states[b].clock >= r.states[a + 1].shared.table.leases[i].expires
              || exists m :: a < m < b && GrantsTo(r.states[m], r.events[m], userKey)
    ensures (exists m :: a < m < b && GrantsTo(r.states[m], r.events[m], userKey)) ==>
              exists m :: a < m < b && RemovedAt(r, m, i)
  {
    hide IsRun, Okay, Enabled, Apply, RemovedAt, GrantsTo;
    RunStart(r);
    LiveUntilRemoved(r, a + 1, b, i);
    if r.states[b].clock < r.states[a + 1].shared.table.leases[i].expires
       && forall m :: a < m < b ==> !GrantsTo(r.states[m], r.events[m], userKey) {
      StaysUntilExpiry(r, a + 1, b, i);
    }
    if m :| a < m < b && GrantsTo(r.states[m], r.events[m], userKey) {
      GrantRemovedAt(r, a + 1, m, i, userKey);
    }
  }

  lemma GrantRemovedAt(r: Run, j: nat, m: nat, i: nat, userKey: string)
    requires IsRun(r) && j <= m < |r.events| && Live(r.states[j].shared.table, i)
    requires r.states[j].shared.table.leases[i].userKey == userKey && GrantsTo(r.states[m], r.events[m], userKey)
    ensures RemovedAt(r, m, i)
  {
    var s, e := RunStep(r, m + 1);
    LeaseExists(r, j, m, i);
    hide IsRun, Enabled, Apply;
    GrantRemoves(s, e, i);
  }

  /**
   So before the lease runs out, the sticky path misses exactly if the same user acquired another lease in
   between; a Pick that no such Acquire overlaps gets a real handle on the lease.
   */
  lemma MissBeforeExpiryIff(r: Run, b: nat, id: nat, tok: UserToken, i: nat) returns (a: nat, online: set<string>)
    requires IsRun(r) && StepsFrom(r, b, id, Referencing(tok, i))
    ensures a < b && StepsFrom(r, a, id, AskingActive(tok, online)) && i < |r.states[a].shared.table.leases|
    ensures b + 1 < |r.states| && id in r.states[b + 1].streams && r.states[b + 1].streams[id].phase.Dialing?
    ensures var h, t := r.states[b + 1].streams[id].phase.handle, r.states[b + 1].shared.table;
            r.states[b].clock < r.states[a].shared.table.leases[i].expires ==>
              && (h == Noop <==> exists m :: a < m < b && GrantsTo(r.states[m], r.events[m], tok.UserKey()))
              && (h != Noop ==> h.id < |t.handles| && t.handles[h.id] == HandleState(i, false))
  {
    hide IsRun, Okay, Enabled, Apply, RemovedAt, GrantsTo, Live, Active;
    RunStart(r);
    a, online := MissIff(r, b, id, tok, i);
    MissCauses(r, a, b, i, tok.UserKey());
  }
}
