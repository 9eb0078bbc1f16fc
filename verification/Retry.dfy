/**
 Why `Pick` retries at all: Acquire refuses a device only when another user's Acquire of that very device
 fell between this Pick's HeldDeviceIDs and its Acquire.
 */
module Retry {
  import opened LeaseTable
  import opened Selector
  import opened Username
  import opened PickProgram
  import opened Interleaving
  import opened Exclusivity

  /** The event at k is stream id's step from local state p. */
  ghost predicate StepsFrom(r: Run, k: int, id: nat, p: Pick) {
    && 0 <= k < |r.events| && k < |r.states|
    && r.events[k].action == Step(id)
    && id in r.states[k].streams && r.states[k].streams[id].phase == Picking(p)
  }

  /** The Acquire step at k is refused with ErrDeviceTaken. */
  ghost predicate RefusedAt(r: Run, k: int, id: nat, p: Pick) {
    && StepsFrom(r, k, id, p) && p.Acquiring?
    && Consistent(r.states[k].shared.table)
    && Taken(r.states[k].shared.table, p.tok.UserKey(), p.device, r.events[k].now)
  }

  /** The event at k is another user's successful Acquire of device d. */
  ghost predicate GrantedToAnother(r: Run, k: int, userKey: string, d: string) {
    && 0 <= k < |r.events| && k < |r.states|
    && Grants(r.states[k], r.events[k])
    && Grantee(r.states[k], r.events[k]).0.UserKey() != userKey
    && Grantee(r.states[k], r.events[k]).1 == d
  }

  /** The event is stream id's own. */
  predicate Concerns(e: Event, id: nat) {
    match e.action
    case SweepTick => false
    case OnlineBecomes(_) => false
    case Heartbeat(_, _) => false
    case Forget(_) => false
    case Open(x, _, _) => x == id
    case Step(x) => x == id
    case DialSucceeds(x) => x == id
    case DialFails(x) => x == id
    case CloseConn(x) => x == id
    case ReleaseLease(x) => x == id
  }

  lemma OthersUntouched(s: State, e: Event, id: nat)
    requires Okay(s) && Enabled(s, e) && id in Apply(s, e).streams && !Concerns(e, id)
    ensures id in s.streams && Apply(s, e).streams[id] == s.streams[id]
  {
    hide Okay, SharedAfter, EvictedAfter, Advance;
  }

  /** Where a stream's phase came from: its last own action, after which nothing touched it. */
  lemma {:induction false} LastAction(r: Run, k: nat, id: nat) returns (c: nat)
    requires IsRun(r) && k < |r.states| && id in r.states[k].streams
    ensures c < k && id in r.states[c + 1].streams && r.states[c + 1].streams[id] == r.states[k].streams[id]
    ensures Concerns(r.events[c], id)
    decreases k
  {
    hide IsRun, Okay, Enabled, Apply, Concerns;
    RunStart(r);
    var s, e := RunStep(r, k);
    if Concerns(e, id) {
      c := k - 1;
    } else {
      OthersUntouched(s, e, id);
      c := LastAction(r, k - 1, id);
    }
  }

  /** The step that put a stream where it is in the middle of its Pick. */
  lemma LastStep(r: Run, k: nat, id: nat) returns (c: nat, p: Pick)
    requires IsRun(r) && k < |r.states| && id in r.states[k].streams
    requires var f := r.states[k].streams[id].phase; f.Refused? || (f.Picking? && !f.pick.Starting?)
    ensures c < k && StepsFrom(r, c, id, p)
    ensures Okay(r.states[c]) && Enabled(r.states[c], r.events[c]) && Sound(r.states[c].shared.table, p) && !Over(p)
    ensures r.states[k].streams[id].phase
            == Settle(Advance(r.states[c].sel, r.states[c].shared, p, r.events[c].now, r.events[c].later).1)
  {
    c := LastAction(r, k, id);
    var s, e := r.states[c], r.events[c];
    assert Next(s, e, r.states[c + 1]);
    assert Fits(s.shared.table, s.streams[id]);
    p := s.streams[id].phase.pick;
  }

  /** A stream's step is the step of its local state on the shared state it finds. */
  lemma StepTaken(r: Run, k: int, id: nat, p: Pick)
    requires IsRun(r) && StepsFrom(r, k, id, p)
    ensures k + 1 < |r.states| && Okay(r.states[k]) && Enabled(r.states[k], r.events[k])
    ensures Consistent(r.states[k].shared.table) && Sound(r.states[k].shared.table, p) && !Over(p)
    ensures id in r.states[k + 1].streams && r.states[k + 1].clock == r.events[k].later
    ensures var (sh, p') := Advance(r.states[k].sel, r.states[k].shared, p, r.events[k].now, r.events[k].later);
            && r.states[k + 1].shared == sh
            && r.states[k + 1].streams[id] == r.states[k].streams[id].(phase := Settle(p'))
  {
    hide IsRun, Advance, Consistent, Parse, Sound;
    RunStart(r);
    var s, e := RunStep(r, k + 1);
    assert Fits(s.shared.table, s.streams[id]);
  }

  lemma {:induction false} ClockForward(r: Run, j: nat, k: nat)
    requires IsRun(r) && j <= k < |r.states|
    ensures r.states[j].clock <= r.states[k].clock
    decreases k
  {
    hide IsRun, Okay, SharedAfter, StreamsAfter, EvictedAfter;
    if j < k {
      ClockForward(r, j, k - 1);
      var s, e := RunStep(r, k);
    }
  }

  lemma LiveBefore(s: State, e: Event, i: nat)
    requires Okay(s) && Enabled(s, e) && Live(Apply(s, e).shared.table, i) && i < |s.shared.table.leases|
    ensures Live(s.shared.table, i)
  {
    Effect(s, e);
  }

  /** A lease that is in the table now was in it ever since it was made. */
  lemma {:induction false} LiveEarlier(r: Run, j: nat, k: nat, i: nat)
    requires IsRun(r) && j <= k < |r.states|
    requires Live(r.states[k].shared.table, i) && i < |r.states[j].shared.table.leases|
    ensures Live(r.states[j].shared.table, i)
    decreases k
  {
    hide IsRun, Okay, Enabled, Apply, Live, SameLease;
    if j < k {
      var s, e := RunStep(r, k);
      LeasesImmutable(r, j, k - 1, i);
      LiveBefore(s, e, i);
      LiveEarlier(r, j, k - 1, i);
    }
  }

  lemma LeaseMade(s: State, e: Event, i: nat)
    requires Okay(s) && Enabled(s, e) && |s.shared.table.leases| <= i < |Apply(s, e).shared.table.leases|
    ensures Grants(s, e)
    ensures Apply(s, e).shared.table.leases[i].userKey == Grantee(s, e).0.UserKey()
    ensures Apply(s, e).shared.table.leases[i].deviceID == Grantee(s, e).1
  {
    Effect(s, e);
  }

  /** Every lease has the Acquire that made it. */
  lemma {:induction false} MadeBy(r: Run, j: nat, k: nat, i: nat) returns (m: nat)
    requires IsRun(r) && j <= k < |r.states|
    requires |r.states[j].shared.table.leases| <= i < |r.states[k].shared.table.leases|
    ensures j <= m < k && m < |r.events| && Grants(r.states[m], r.events[m])
    ensures r.states[k].shared.table.leases[i].userKey == Grantee(r.states[m], r.events[m]).0.UserKey()
    ensures r.states[k].shared.table.leases[i].deviceID == Grantee(r.states[m], r.events[m]).1
    decreases k
  {
    hide IsRun, Okay, Enabled, Apply, Grants, Grantee;
    var s, e := RunStep(r, k);
    if i < |s.shared.table.leases| {
      m := MadeBy(r, j, k - 1, i);
      LeaseKept(s, e, i);
    } else {
      LeaseMade(s, e, i);
      m := k - 1;
    }
  }

  /** An unexpired lease of lasting table membership was already in the way when it was first looked for. */
  lemma InTheWayEarlier(r: Run, a: nat, b: nat, i: nat, userKey: string, d: string)
    requires IsRun(r) && a < b < |r.events|
    requires Consistent(r.states[a].shared.table) && Consistent(r.states[b].shared.table)
    requires Taken(r.states[b].shared.table, userKey, d, r.events[b].now) && i == r.states[b].shared.table.byDev[d]
    requires i < |r.states[a].shared.table.leases|
    ensures Taken(r.states[a].shared.table, userKey, d, r.events[a].now)
  {
    assert Live(r.states[b].shared.table, i);
    LeasesImmutable(r, a, b, i);
    LiveEarlier(r, a, b, i);
    assert Next(r.states[a], r.events[a], r.states[a + 1]);
    assert Next(r.states[b], r.events[b], r.states[b + 1]);
    ClockForward(r, a + 1, b);
  }

  /** A device that was free when the held set was read, and is taken now, was acquired in between. */
  lemma OvertakenBetween(r: Run, a: nat, b: nat, userKey: string, d: string) returns (m: nat)
    requires IsRun(r) && a < b < |r.events|
    requires Consistent(r.states[a].shared.table) && !Taken(r.states[a].shared.table, userKey, d, r.events[a].now)
    requires Consistent(r.states[b].shared.table) && Taken(r.states[b].shared.table, userKey, d, r.events[b].now)
    requires |r.states[a + 1].shared.table.leases| == |r.states[a].shared.table.leases|
    ensures a < m < b && GrantedToAnother(r, m, userKey, d)
  {
    var i := r.states[b].shared.table.byDev[d];
    if i < |r.states[a].shared.table.leases| { InTheWayEarlier(r, a, b, i, userKey, d); }
    m := MadeBy(r, a + 1, b, i);
  }

  // ---------------------------------------------------------------- how a Pick comes to each point

  lemma CameToAcquire(sel: ScoredSelector, s: Shared, p: Pick, now: int, later: int, q: Pick)
    requires Consistent(s.table) && Sound(s.table, p) && !Over(p)
    requires Settle(Advance(sel, s, p, now, later).1) == Picking(q) && q.Acquiring?
    ensures p.Selecting? && p == Selecting(q.tok, q.candidates, p.held, q.retry) && q.device !in p.held
  {
  }

  lemma CameToSelect(sel: ScoredSelector, s: Shared, p: Pick, now: int, later: int, q: Pick)
    requires Consistent(s.table) && Sound(s.table, p) && !Over(p)
    requires Settle(Advance(sel, s, p, now, later).1) == Picking(q) && q.Selecting?
    ensures p == AskingHeld(q.tok, q.candidates, q.retry)
    ensures q.held == HeldDeviceIDs(s.table, q.tok.UserKey(), now).1
    ensures Advance(sel, s, p, now, later).0.table.leases == s.table.leases
  {
  }

  lemma CameToRetry(sel: ScoredSelector, s: Shared, p: Pick, now: int, later: int, q: Pick)
    requires Consistent(s.table) && Sound(s.table, p) && !Over(p)
    requires Settle(Advance(sel, s, p, now, later).1) == Picking(q) && q.AskingHeld? && q.retry
    ensures p.Acquiring? && p == Acquiring(q.tok, q.candidates, p.device, false)
    ensures Taken(s.table, p.tok.UserKey(), p.device, now)
  {
  }

  lemma CameToTaken(sel: ScoredSelector, s: Shared, p: Pick, now: int, later: int)
    requires Consistent(s.table) && Sound(s.table, p) && !Over(p)
    requires Settle(Advance(sel, s, p, now, later).1) == Refused(DeviceTaken)
    ensures p.Acquiring? && p.retry && Taken(s.table, p.tok.UserKey(), p.device, now)
  {
  }

  // ---------------------------------------------------------------- main results

  /**
   A refusal is always someone else's doing: between the HeldDeviceIDs call of the same attempt, at a, and
   the refused Acquire, at b, another user acquired that device.
   */
  lemma RefusalIsOvertaking(r: Run, b: nat, id: nat, p: Pick) returns (a: nat, m: nat)
    requires IsRun(r) && RefusedAt(r, b, id, p)
    ensures a < m < b
    ensures StepsFrom(r, a, id, AskingHeld(p.tok, p.candidates, p.retry))
    ensures GrantedToAnother(r, m, p.tok.UserKey(), p.device)
  {
    var c, q := LastStep(r, b, id);
    CameToAcquire(r.states[c].sel, r.states[c].shared, q, r.events[c].now, r.events[c].later, p);
    var q0;
    a, q0 := LastStep(r, c, id);
    CameToSelect(r.states[a].sel, r.states[a].shared, q0, r.events[a].now, r.events[a].later, q);
    assert Next(r.states[a], r.events[a], r.states[a + 1]);
    m := OvertakenBetween(r, a, b, p.tok.UserKey(), p.device);
  }

  /** A Pick that surfaces ErrDeviceTaken was overtaken at least twice: once in the window of each attempt. */
  lemma SurfacedErrorOvertakenTwice(r: Run, k: nat, id: nat)
    returns (a1: nat, m1: nat, b1: nat, a2: nat, m2: nat, b2: nat, p1: Pick, p2: Pick)
    requires IsRun(r) && k < |r.states|
    requires id in r.states[k].streams && r.states[k].streams[id].phase == Refused(DeviceTaken)
    ensures a1 < m1 < b1 < a2 < m2 < b2 < k
    ensures RefusedAt(r, b1, id, p1) && RefusedAt(r, b2, id, p2) && p1.tok == p2.tok
    ensures StepsFrom(r, a1, id, AskingHeld(p1.tok, p1.candidates, false))
    ensures StepsFrom(r, a2, id, AskingHeld(p2.tok, p2.candidates, true))
    ensures GrantedToAnother(r, m1, p1.tok.UserKey(), p1.device)
    ensures GrantedToAnother(r, m2, p2.tok.UserKey(), p2.device)
  {
    b2, p2 := LastStep(r, k, id);
    CameToTaken(r.states[b2].sel, r.states[b2].shared, p2, r.events[b2].now, r.events[b2].later);
    a2, m2 := RefusalIsOvertaking(r, b2, id, p2);
    b1, p1 := LastStep(r, a2, id);
    CameToRetry(r.states[b1].sel, r.states[b1].shared, p1, r.events[b1].now, r.events[b1].later,
                AskingHeld(p2.tok, p2.candidates, true));
    a1, m1 := RefusalIsOvertaking(r, b1, id, p1);
  }
}
