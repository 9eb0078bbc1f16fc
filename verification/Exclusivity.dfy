/**
 Safety over every interleaving: a device is never leased to two users at once, nor a user bound to two
 devices at once; and every hold is within the bounds of the username scheme and never extended.
 */
module Exclusivity {
  import opened LeaseTable
  import opened Username
  import opened Interleaving

  /** Lease i is in force at time `at`: made, not run out, not evicted. */
  predicate Holds(s: State, i: nat, at: int) {
    && i < |s.created| && i < |s.evicted| && i < |s.shared.table.leases|
    && s.created[i] <= at < s.shared.table.leases[i].expires
    && (s.evicted[i].Some? ==> at < s.evicted[i].value)
  }

  predicate Rivals(l: LeaseData, l': LeaseData) {
    l.deviceID == l'.deviceID || l.userKey == l'.userKey
  }

  /** History agrees with the table, and of two rival leases the older left before the newer was made. */
  ghost predicate HistoryInv(s: State) {
    && Okay(s)
    && (forall i: nat :: i < |s.created| ==> s.created[i] <= s.clock)
    && (forall i: nat :: i < |s.created| ==>
          MIN_DURATION <= s.shared.table.leases[i].expires - s.created[i] <= MAX_DURATION)
    && (forall i: nat :: i < |s.created| ==> (s.evicted[i].None? <==> Live(s.shared.table, i)))
    && (forall i: nat :: i < |s.created| && s.evicted[i].Some? ==> s.created[i] <= s.evicted[i].value <= s.clock)
    && (forall i: nat, j: nat :: i < j < |s.created| && Rivals(s.shared.table.leases[i], s.shared.table.leases[j]) ==>
          s.evicted[i].Some? && s.evicted[i].value <= s.created[j])
  }

  lemma QuietKeepsHistory(s: State, e: Event)
    requires HistoryInv(s) && Enabled(s, e) && !Grants(s, e)
    ensures HistoryInv(Apply(s, e))
  {
    assert s.clock <= e.now <= e.later;
    hide Consistent, SharedAfter, StreamsAfter, Grants, Fits, Enabled;
    Effect(s, e);
    OkayPreserved(s, e);
    var s' := Apply(s, e);
    assert |s'.created| == |s.created|;
    forall i: nat | i < |s'.created| ensures s'.evicted[i].None? <==> Live(s'.shared.table, i) {
      assert s.evicted[i].None? <==> Live(s.shared.table, i);
    }
    forall i: nat, j: nat | i < j < |s'.created| && Rivals(s'.shared.table.leases[i], s'.shared.table.leases[j])
      ensures s'.evicted[i].Some? && s'.evicted[i].value <= s'.created[j]
    {
      assert SameLease(s.shared.table.leases[i], s'.shared.table.leases[i]);
      assert SameLease(s.shared.table.leases[j], s'.shared.table.leases[j]);
    }
  }

  /** Everything a successful Acquire changes that history records. */
  ghost predicate GrantStep(s: State, s': State, tok: UserToken, device: string, at: int) {
    var t, t' := s.shared.table, s'.shared.table;
    && s'.clock == at && s.clock <= at
    && WellFormed(tok) && Granted(t, t', tok, device, at)
    && s'.created == s.created + [at] && |s.created| == |s.evicted| == |t.leases|
    && s'.evicted == EvictedAfter(s.evicted, t', at)
  }

  lemma GrantSteps(s: State, e: Event)
    requires Grants(s, e)
    ensures Okay(Apply(s, e)) && GrantStep(s, Apply(s, e), Grantee(s, e).0, Grantee(s, e).1, e.later)
  {
    Effect(s, e);
    OkayPreserved(s, e);
    assert Fits(s.shared.table, s.streams[e.action.id]);
  }

  /** A lease that was not evicted before the grant and is a rival of the new lease is evicted by it. */
  lemma GrantStamps(s: State, s': State, tok: UserToken, device: string, at: int, i: nat)
    requires HistoryInv(s) && GrantStep(s, s', tok, device, at) && i <= |s.created|
    ensures s'.evicted[i].None? <==> Live(s'.shared.table, i)
    ensures s'.evicted[i].Some? ==> s'.created[i] <= s'.evicted[i].value <= at
    ensures i < |s.created| && s.evicted[i].Some? ==> s'.evicted[i] == s.evicted[i]
    ensures i < |s.created| && Rivals(s.shared.table.leases[i], s'.shared.table.leases[|s.created|]) ==> s'.evicted[i].Some?
  {
    if i < |s.created| { assert s.evicted[i].None? <==> Live(s.shared.table, i); }
  }

  lemma GrantKeepsHistory(s: State, e: Event)
    requires HistoryInv(s) && Grants(s, e)
    ensures HistoryInv(Apply(s, e))
  {
    GrantSteps(s, e);
    var s' := Apply(s, e);
    var n := |s.created|;
    forall i: nat | i < n + 1
      ensures s'.evicted[i].None? <==> Live(s'.shared.table, i)
      ensures s'.evicted[i].Some? ==> s'.created[i] <= s'.evicted[i].value <= e.later
    {
      GrantStamps(s, s', Grantee(s, e).0, Grantee(s, e).1, e.later, i);
    }
    forall i: nat, j: nat | i < j < n + 1 && Rivals(s'.shared.table.leases[i], s'.shared.table.leases[j])
      ensures s'.evicted[i].Some? && s'.evicted[i].value <= s'.created[j]
    {
      GrantStamps(s, s', Grantee(s, e).0, Grantee(s, e).1, e.later, i);
    }
  }

  lemma InitialHistory(s: State)
    requires Initial(s)
    ensures HistoryInv(s)
  {
  }

  lemma {:induction false} HistoryAlways(r: Run, k: nat)
    requires IsRun(r) && k < |r.states|
    ensures HistoryInv(r.states[k])
    decreases k
  {
    hide IsRun, HistoryInv, Okay, Enabled, Apply, Grants;
    if k == 0 {
      RunStart(r);
      InitialHistory(r.states[0]);
    } else {
      HistoryAlways(r, k - 1);
      var s, e := RunStep(r, k);
      if Grants(s, e) { GrantKeepsHistory(s, e); } else { QuietKeepsHistory(s, e); }
    }
  }

  /**
   In every interleaving, the lifetimes [created, min(expires, evicted)) of two leases on one device are
   disjoint, and so are those of two leases of one user.
   */
  lemma LifetimesDisjoint(r: Run, k: nat, i: nat, j: nat, at: int)
    requires IsRun(r) && k < |r.states| && i != j
    requires i < |r.states[k].shared.table.leases| && j < |r.states[k].shared.table.leases|
    requires Rivals(r.states[k].shared.table.leases[i], r.states[k].shared.table.leases[j])
    ensures !(Holds(r.states[k], i, at) && Holds(r.states[k], j, at))
  {
    HistoryAlways(r, k);
    var ls := r.states[k].shared.table.leases;
    assert i < j ==> Rivals(ls[i], ls[j]);
    assert j < i ==> Rivals(ls[j], ls[i]);
  }

  /** The history is that of the table: a lease is in force now exactly when the table says it is active. */
  lemma HoldsIsActive(r: Run, k: nat, i: nat)
    requires IsRun(r) && k < |r.states|
    ensures Holds(r.states[k], i, r.states[k].clock) <==> Active(r.states[k].shared.table, i, r.states[k].clock)
  {
    HistoryAlways(r, k);
  }

  lemma LeaseKept(s: State, e: Event, i: nat)
    requires Okay(s) && Enabled(s, e) && i < |s.shared.table.leases|
    ensures Okay(Apply(s, e)) && i < |Apply(s, e).shared.table.leases| && i < |Apply(s, e).created|
    ensures SameLease(s.shared.table.leases[i], Apply(s, e).shared.table.leases[i])
    ensures Apply(s, e).created[i] == s.created[i]
  {
    Effect(s, e);
    OkayPreserved(s, e);
    if Grants(s, e) { GrantSteps(s, e); }
  }

  lemma HistoryCovers(r: Run, j: nat, i: nat)
    requires IsRun(r) && j < |r.states| && i < |r.states[j].shared.table.leases|
    ensures i < |r.states[j].created|
  {
    RunOkay(r, j);
  }

  lemma {:induction false} LeasesImmutable(r: Run, j: nat, k: nat, i: nat)
    requires IsRun(r) && j <= k < |r.states| && i < |r.states[j].shared.table.leases|
    ensures i < |r.states[k].shared.table.leases|
    ensures SameLease(r.states[j].shared.table.leases[i], r.states[k].shared.table.leases[i])
    ensures i < |r.states[j].created| && i < |r.states[k].created| && r.states[k].created[i] == r.states[j].created[i]
    decreases k
  {
    hide IsRun, Okay, Enabled, Apply;
    HistoryCovers(r, j, i);
    if j < k {
      LeasesImmutable(r, j, k - 1, i);
      var s, e := RunStep(r, k);
      LeaseKept(s, e, i);
    }
  }

  /** Every lease is held for 5 to 90 minutes from its creation, and its expiry never moves. */
  lemma HoldBound(r: Run, j: nat, k: nat, i: nat)
    requires IsRun(r) && j <= k < |r.states| && i < |r.states[j].shared.table.leases|
    ensures i < |r.states[k].shared.table.leases| && i < |r.states[j].created|
    ensures r.states[k].shared.table.leases[i].expires == r.states[j].shared.table.leases[i].expires
    ensures MIN_DURATION <= r.states[k].shared.table.leases[i].expires - r.states[j].created[i] <= MAX_DURATION
  {
    LeasesImmutable(r, j, k, i);
    HistoryAlways(r, j);
  }
}
