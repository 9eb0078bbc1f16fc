/**
 The lease table as a value: what `StickyLeases` holds under its mutex, written so that it can be
 both the specification of the class in Leases.dfy and the shared state of the interleaving model.

 A lease is named by its creation index in `leases`; that index plays the role of the reference that
 the two indexes share. Handles are named by their creation index in `handles`. Neither sequence
 ever shrinks, so the history of every lease ever created, evicted or not, stays visible.
 */
module LeaseTable {
  import opened Wrappers

  datatype LeaseData = LeaseData(userKey: string, deviceID: string, country: string, expires: int, refcount: int)

  /** The reference behind a `leaseHandle`, with its `closed` flag. */
  datatype HandleState = HandleState(lease: nat, closed: bool)

  /** What a caller holds: the no-op handle, or the handle with the given index. */
  datatype Handle = Noop | Ref(id: nat)

  datatype Table = Table(leases: seq<LeaseData>, byUser: map<string, nat>, byDev: map<string, nat>,
                         handles: seq<HandleState>)

  const EMPTY := Table([], map[], map[], [])

  /** A lease is dead at exactly `expires`: the test is "not before", not "after". */
  predicate Expired(l: LeaseData, now: int) {
    !(now < l.expires)
  }

  /** The two indexes are mutually inverse bijections onto the same lease objects. */
  ghost predicate Consistent(t: Table) {
    && (forall u :: u in t.byUser ==>
          && t.byUser[u] < |t.leases|
          && t.leases[t.byUser[u]].userKey == u
          && t.leases[t.byUser[u]].deviceID in t.byDev
          && t.byDev[t.leases[t.byUser[u]].deviceID] == t.byUser[u])
    && (forall d :: d in t.byDev ==>
          && t.byDev[d] < |t.leases|
          && t.leases[t.byDev[d]].deviceID == d
          && t.leases[t.byDev[d]].userKey in t.byUser
          && t.byUser[t.leases[t.byDev[d]].userKey] == t.byDev[d])
  }

  /** Lease i is still in the table. Under `Consistent`, `byDev` gives the same answer. */
  predicate Live(t: Table, i: nat) {
    && i < |t.leases|
    && t.leases[i].userKey in t.byUser
    && t.byUser[t.leases[i].userKey] == i
  }

  /** Lease i is in the table and has not run out at time `now`: the unexpired view. */
  predicate Active(t: Table, i: nat, now: int) {
    Live(t, i) && !Expired(t.leases[i], now)
  }

  ghost predicate SameActive(t: Table, t': Table, now: int) {
    forall i: nat :: Active(t, i, now) <==> Active(t', i, now)
  }

  /** The open handles on lease i. */
  function OpenHandles(t: Table, i: nat): (hs: set<nat>) {
    set h: nat | h < |t.handles| && t.handles[h].lease == i && !t.handles[h].closed
  }

  /** The reference counts are exact, for evicted leases too. */
  ghost predicate Counted(t: Table) {
    && (forall h :: 0 <= h < |t.handles| ==> t.handles[h].lease < |t.leases|)
    && (forall i: nat :: i < |t.leases| ==> t.leases[i].refcount == |OpenHandles(t, i)|)
  }

  // ---------------------------------------------------------------- operations

  function Evict(t: Table, i: nat): (r: Table)
    requires Consistent(t) && i < |t.leases|
    ensures Consistent(r) && !Live(r, i)
    ensures forall j: nat :: j != i ==> (Live(r, j) <==> Live(t, j))
    ensures t.leases[i].deviceID in r.byDev ==> r.byDev[t.leases[i].deviceID] != i
  {
    var l := t.leases[i];
    t.(byUser := if l.userKey in t.byUser && t.byUser[l.userKey] == i then t.byUser - {l.userKey} else t.byUser,
       byDev := if l.deviceID in t.byDev && t.byDev[l.deviceID] == i then t.byDev - {l.deviceID} else t.byDev)
  }

  /** Every expired lease dropped from both indexes, nothing else touched. */
  function EvictExpired(t: Table, now: int): (r: Table)
    requires Consistent(t)
    ensures Consistent(r)
    ensures forall i: nat :: Live(r, i) <==> Active(t, i, now)
  {
    t.(byUser := map u | u in t.byUser && !Expired(t.leases[t.byUser[u]], now) :: t.byUser[u],
       byDev := map d | d in t.byDev && !Expired(t.leases[t.byDev[d]], now) :: t.byDev[d])
  }

  function GetActive(t: Table, userKey: string, now: int): (r: (Table, Option<nat>))
    requires Consistent(t)
    ensures Consistent(r.0) && SameActive(t, r.0, now)
    ensures r.1.Some? ==> Active(t, r.1.value, now) && t.leases[r.1.value].userKey == userKey
    ensures r.1.None? ==> forall i: nat :: Active(t, i, now) ==> t.leases[i].userKey != userKey
  {
    if userKey !in t.byUser then (t, None)
    else if Expired(t.leases[t.byUser[userKey]], now) then (Evict(t, t.byUser[userKey]), None)
    else (t, Some(t.byUser[userKey]))
  }

  function AcquireRef(t: Table, i: nat): (r: (Table, Handle))
    requires Consistent(t) && i < |t.leases|
    ensures Consistent(r.0) && (forall j: nat :: Live(r.0, j) <==> Live(t, j))
    ensures r.1 == if Live(t, i) then Ref(|t.handles|) else Noop
  {
    if !Live(t, i) then (t, Noop)
    else
      (t.(leases := t.leases[i := t.leases[i].(refcount := t.leases[i].refcount + 1)],
          handles := t.handles + [HandleState(i, false)]),
       Ref(|t.handles|))
  }

  /** The device is leased, unexpired, to a different user: the case reported as ErrDeviceTaken. */
  predicate Taken(t: Table, userKey: string, deviceID: string, now: int)
    requires Consistent(t)
  {
    deviceID in t.byDev && !Expired(t.leases[t.byDev[deviceID]], now) && t.leases[t.byDev[deviceID]].userKey != userKey
  }

  /** The same over the leases themselves: one in the table, of another user, on the device, and now before its expiry. */
  lemma TakenMeans(t: Table, userKey: string, deviceID: string, now: int)
    requires Consistent(t)
    ensures Taken(t, userKey, deviceID, now) <==>
            exists i: nat ::
              && Live(t, i) && t.leases[i].deviceID == deviceID && t.leases[i].userKey != userKey
              && now < t.leases[i].expires
  {
    if Taken(t, userKey, deviceID, now) { assert Live(t, t.byDev[deviceID]); }
  }

  /** An expired lease on the device is dropped. */
  function WithoutExpired(t: Table, deviceID: string, now: int): (r: Table)
    requires Consistent(t)
    ensures Consistent(r) && r.leases == t.leases && r.handles == t.handles
    ensures forall i: nat :: Live(r, i) <==>
                             Live(t, i) && !(t.leases[i].deviceID == deviceID && Expired(t.leases[i], now))
    ensures deviceID in r.byDev <==> deviceID in t.byDev && !Expired(t.leases[t.byDev[deviceID]], now)
  {
    if deviceID in t.byDev && Expired(t.leases[t.byDev[deviceID]], now) then Evict(t, t.byDev[deviceID]) else t
  }

  /** The table as `Acquire` leaves it before it adds the new lease. */
  function Vacate(t: Table, userKey: string, deviceID: string, now: int): (r: Table)
    requires Consistent(t) && !Taken(t, userKey, deviceID, now)
    ensures Consistent(r) && r.leases == t.leases && r.handles == t.handles
    ensures userKey !in r.byUser && deviceID !in r.byDev
    ensures forall i: nat :: Live(r, i) <==>
                             Live(t, i) && t.leases[i].userKey != userKey && t.leases[i].deviceID != deviceID
  {
    var t1 := WithoutExpired(t, deviceID, now);
    if userKey in t1.byUser then Evict(t1, t1.byUser[userKey]) else t1
  }

  function Install(t: Table, userKey: string, deviceID: string, country: string, expires: int): (r: Table)
    requires Consistent(t) && userKey !in t.byUser && deviceID !in t.byDev
    ensures Consistent(r)
    ensures forall i: nat :: Live(r, i) <==> i == |t.leases| || Live(t, i)
  {
    var i := |t.leases|;
    Table(t.leases + [LeaseData(userKey, deviceID, country, expires, 1)],
          t.byUser[userKey := i], t.byDev[deviceID := i],
          t.handles + [HandleState(i, false)])
  }

  /**
   Some((lease, handle)) on success, None for ErrDeviceTaken. The clock is read at `now` for the
   expiry test and again at `later` for the new expiry. Of the leases that were in the table, exactly
   the user's own and an expired one on the device go.
   */
  function Acquire(t: Table, userKey: string, deviceID: string, country: string, ttl: int, now: int, later: int)
    : (r: (Table, Option<(nat, nat)>))
    requires Consistent(t)
    ensures Consistent(r.0)
    ensures r.1.None? <==> Taken(t, userKey, deviceID, now)
    ensures r.1.None? ==> r.0 == t
    ensures r.1.Some? ==>
              && r.1.value == (|t.leases|, |t.handles|)
              && r.0.leases == t.leases + [LeaseData(userKey, deviceID, country, later + ttl, 1)]
              && r.0.handles == t.handles + [HandleState(|t.leases|, false)]
    ensures r.1.Some? ==>
              forall i: nat :: Live(r.0, i) <==>
                               i == |t.leases| ||
                               (Live(t, i) && t.leases[i].userKey != userKey && t.leases[i].deviceID != deviceID)
  {
    if Taken(t, userKey, deviceID, now) then (t, None)
    else (Install(Vacate(t, userKey, deviceID, now), userKey, deviceID, country, later + ttl),
          Some((|t.leases|, |t.handles|)))
  }

  /** The devices held by users other than `exceptUserKey`, and the table with the expired leases gone. */
  function HeldDeviceIDs(t: Table, exceptUserKey: string, now: int): (r: (Table, set<string>))
    requires Consistent(t)
    ensures Consistent(r.0) && SameActive(t, r.0, now)
    ensures forall d :: d in r.1 <==> Taken(t, exceptUserKey, d, now)
  {
    (EvictExpired(t, now), set d | d in t.byDev && Taken(t, exceptUserKey, d, now))
  }

  /** The swept table and the number of leases evicted. */
  function Sweep(t: Table, now: int): (r: (Table, nat))
    requires Consistent(t)
    ensures Consistent(r.0) && SameActive(t, r.0, now)
  {
    (EvictExpired(t, now), |set u | u in t.byUser && Expired(t.leases[t.byUser[u]], now)|)
  }

  function Size(t: Table): nat { |t.byUser| }

  /** Closing a handle, with the guard that keeps the count from going below zero. */
  function Close(t: Table, h: Handle): (r: Table)
    requires Consistent(t)
    requires h.Ref? ==> h.id < |t.handles| && t.handles[h.id].lease < |t.leases|
    ensures Consistent(r) && (forall j: nat :: Live(r, j) <==> Live(t, j))
  {
    if h.Noop? || t.handles[h.id].closed then t
    else
      var i := t.handles[h.id].lease;
      var l := t.leases[i];
      t.(handles := t.handles[h.id := HandleState(i, true)],
         leases := t.leases[i := l.(refcount := if l.refcount > 0 then l.refcount - 1 else l.refcount)])
  }
}
