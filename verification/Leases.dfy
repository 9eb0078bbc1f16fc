/** The lease table as the program keeps it: two maps onto shared, mutable lease objects. */
module Leases {
  import opened Wrappers
  import T = LeaseTable

  /** A monotone clock; every reading may be later than the one before. */
  class Clock {
    var t: int

    constructor (start: int)
      ensures t == start
    {
      t := start;
    }

    method Now() returns (r: int)
      modifies this
      ensures r == t && old(t) <= t
    {
      r :| t <= r;
      t := r;
    }
  }

  /** Fields are read-only after creation, except the count. `id` is the creation index. */
  class Lease {
    const userKey: string
    const deviceID: string
    const country: string
    const expires: int
    ghost const id: nat
    var refcount: int

    constructor (userKey: string, deviceID: string, country: string, expires: int, ghost id: nat)
      ensures this.userKey == userKey && this.deviceID == deviceID && this.country == country && this.expires == expires
      ensures this.id == id && refcount == 1
    {
      this.userKey, this.deviceID, this.country, this.expires := userKey, deviceID, country, expires;
      this.refcount := 1;
      this.id := id;
    }
  }

  /** The per-stream reference; `id` is its creation index. */
  class LeaseHandle {
    const sl: StickyLeases
    const l: Lease
    ghost const id: nat
    var closed: bool

    constructor (sl: StickyLeases, l: Lease, ghost id: nat)
      ensures this.sl == sl && this.l == l && this.id == id && !closed
    {
      this.sl, this.l, this.id, this.closed := sl, l, id, false;
    }

    /** Decrements the count once and only once. */
    method Close()
      requires sl.Valid() && id < |sl.handles| && sl.handles[id] == this
      modifies `closed, l, sl`t
      ensures sl.Valid() && closed && sl.t == T.Close(old(sl.t), T.Ref(id))
    {
      hide T.Consistent, T.Live, IndexStands;
      assert Stands(l, l.refcount, sl.t.leases[l.id]);
      if closed { return; }
      closed := true;
      if l.refcount > 0 { l.refcount := l.refcount - 1; }
      sl.t := T.Close(sl.t, T.Ref(id));
    }
  }

  /** What the dial path holds: the no-op handle of an evicted lease, or a real one. */
  datatype HandleRef = NoopHandle | RealHandle(handle: LeaseHandle)

  ghost function HandleValue(h: HandleRef): T.Handle {
    if h.NoopHandle? then T.Noop else T.Ref(h.handle.id)
  }

  /** A handle of this table. */
  ghost predicate Issued(sl: StickyLeases, h: HandleRef)
    reads sl
  {
    h.RealHandle? ==> h.handle.sl == sl && h.handle.id < |sl.handles| && sl.handles[h.handle.id] == h.handle
  }

  /** A handle of this table that is still to be closed. */
  ghost predicate Outstanding(sl: StickyLeases, h: HandleRef)
    reads sl, if h.RealHandle? then {h.handle} else {}
  {
    Issued(sl, h) && (h.RealHandle? ==> !h.handle.closed)
  }

  /** The table without the given leases. */
  function Without(t: T.Table, gone: set<nat>): T.Table {
    t.(byUser := map u | u in t.byUser && t.byUser[u] !in gone :: t.byUser[u],
       byDev := map d | d in t.byDev && t.byDev[d] !in gone :: t.byDev[d])
  }

  lemma WithoutOneMore(t: T.Table, gone: set<nat>, i: nat)
    requires T.Consistent(t) && T.Consistent(Without(t, gone)) && T.Live(Without(t, gone), i)
    ensures T.Consistent(Without(t, gone + {i}))
    ensures T.Evict(Without(t, gone), i) == Without(t, gone + {i})
  {
    var t1, t2 := T.Evict(Without(t, gone), i), Without(t, gone + {i});
    assert t1.byUser == t2.byUser;
    assert t1.byDev == t2.byDev;
  }

  /** The expired leases on these devices. */
  ghost function StaleOn(t: T.Table, devs: set<string>, now: int): set<nat>
    requires T.Consistent(t)
  {
    set d | d in devs && d in t.byDev && T.Expired(t.leases[t.byDev[d]], now) :: t.byDev[d]
  }

  /** The expired leases of these users. */
  ghost function StaleOf(t: T.Table, users: set<string>, now: int): set<nat>
    requires T.Consistent(t)
  {
    set u | u in users && u in t.byUser && T.Expired(t.leases[t.byUser[u]], now) :: t.byUser[u]
  }

  lemma NoneSeen(t: T.Table, now: int)
    requires T.Consistent(t)
    ensures Without(t, StaleOn(t, {}, now)) == t && Without(t, StaleOf(t, {}, now)) == t
    ensures ExpiredUsers(t, {}, now) == {} && forall u :: TakenOn(t, u, {}, now) == {}
  {
    assert Without(t, {}).byUser == t.byUser && Without(t, {}).byDev == t.byDev;
    assert StaleOn(t, {}, now) == {} && StaleOf(t, {}, now) == {};
  }

  /** Ranging over the devices: one more key looked at. */
  lemma VisitDevice(t: T.Table, seen: set<string>, dev: string, now: int)
    requires T.Consistent(t) && T.Consistent(Without(t, StaleOn(t, seen, now)))
    requires dev in t.byDev && dev !in seen
    ensures var i, r := t.byDev[dev], Without(t, StaleOn(t, seen, now));
            && dev in r.byDev && r.byDev[dev] == i && T.Live(r, i)
            && Without(t, StaleOn(t, seen + {dev}, now)) == if T.Expired(t.leases[i], now) then T.Evict(r, i) else r
  {
    var i, gone := t.byDev[dev], StaleOn(t, seen, now);
    assert i !in gone;
    if T.Expired(t.leases[i], now) {
      WithoutOneMore(t, gone, i);
      assert StaleOn(t, seen + {dev}, now) == gone + {i};
    } else {
      assert StaleOn(t, seen + {dev}, now) == gone;
    }
  }

  /** Ranging over the users: one more key looked at. */
  lemma VisitUser(t: T.Table, seen: set<string>, user: string, now: int)
    requires T.Consistent(t) && T.Consistent(Without(t, StaleOf(t, seen, now)))
    requires user in t.byUser && user !in seen
    ensures var i, r := t.byUser[user], Without(t, StaleOf(t, seen, now));
            && user in r.byUser && r.byUser[user] == i && T.Live(r, i)
            && Without(t, StaleOf(t, seen + {user}, now)) == if T.Expired(t.leases[i], now) then T.Evict(r, i) else r
  {
    var i, gone := t.byUser[user], StaleOf(t, seen, now);
    assert i !in gone;
    if T.Expired(t.leases[i], now) {
      WithoutOneMore(t, gone, i);
      assert StaleOf(t, seen + {user}, now) == gone + {i};
    } else {
      assert StaleOf(t, seen + {user}, now) == gone;
    }
  }

  lemma AllSeen(keys: set<string>)
    ensures keys - keys == {} && keys - {} == keys
  {
  }

  lemma SeenOneMore(keys: set<string>, left: set<string>, k: string)
    requires k in left && left <= keys
    ensures keys - (left - {k}) == (keys - left) + {k} && k !in keys - left && left - {k} <= keys
  {
  }

  ghost function TakenOn(t: T.Table, userKey: string, devs: set<string>, now: int): set<string>
    requires T.Consistent(t)
  {
    set d | d in devs && T.Taken(t, userKey, d, now)
  }

  lemma TakenOneMore(t: T.Table, userKey: string, seen: set<string>, dev: string, now: int)
    requires T.Consistent(t)
    ensures TakenOn(t, userKey, seen + {dev}, now)
            == if T.Taken(t, userKey, dev, now) then TakenOn(t, userKey, seen, now) + {dev} else TakenOn(t, userKey, seen, now)
  {
  }

  ghost function ExpiredUsers(t: T.Table, users: set<string>, now: int): set<string>
    requires T.Consistent(t)
  {
    set u | u in users && u in t.byUser && T.Expired(t.leases[t.byUser[u]], now)
  }

  lemma ExpiredOneMore(t: T.Table, seen: set<string>, user: string, now: int)
    requires T.Consistent(t) && user in t.byUser && user !in seen
    ensures |ExpiredUsers(t, seen + {user}, now)|
            == |ExpiredUsers(t, seen, now)| + if T.Expired(t.leases[t.byUser[user]], now) then 1 else 0
  {
    assert ExpiredUsers(t, seen + {user}, now)
           == ExpiredUsers(t, seen, now) + if T.Expired(t.leases[t.byUser[user]], now) then {user} else {};
  }

  /** Whichever index was ranged over, and in whatever order, exactly the expired leases are gone. */
  lemma WithoutStale(t: T.Table, now: int)
    requires T.Consistent(t)
    ensures Without(t, StaleOn(t, t.byDev.Keys, now)) == T.EvictExpired(t, now)
    ensures Without(t, StaleOf(t, t.byUser.Keys, now)) == T.EvictExpired(t, now)
  {
    var on, of := StaleOn(t, t.byDev.Keys, now), StaleOf(t, t.byUser.Keys, now);
    forall u | u in t.byUser
      ensures t.byUser[u] in on <==> T.Expired(t.leases[t.byUser[u]], now)
      ensures t.byUser[u] in of <==> T.Expired(t.leases[t.byUser[u]], now)
    {}
    forall d | d in t.byDev
      ensures t.byDev[d] in on <==> T.Expired(t.leases[t.byDev[d]], now)
      ensures t.byDev[d] in of <==> T.Expired(t.leases[t.byDev[d]], now)
    {}
    var e := T.EvictExpired(t, now);
    assert Without(t, on).byUser == e.byUser && Without(t, on).byDev == e.byDev;
    assert Without(t, of).byUser == e.byUser && Without(t, of).byDev == e.byDev;
  }

  lemma AllDevicesSeen(t: T.Table, userKey: string, now: int)
    requires T.Consistent(t)
    ensures (Without(t, StaleOn(t, t.byDev.Keys, now)), TakenOn(t, userKey, t.byDev.Keys, now))
            == T.HeldDeviceIDs(t, userKey, now)
  {
    WithoutStale(t, now);
  }

  lemma AllUsersSeen(t: T.Table, now: int)
    requires T.Consistent(t)
    ensures (Without(t, StaleOf(t, t.byUser.Keys, now)), |ExpiredUsers(t, t.byUser.Keys, now)|) == T.Sweep(t, now)
  {
    WithoutStale(t, now);
    assert ExpiredUsers(t, t.byUser.Keys, now) == set u | u in t.byUser && T.Expired(t.leases[t.byUser[u]], now);
  }

  // ---------------------------------------------------------------- what the objects stand for

  /** l is the lease with its number. */
  ghost predicate Made(all: seq<Lease>, l: Lease) {
    l.id < |all| && all[l.id] == l
  }

  ghost predicate Stands(l: Lease, refcount: int, v: T.LeaseData) {
    v == T.LeaseData(l.userKey, l.deviceID, l.country, l.expires, refcount)
  }

  ghost predicate LeasesStand(all: seq<Lease>, ls: seq<T.LeaseData>)
    reads all
  {
    |all| == |ls| && forall i :: 0 <= i < |all| ==> all[i].id == i && Stands(all[i], all[i].refcount, ls[i])
  }

  ghost predicate HandlesStand(sl: StickyLeases, handles: seq<LeaseHandle>, hs: seq<T.HandleState>)
    reads handles
  {
    && |handles| == |hs|
    && forall h :: 0 <= h < |handles| ==>
                   && handles[h].id == h && handles[h].sl == sl
                   && hs[h] == T.HandleState(handles[h].l.id, handles[h].closed)
  }

  ghost predicate AllMade(all: seq<Lease>, handles: seq<LeaseHandle>) {
    forall h :: 0 <= h < |handles| ==> Made(all, handles[h].l)
  }

  /** An index of references stands for an index of creation numbers. */
  ghost predicate IndexStands(all: seq<Lease>, m: map<string, Lease>, ids: map<string, nat>) {
    m.Keys == ids.Keys && forall k :: k in m ==> Made(all, m[k]) && m[k].id == ids[k]
  }

  /** Deleting a key, but only if it still points to l. */
  function Drop(m: map<string, Lease>, k: string, l: Lease): map<string, Lease> {
    if k in m && m[k] == l then m - {k} else m
  }

  lemma DropStands(all: seq<Lease>, m: map<string, Lease>, ids: map<string, nat>, k: string, l: Lease)
    requires IndexStands(all, m, ids) && Made(all, l)
    ensures IndexStands(all, Drop(m, k, l), if k in ids && ids[k] == l.id then ids - {k} else ids)
  {
  }

  lemma AddStands(all: seq<Lease>, m: map<string, Lease>, ids: map<string, nat>, k: string, l: Lease)
    requires IndexStands(all, m, ids) && l.id == |all|
    ensures IndexStands(all + [l], m[k := l], ids[k := l.id])
  {
  }

  lemma AddLeaseStands(all: seq<Lease>, ls: seq<T.LeaseData>, l: Lease)
    requires LeasesStand(all, ls) && l.id == |all|
    ensures LeasesStand(all + [l], ls + [T.LeaseData(l.userKey, l.deviceID, l.country, l.expires, l.refcount)])
  {
  }

  lemma AddHandleStands(sl: StickyLeases, all: seq<Lease>, handles: seq<LeaseHandle>, hs: seq<T.HandleState>,
                        handle: LeaseHandle)
    requires HandlesStand(sl, handles, hs) && AllMade(all, handles)
    requires handle.id == |handles| && handle.sl == sl && Made(all, handle.l) && !handle.closed
    ensures HandlesStand(sl, handles + [handle], hs + [T.HandleState(handle.l.id, false)])
    ensures AllMade(all, handles + [handle])
  {
  }

  /** Neither the counts nor the handles matter to the indexes. */
  lemma CountsIrrelevant(t: T.Table, i: nat, count: int, hs: seq<T.HandleState>)
    requires T.Consistent(t)
    ensures T.Consistent(t.(handles := hs))
    ensures i < |t.leases| ==> T.Consistent(t.(leases := t.leases[i := t.leases[i].(refcount := count)]))
  {
  }

  class StickyLeases {
    const clock: Clock
    var byUser: map<string, Lease>
    var byDev: map<string, Lease>
    ghost var t: T.Table            // what the two maps and the objects they reach stand for
    ghost var all: seq<Lease>       // every lease ever made
    ghost var handles: seq<LeaseHandle>

    ghost predicate Valid()
      reads this, all, handles
    {
      && T.Consistent(t)
      && LeasesStand(all, t.leases) && HandlesStand(this, handles, t.handles) && AllMade(all, handles)
      && IndexStands(all, byUser, t.byUser) && IndexStands(all, byDev, t.byDev)
    }

    constructor (clock: Clock)
      ensures Valid() && t == T.EMPTY && this.clock == clock && all == [] && handles == []
    {
      this.clock := clock;
      byUser, byDev := map[], map[];
      t, all, handles := T.EMPTY, [], [];
    }

    /** Every lease made is in the ghost table under its number. */
    lemma MadeStands(l: Lease)
      requires Valid() && Made(all, l)
      ensures l.id < |t.leases| && Stands(l, l.refcount, t.leases[l.id])
    {
    }

    method EvictLocked(l: Lease)
      requires Valid() && Made(all, l)
      modifies `byUser, `byDev, `t
      ensures Valid() && t == T.Evict(old(t), l.id)
    {
      hide T.Consistent, T.Live, HandlesStand;
      assert Stands(l, l.refcount, t.leases[l.id]);
      DropStands(all, byUser, t.byUser, l.userKey, l);
      DropStands(all, byDev, t.byDev, l.deviceID, l);
      t := T.Evict(t, l.id);
      if l.userKey in byUser && byUser[l.userKey] == l { byUser := byUser - {l.userKey}; }
      if l.deviceID in byDev && byDev[l.deviceID] == l { byDev := byDev - {l.deviceID}; }
    }

    method GetActive(userKey: string) returns (l: Lease?)
      requires Valid()
      modifies `byUser, `byDev, `t, clock
      ensures Valid() && old(clock.t) <= clock.t
      ensures t == T.GetActive(old(t), userKey, clock.t).0
      ensures l != null ==> Made(all, l) && T.GetActive(old(t), userKey, clock.t).1 == Some(l.id)
      ensures l == null ==> T.GetActive(old(t), userKey, clock.t).1 == None
    {
      hide T.Consistent, T.Live, T.Active, T.SameActive, HandlesStand, AllMade;
      if userKey !in byUser { return null; }
      l := byUser[userKey];
      assert Stands(l, l.refcount, t.leases[l.id]);
      var now := clock.Now();
      if !(now < l.expires) {
        EvictLocked(l);
        return null;
      }
    }

    method AcquireRef(l: Lease) returns (h: HandleRef)
      requires Valid() && Made(all, l)
      modifies `handles, `t, l
      ensures Valid()
      ensures t == T.AcquireRef(old(t), l.id).0 && HandleValue(h) == T.AcquireRef(old(t), l.id).1
      ensures handles == if h.RealHandle? then old(handles) + [h.handle] else old(handles)
      ensures Outstanding(this, h) && (h.RealHandle? ==> fresh(h.handle))
    {
      hide T.Consistent, HandlesStand, AllMade;
      assert Stands(l, l.refcount, t.leases[l.id]);
      if l.userKey !in byUser || byUser[l.userKey] != l { return NoopHandle; }
      var handle := Share(l);
      return RealHandle(handle);
    }

    method Share(l: Lease) returns (handle: LeaseHandle)
      requires Valid() && Made(all, l) && T.Live(t, l.id)
      modifies `handles, `t, l
      ensures Valid() && t == T.AcquireRef(old(t), l.id).0
      ensures fresh(handle) && handle.id == |old(handles)| == |old(t).handles| && handles == old(handles) + [handle]
      ensures handle.sl == this && !handle.closed
    {
      hide T.Consistent, LeasesStand, HandlesStand, AllMade, IndexStands;
      Bump(l);
      handle := Hand(l);
    }

    method Bump(l: Lease)
      requires Valid() && Made(all, l)
      modifies `t, l
      ensures Valid()
      ensures t == old(t).(leases := old(t).leases[l.id := old(t).leases[l.id].(refcount := old(t).leases[l.id].refcount + 1)])
    {
      hide T.Consistent, T.Live;
      assert Stands(l, l.refcount, t.leases[l.id]);
      CountsIrrelevant(t, l.id, l.refcount + 1, []);
      l.refcount := l.refcount + 1;
      t := t.(leases := t.leases[l.id := t.leases[l.id].(refcount := t.leases[l.id].refcount + 1)]);
    }

    /** A new handle on l, not counted here. */
    method Hand(l: Lease) returns (handle: LeaseHandle)
      requires Valid() && Made(all, l)
      modifies `handles, `t
      ensures Valid() && fresh(handle) && handle.id == |old(handles)| == |old(t).handles| && handles == old(handles) + [handle]
      ensures t == old(t).(handles := old(t).handles + [T.HandleState(l.id, false)])
      ensures handle.sl == this && !handle.closed
    {
      hide T.Consistent;
      handle := new LeaseHandle(this, l, |handles|);
      CountsIrrelevant(t, 0, 0, t.handles + [T.HandleState(l.id, false)]);
      AddHandleStands(this, all, handles, t.handles, handle);
      t := t.(handles := t.handles + [T.HandleState(l.id, false)]);
      handles := handles + [handle];
    }

    /** None is ErrDeviceTaken. The first clock reading, `now`, is only made when the device has a lease. */
    method Acquire(userKey: string, deviceID: string, country: string, ttl: int)
      returns (r: Option<(Lease, LeaseHandle)>, ghost now: int)
      requires Valid()
      modifies this, clock
      ensures Valid() && old(clock.t) <= now <= clock.t
      ensures t == T.Acquire(old(t), userKey, deviceID, country, ttl, now, clock.t).0
      ensures r.None? <==> T.Taken(old(t), userKey, deviceID, now)
      ensures r.Some? ==> fresh(r.value.0) && fresh(r.value.1) && Outstanding(this, RealHandle(r.value.1))
      ensures r.Some? ==> r.value.0.id == |old(t).leases| && r.value.1.id == |old(t).handles|
      ensures all == if r.Some? then old(all) + [r.value.0] else old(all)
      ensures handles == if r.Some? then old(handles) + [r.value.1] else old(handles)
    {
      hide T.Consistent, T.Taken, T.Live, LeasesStand, HandlesStand, AllMade, IndexStands;
      var free;
      free, now := MakeRoom(userKey, deviceID);
      if !free { return None, now; }
      var later := clock.Now();
      var l := Add(userKey, deviceID, country, later + ttl);
      var handle := Hand(l);
      return Some((l, handle)), now;
    }

    /** An expired lease on the device goes, then the user's own lease, unless another user has the device. */
    method MakeRoom(userKey: string, deviceID: string) returns (free: bool, ghost now: int)
      requires Valid()
      modifies `byUser, `byDev, `t, clock
      ensures Valid() && old(clock.t) <= now == clock.t
      ensures free <==> !T.Taken(old(t), userKey, deviceID, now)
      ensures t == if free then T.Vacate(old(t), userKey, deviceID, now) else old(t)
    {
      hide T.Consistent, T.Live, HandlesStand;
      ghost var t0 := t;
      now := clock.t;
      if deviceID in byDev {
        var existing := byDev[deviceID];
        assert existing.id == t.byDev[deviceID] && Stands(existing, existing.refcount, t.leases[existing.id]);
        var reading := clock.Now();
        now := reading;
        var expired := EvictIfExpired(existing, reading);
        if !expired && existing.userKey != userKey { return false, now; }
      }
      assert t == T.WithoutExpired(t0, deviceID, now);
      if userKey in byUser { EvictLocked(byUser[userKey]); }
      return true, now;
    }

    /** The new lease goes into both indexes. */
    method Add(userKey: string, deviceID: string, country: string, expires: int) returns (l: Lease)
      requires Valid() && userKey !in t.byUser && deviceID !in t.byDev
      modifies `byUser, `byDev, `all, `t
      ensures Valid() && fresh(l) && l.id == |old(all)| == |old(t).leases| && all == old(all) + [l]
      ensures t == T.Install(old(t), userKey, deviceID, country, expires).(handles := old(t).handles)
    {
      hide T.Consistent, T.Live, LeasesStand, HandlesStand, IndexStands;
      l := new Lease(userKey, deviceID, country, expires, |all|);
      AddStands(all, byUser, t.byUser, l.userKey, l);
      AddStands(all, byDev, t.byDev, l.deviceID, l);
      AddLeaseStands(all, t.leases, l);
      CountsIrrelevant(T.Install(t, l.userKey, l.deviceID, l.country, l.expires), 0, 0, t.handles);
      t := T.Install(t, l.userKey, l.deviceID, l.country, l.expires).(handles := t.handles);
      byUser := byUser[l.userKey := l];
      byDev := byDev[l.deviceID := l];
      all := all + [l];
    }

    /** Evicts l if it has run out. */
    method EvictIfExpired(l: Lease, now: int) returns (expired: bool)
      requires Valid() && Made(all, l)
      modifies `byUser, `byDev, `t
      ensures Valid() && expired == T.Expired(old(t).leases[l.id], now)
      ensures t == if expired then T.Evict(old(t), l.id) else old(t)
    {
      assert Stands(l, l.refcount, t.leases[l.id]);
      expired := !(now < l.expires);
      if expired { EvictLocked(l); }
    }

    /** One key of the range in HeldDeviceIDs: evicted, passed over, or reported as held. */
    method LookAtDevice(dev: string, exceptUserKey: string, now: int, ghost t0: T.Table, ghost seen: set<string>)
      returns (held: bool)
      requires Valid() && T.Consistent(t0) && t == Without(t0, StaleOn(t0, seen, now))
      requires dev in t0.byDev && dev !in seen
      modifies `byUser, `byDev, `t
      ensures Valid() && t == Without(t0, StaleOn(t0, seen + {dev}, now))
      ensures held <==> T.Taken(t0, exceptUserKey, dev, now)
    {
      VisitDevice(t0, seen, dev, now);
      var l := byDev[dev];
      assert l.id == t.byDev[dev] && Stands(l, l.refcount, t.leases[l.id]);
      var expired := EvictIfExpired(l, now);
      held := !expired && l.userKey != exceptUserKey;
    }

    /** Deletes from the map it ranges over; the order in which the map yields its keys does not matter. */
    method HeldDeviceIDs(exceptUserKey: string) returns (out: set<string>)
      requires Valid()
      modifies `byUser, `byDev, `t, clock
      ensures Valid() && old(clock.t) <= clock.t
      ensures (t, out) == T.HeldDeviceIDs(old(t), exceptUserKey, clock.t)
    {
      hide T.Consistent, T.Taken, T.Expired, T.HeldDeviceIDs, T.EvictExpired, T.SameActive;
      hide LeasesStand, HandlesStand, AllMade, Without, StaleOn, TakenOn;
      ghost var t0, keys := t, t.byDev.Keys;
      var now := clock.Now();
      out := {};
      var devs := byDev.Keys;
      NoneSeen(t0, now);
      AllSeen(keys);
      while devs != {}
        invariant devs <= keys && clock.t == now
        invariant Valid() && t == Without(t0, StaleOn(t0, keys - devs, now))
        invariant out == TakenOn(t0, exceptUserKey, keys - devs, now)
        decreases |devs|
      {
        var dev :| dev in devs;
        SeenOneMore(keys, devs, dev);
        TakenOneMore(t0, exceptUserKey, keys - devs, dev, now);
        var held := LookAtDevice(dev, exceptUserKey, now, t0, keys - devs);
        devs := devs - {dev};
        if held { out := out + {dev}; }
      }
      AllDevicesSeen(t0, exceptUserKey, now);
    }

    /** One key of the range in Sweep. */
    method LookAtUser(user: string, now: int, ghost t0: T.Table, ghost seen: set<string>) returns (expired: bool)
      requires Valid() && T.Consistent(t0) && t == Without(t0, StaleOf(t0, seen, now))
      requires user in t0.byUser && user !in seen
      modifies `byUser, `byDev, `t
      ensures Valid() && t == Without(t0, StaleOf(t0, seen + {user}, now))
      ensures expired <==> T.Expired(t0.leases[t0.byUser[user]], now)
    {
      VisitUser(t0, seen, user, now);
      var l := byUser[user];
      assert l.id == t.byUser[user];
      expired := EvictIfExpired(l, now);
    }

    method Sweep() returns (n: nat)
      requires Valid()
      modifies `byUser, `byDev, `t, clock
      ensures Valid() && old(clock.t) <= clock.t
      ensures (t, n) == T.Sweep(old(t), clock.t)
    {
      hide T.Consistent, T.Expired, T.Sweep, T.EvictExpired;
      hide LeasesStand, HandlesStand, AllMade, Without, StaleOf, ExpiredUsers;
      ghost var t0, keys := t, t.byUser.Keys;
      var now := clock.Now();
      n := 0;
      var users := byUser.Keys;
      NoneSeen(t0, now);
      AllSeen(keys);
      while users != {}
        invariant users <= keys && clock.t == now
        invariant Valid() && t == Without(t0, StaleOf(t0, keys - users, now))
        invariant n == |ExpiredUsers(t0, keys - users, now)|
        decreases |users|
      {
        var user :| user in users;
        SeenOneMore(keys, users, user);
        ExpiredOneMore(t0, keys - users, user, now);
        var expired := LookAtUser(user, now, t0, keys - users);
        users := users - {user};
        if expired { n := n + 1; }
      }
      AllUsersSeen(t0, now);
    }

    method Size() returns (n: nat)
      requires Valid()
      ensures n == T.Size(t)
    {
      n := |byUser|;
      assert byUser.Keys == t.byUser.Keys && |byUser| == |byUser.Keys| && |t.byUser| == |t.byUser.Keys|;
    }
  }
}
