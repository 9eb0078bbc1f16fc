/**
 Expiry is enforced lazily, and a background sweeper trims the table. Here the sweeper is shown to be
 unobservable: calls made on two tables that agree on their unexpired leases give the same answers for
 ever, so Sweep calls can be inserted into a run or deleted from it anywhere.
 */
module LazyExpiry {
  import opened Wrappers
  import opened LeaseTable

  datatype Call =
    | GetActiveOf(userKey: string)
    | AcquireRefOf(lease: nat)
    | AcquireFor(user: string, deviceID: string, country: string, ttl: int, delay: nat)
    | HeldExcept(except: string)
    | CloseHandle(handle: Handle)
    | SweepAll

  datatype TimedCall = TimedCall(at: int, call: Call)

  datatype Answer =
    | Leased(lease: Option<nat>)
    | Handed(handle: Handle)
    | Acquired(granted: Option<(nat, nat)>)
    | Held(devices: set<string>)
    | Done

  /** The last clock reading made by a call: Acquire may read the clock twice. */
  function End(c: TimedCall): int {
    if c.call.AcquireFor? then c.at + c.call.delay else c.at
  }

  /** Callers only name leases and handles that exist. */
  predicate Known(t: Table, c: Call) {
    match c
    case AcquireRefOf(i) => i < |t.leases|
    case CloseHandle(h) => h.Ref? ==> h.id < |t.handles| && t.handles[h.id].lease < |t.leases|
    case _ => true
  }

  function Perform(t: Table, c: TimedCall): (r: (Table, Answer))
    requires Consistent(t) && Known(t, c.call)
    ensures Consistent(r.0)
  {
    match c.call
    case GetActiveOf(u) => var (t', l) := GetActive(t, u, c.at); (t', Leased(l))
    case AcquireRefOf(i) => var (t', h) := AcquireRef(t, i); (t', Handed(h))
    case AcquireFor(u, d, country, ttl, delay) =>
      var (t', g) := Acquire(t, u, d, country, ttl, c.at, c.at + delay); (t', Acquired(g))
    case HeldExcept(u) => var (t', ds) := HeldDeviceIDs(t, u, c.at); (t', Held(ds))
    case CloseHandle(h) => (Close(t, h), Done)
    case SweepAll => (Sweep(t, c.at).0, Done)
  }

  /**
   A run under a nondecreasing clock that starts no earlier than `now`, in which AcquireRef is only
   called on leases that have not run out (see AcquireRefSeesSweep for why).
   */
  ghost predicate Legal(t: Table, now: int, cs: seq<TimedCall>)
    requires Consistent(t)
    decreases |cs|
  {
    cs == [] ||
    (&& now <= cs[0].at
     && Known(t, cs[0].call)
     && (cs[0].call.AcquireRefOf? ==> !Expired(t.leases[cs[0].call.lease], cs[0].at))
     && Legal(Perform(t, cs[0]).0, End(cs[0]), cs[1..]))
  }

  /** The answers of a run; a Sweep gives no answer to its caller. */
  ghost function Answers(t: Table, now: int, cs: seq<TimedCall>): (r: seq<Answer>)
    requires Consistent(t) && Legal(t, now, cs)
    decreases |cs|
  {
    if cs == [] then []
    else
      var (t', a) := Perform(t, cs[0]);
      (if cs[0].call.SweepAll? then [] else [a]) + Answers(t', End(cs[0]), cs[1..])
  }

  function WithoutSweeps(cs: seq<TimedCall>): (r: seq<TimedCall>) {
    if cs == [] then []
    else (if cs[0].call.SweepAll? then [] else [cs[0]]) + WithoutSweeps(cs[1..])
  }

  /** Same leases, same handles, same unexpired view: what differs is only which dead leases linger. */
  ghost predicate Agree(t: Table, t': Table, now: int) {
    t.leases == t'.leases && t.handles == t'.handles && SameActive(t, t', now)
  }

  lemma AgreeLater(t: Table, t': Table, now: int, later: int)
    requires Agree(t, t', now) && now <= later
    ensures Agree(t, t', later)
  {
    forall i: nat ensures Active(t, i, later) <==> Active(t', i, later) {
      assert Active(t, i, now) <==> Active(t', i, now);
    }
  }

  /** `Taken` is a question about the unexpired view. */
  lemma TakenByActive(t: Table, t': Table, u: string, d: string, now: int)
    requires Consistent(t) && Consistent(t') && Agree(t, t', now) && Taken(t, u, d, now)
    ensures Taken(t', u, d, now)
  {
    assert Active(t, t.byDev[d], now);
    assert Active(t', t.byDev[d], now);
  }

  lemma TakenAgrees(t: Table, t': Table, u: string, d: string, now: int)
    requires Consistent(t) && Consistent(t') && Agree(t, t', now)
    ensures Taken(t, u, d, now) <==> Taken(t', u, d, now)
  {
    if Taken(t, u, d, now) { TakenByActive(t, t', u, d, now); }
    if Taken(t', u, d, now) { TakenByActive(t', t, u, d, now); }
  }

  lemma GetActiveAgrees(t: Table, t': Table, u: string, now: int)
    requires Consistent(t) && Consistent(t') && Agree(t, t', now)
    ensures GetActive(t, u, now).1 == GetActive(t', u, now).1
    ensures Agree(GetActive(t, u, now).0, GetActive(t', u, now).0, now)
  {
    var l, l' := GetActive(t, u, now).1, GetActive(t', u, now).1;
    if l.Some? {
      assert Active(t', l.value, now);
    }
  }

  lemma AcquireAgrees(t: Table, t': Table, c: TimedCall)
    requires Consistent(t) && Consistent(t') && Agree(t, t', c.at) && c.call.AcquireFor?
    ensures Perform(t, c).1 == Perform(t', c).1
    ensures Agree(Perform(t, c).0, Perform(t', c).0, End(c))
  {
    TakenAgrees(t, t', c.call.user, c.call.deviceID, c.at);
    AgreeLater(t, t', c.at, End(c));
    var r, r' := Perform(t, c).0, Perform(t', c).0;
    forall i: nat ensures Active(r, i, End(c)) <==> Active(r', i, End(c)) {
      assert Active(t, i, End(c)) <==> Active(t', i, End(c));
    }
  }

  lemma SameLiveness(t: Table, t': Table, r: Table, r': Table, now: int)
    requires Agree(t, t', now) && r.leases == r'.leases && r.handles == r'.handles
    requires |r.leases| == |t.leases| && forall i: nat :: i < |t.leases| ==> r.leases[i].expires == t.leases[i].expires
    requires forall i: nat :: (Live(r, i) <==> Live(t, i)) && (Live(r', i) <==> Live(t', i))
    ensures Agree(r, r', now)
  {
    forall i: nat ensures Active(r, i, now) <==> Active(r', i, now) {
      assert Active(t, i, now) <==> Active(t', i, now);
    }
  }

  lemma AcquireRefAgrees(t: Table, t': Table, i: nat, now: int)
    requires Consistent(t) && Consistent(t') && Agree(t, t', now) && i < |t.leases| && !Expired(t.leases[i], now)
    ensures AcquireRef(t, i).1 == AcquireRef(t', i).1
    ensures Agree(AcquireRef(t, i).0, AcquireRef(t', i).0, now)
  {
    assert Active(t, i, now) <==> Active(t', i, now);
    SameLiveness(t, t', AcquireRef(t, i).0, AcquireRef(t', i).0, now);
  }

  lemma CloseAgrees(t: Table, t': Table, h: Handle, now: int)
    requires Consistent(t) && Consistent(t') && Agree(t, t', now) && Known(t, CloseHandle(h))
    ensures Agree(Close(t, h), Close(t', h), now)
  {
    SameLiveness(t, t', Close(t, h), Close(t', h), now);
  }

  lemma HeldAgrees(t: Table, t': Table, u: string, now: int)
    requires Consistent(t) && Consistent(t') && Agree(t, t', now)
    ensures HeldDeviceIDs(t, u, now).1 == HeldDeviceIDs(t', u, now).1
    ensures Agree(HeldDeviceIDs(t, u, now).0, HeldDeviceIDs(t', u, now).0, now)
  {
    forall d ensures Taken(t, u, d, now) <==> Taken(t', u, d, now) { TakenAgrees(t, t', u, d, now); }
  }

  /** Any call but Sweep gives the same answer on tables that agree, and leaves tables that agree. */
  lemma PerformAgrees(t: Table, t': Table, now: int, c: TimedCall)
    requires Consistent(t) && Consistent(t') && Agree(t, t', now) && now <= c.at
    requires Known(t, c.call) && !c.call.SweepAll?
    requires c.call.AcquireRefOf? ==> !Expired(t.leases[c.call.lease], c.at)
    ensures Known(t', c.call)
    ensures Perform(t, c).1 == Perform(t', c).1
    ensures Agree(Perform(t, c).0, Perform(t', c).0, End(c))
  {
    AgreeLater(t, t', now, c.at);
    var r, r' := Perform(t, c).0, Perform(t', c).0;
    match c.call
    case GetActiveOf(u) =>
      GetActiveAgrees(t, t', u, c.at);
      assert Agree(r, r', c.at);
    case AcquireRefOf(i) =>
      AcquireRefAgrees(t, t', i, c.at);
      assert Agree(r, r', c.at);
    case AcquireFor(u, d, country, ttl, delay) =>
      AcquireAgrees(t, t', c);
    case HeldExcept(u) =>
      HeldAgrees(t, t', u, c.at);
      assert Agree(r, r', c.at);
    case CloseHandle(h) =>
      CloseAgrees(t, t', h, c.at);
      assert Agree(r, r', c.at);
  }

  lemma SweepAgrees(t: Table, t': Table, now: int, at: int)
    requires Consistent(t) && Consistent(t') && Agree(t, t', now) && now <= at
    ensures Agree(Sweep(t, at).0, t', at)
  {
    AgreeLater(t, t', now, at);
    forall i: nat ensures Active(Sweep(t, at).0, i, at) <==> Active(t', i, at) {
      assert Active(t, i, at) <==> Active(t', i, at);
    }
  }

  /** Dropping every Sweep from a legal run leaves a legal run with the same answers. */
  lemma {:induction false} SweepsUnobservable(t: Table, t': Table, now: int, now': int, cs: seq<TimedCall>)
    requires Consistent(t) && Consistent(t') && Agree(t, t', now) && now' <= now
    requires Legal(t, now, cs)
    ensures Legal(t', now', WithoutSweeps(cs))
    ensures Answers(t, now, cs) == Answers(t', now', WithoutSweeps(cs))
    decreases |cs|
  {
    if cs != [] {
      var c := cs[0];
      if c.call.SweepAll? {
        SweepAgrees(t, t', now, c.at);
        SweepsUnobservable(Perform(t, c).0, t', c.at, now', cs[1..]);
        assert WithoutSweeps(cs) == WithoutSweeps(cs[1..]);
      } else {
        PerformAgrees(t, t', now, c);
        SweepsUnobservable(Perform(t, c).0, Perform(t', c).0, End(c), End(c), cs[1..]);
        assert WithoutSweeps(cs)[1..] == WithoutSweeps(cs[1..]);
      }
    }
  }

  /** Lazy expiry refines eager expiry: runs that differ only in where Sweep is called cannot be told apart. */
  lemma SweepPlacementUnobservable(t: Table, t': Table, now: int, cs: seq<TimedCall>, cs': seq<TimedCall>)
    requires Consistent(t) && Consistent(t') && Agree(t, t', now)
    requires Legal(t, now, cs) && Legal(t', now, cs') && WithoutSweeps(cs) == WithoutSweeps(cs')
    ensures Answers(t, now, cs) == Answers(t', now, cs')
  {
    SweepsUnobservable(t, t', now, now, cs);
    assert Agree(t', t', now);
    SweepsUnobservable(t', t', now, now, cs');
  }

  /**
   The one call that can tell: AcquireRef gives a different handle after a Sweep exactly when the lease
   had run out and was still lingering in the table.
   */
  lemma AcquireRefSeesSweep(t: Table, i: nat, now: int)
    requires Consistent(t) && i < |t.leases|
    ensures AcquireRef(t, i).1 != AcquireRef(Sweep(t, now).0, i).1 <==> Live(t, i) && Expired(t.leases[i], now)
  {
    assert Live(Sweep(t, now).0, i) <==> Active(t, i, now);
  }

  /** Sweep leaves exactly the unexpired leases, and its count is the drop in Size. */
  lemma SweepCountsDrop(t: Table, now: int)
    requires Consistent(t)
    ensures forall i: nat :: Live(Sweep(t, now).0, i) <==> Active(t, i, now)
    ensures Sweep(t, now).1 == Size(t) - Size(Sweep(t, now).0)
  {
    var gone := set u | u in t.byUser && Expired(t.leases[t.byUser[u]], now);
    var kept := EvictExpired(t, now).byUser.Keys;
    assert t.byUser.Keys == gone + kept && gone !! kept;
    assert |t.byUser| == |t.byUser.Keys| && |EvictExpired(t, now).byUser| == |kept|;
  }
}
