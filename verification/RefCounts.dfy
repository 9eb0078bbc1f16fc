/**
 Reference counting: for every lease ever created, evicted or not, the count equals the number of its
 open handles, so the `> 0` guard in `leaseHandle.Close` never saves a decrement.
 */
module RefCounts {
  import opened LeaseTable

  lemma CountedInitially()
    ensures Consistent(EMPTY) && Counted(EMPTY)
  {
  }

  lemma CountedByIndexOnly(t: Table, t': Table)
    requires Counted(t) && t'.leases == t.leases && t'.handles == t.handles
    ensures Counted(t')
  {
    forall i: nat ensures OpenHandles(t', i) == OpenHandles(t, i) {}
  }

  lemma {:induction false} NewHandle(t: Table, t': Table, i: nat)
    requires t'.handles == t.handles + [HandleState(i, false)]
    ensures OpenHandles(t', i) == OpenHandles(t, i) + {|t.handles|}
    ensures |OpenHandles(t', i)| == |OpenHandles(t, i)| + 1
    ensures forall j: nat :: j != i ==> OpenHandles(t', j) == OpenHandles(t, j)
  {
    assert OpenHandles(t', i) == OpenHandles(t, i) + {|t.handles|};
    forall j: nat | j != i ensures OpenHandles(t', j) == OpenHandles(t, j) {}
  }

  lemma CountedAcquireRef(t: Table, i: nat)
    requires Consistent(t) && Counted(t) && i < |t.leases|
    ensures Counted(AcquireRef(t, i).0)
  {
    var t' := AcquireRef(t, i).0;
    if Live(t, i) { NewHandle(t, t', i); }
  }

  lemma CountedAcquire(t: Table, userKey: string, deviceID: string, country: string, ttl: int, now: int, later: int)
    requires Consistent(t) && Counted(t)
    ensures Counted(Acquire(t, userKey, deviceID, country, ttl, now, later).0)
  {
    var (t', r) := Acquire(t, userKey, deviceID, country, ttl, now, later);
    if r.Some? {
      NewHandle(t, t', |t.leases|);
      assert OpenHandles(t, |t.leases|) == {};
    }
  }

  /** Closing an open handle always finds a positive count, so the guard is never what stops it. */
  lemma CloseAlwaysDecrements(t: Table, h: nat)
    requires Consistent(t) && Counted(t) && h < |t.handles| && !t.handles[h].closed
    ensures var i := t.handles[h].lease;
            && t.leases[i].refcount > 0
            && Close(t, Ref(h)).leases[i].refcount == t.leases[i].refcount - 1
            && OpenHandles(Close(t, Ref(h)), i) == OpenHandles(t, i) - {h}
  {
    assert h in OpenHandles(t, t.handles[h].lease);
  }

  lemma CountedClose(t: Table, h: Handle)
    requires Consistent(t) && Counted(t)
    requires h.Ref? ==> h.id < |t.handles|
    ensures Counted(Close(t, h))
    // Idempotent: the second Close changes nothing.
    ensures Close(Close(t, h), h) == Close(t, h)
  {
    var t' := Close(t, h);
    if h.Ref? && !t.handles[h.id].closed {
      CloseAlwaysDecrements(t, h.id);
      forall j: nat | j != t.handles[h.id].lease ensures OpenHandles(t', j) == OpenHandles(t, j) {}
    }
  }

  // ---------------------------------------------------------------- sums

  function Total(ls: seq<LeaseData>): (n: int) {
    if ls == [] then 0 else Total(ls[..|ls| - 1]) + ls[|ls| - 1].refcount
  }

  /** The open handles on leases created before number n. */
  function OpenBelow(t: Table, n: nat): (hs: set<nat>) {
    set h: nat | h < |t.handles| && t.handles[h].lease < n && !t.handles[h].closed
  }

  /** The counts add up to the number of open handles. */
  lemma {:induction false} TotalIsOpen(t: Table, n: nat)
    requires Counted(t) && n <= |t.leases|
    ensures Total(t.leases[..n]) == |OpenBelow(t, n)|
  {
    if n == 0 {
      assert OpenBelow(t, 0) == {};
    } else {
      TotalIsOpen(t, n - 1);
      assert t.leases[..n][..n - 1] == t.leases[..n - 1];
      assert OpenBelow(t, n) == OpenBelow(t, n - 1) + OpenHandles(t, n - 1);
      assert OpenBelow(t, n - 1) !! OpenHandles(t, n - 1);
    }
  }
}
