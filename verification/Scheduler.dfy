/**
 The scheduler as the program has it: `Pick` makes its calls one after another, each under its own lock,
 while other goroutines work on the same objects in between. The ghost trace says, call by call, that
 `Pick` does what the steps of PickProgram do. Weaving.dfy shows that such traces are what a stream does in
 a run of the transition system, and that a trace with events in between is a run.
 */
module Scheduler {
  import opened Wrappers
  import T = LeaseTable
  import opened Leases
  import opened Pool
  import opened Registry
  import opened Selector
  import opened Username
  import P = PickProgram

  // ---------------------------------------------------------------- traces

  /** One step: the shared state and the local state before and after it, and its clock readings. */
  datatype Turn = Turn(before: P.Shared, from: P.Pick, now: int, later: int, after: P.Shared, to: P.Pick)

  ghost predicate IsStep(sel: ScoredSelector, x: Turn) {
    && T.Consistent(x.before.table) && P.Sound(x.before.table, x.from) && !P.Over(x.from)
    && x.now <= x.later
    && P.Advance(sel, x.before, x.from, x.now, x.later) == (x.after, x.to)
  }

  /** Consecutive steps from local state `first` to local state `last`, the clock never going back. */
  ghost predicate Traces(sel: ScoredSelector, trace: seq<Turn>, first: P.Pick, last: P.Pick, start: int, end: int) {
    if trace == [] then first == last && start <= end
    else
      var x := trace[|trace| - 1];
      && IsStep(sel, x) && x.to == last && x.later <= end
      && Traces(sel, trace[..|trace| - 1], first, x.from, start, x.now)
  }

  /** The trace ends with the shared state as given. */
  predicate EndsIn(trace: seq<Turn>, s: P.Shared) {
    trace != [] && trace[|trace| - 1].after == s
  }

  lemma TraceOneMore(sel: ScoredSelector, trace: seq<Turn>, first: P.Pick, start: int, x: Turn)
    requires Traces(sel, trace, first, x.from, start, x.now) && IsStep(sel, x)
    ensures Traces(sel, trace + [x], first, x.to, start, x.later) && EndsIn(trace + [x], x.after)
  {
    assert (trace + [x])[..|trace|] == trace;
  }

  /** Time may pass after the last step. */
  lemma TraceLater(sel: ScoredSelector, trace: seq<Turn>, first: P.Pick, last: P.Pick, start: int, end: int, later: int)
    requires Traces(sel, trace, first, last, start, end) && end <= later
    ensures Traces(sel, trace, first, last, start, later)
  {
  }

  /** A trace that ended at `was` goes on with a step that starts no earlier. */
  lemma TraceExtended(sel: ScoredSelector, trace: seq<Turn>, first: P.Pick, start: int, was: int, x: Turn)
    requires Traces(sel, trace, first, x.from, start, was) && was <= x.now && IsStep(sel, x)
    ensures Traces(sel, trace + [x], first, x.to, start, x.later) && EndsIn(trace + [x], x.after)
  {
    TraceLater(sel, trace, first, x.from, start, was, x.now);
    TraceOneMore(sel, trace, first, start, x);
  }

  /** What Pick returns, in the terms of its last step. */
  ghost predicate Outcome(r: Result<(string, HandleRef), P.PickError>, p: P.Pick) {
    match r
    case Ok((device, h)) => p.Picked? && p.device == device && p.handle == HandleValue(h)
    case Err(e) => p == P.Failed(e)
  }

  lemma ReferenceIsStep(sel: ScoredSelector, x: Turn)
    requires T.Consistent(x.before.table) && x.from.Referencing? && P.Sound(x.before.table, x.from) && x.now <= x.later
    requires var (t, h) := T.AcquireRef(x.before.table, x.from.lease);
             && x.after == x.before.(table := t)
             && x.to == P.Picked(x.from.tok, x.before.table.leases[x.from.lease].deviceID, h)
    ensures IsStep(sel, x)
  {
  }

  lemma AcquireIsStep(sel: ScoredSelector, x: Turn)
    requires T.Consistent(x.before.table) && x.from.Acquiring? && x.now <= x.later
    requires var (t, r) := T.Acquire(x.before.table, x.from.tok.UserKey(), x.from.device, x.from.tok.country,
                                     x.from.tok.duration, x.now, x.later);
             && x.after == x.before.(table := t)
             && x.to == if r.Some? then P.Picked(x.from.tok, x.from.device, T.Ref(r.value.1))
                        else if x.from.retry then P.Failed(P.DeviceTaken)
                        else P.AskingHeld(x.from.tok, x.from.candidates, true)
    ensures IsStep(sel, x)
  {
  }

  ghost predicate Extends<X>(a: seq<X>, b: seq<X>) {
    |a| <= |b| && forall i :: 0 <= i < |a| ==> b[i] == a[i]
  }

  // ---------------------------------------------------------------- a Pick that nothing interrupts

  /** Nothing changed the shared state between two steps. */
  ghost predicate Undisturbed(trace: seq<Turn>, s: P.Shared) {
    trace != [] && trace[0].before == s && forall k :: 0 <= k < |trace| - 1 ==> trace[k + 1].before == trace[k].after
  }

  /** The clock readings of a trace, and whatever came later. */
  ghost predicate Readings(trace: seq<Turn>, rs: seq<(int, int)>) {
    |trace| <= |rs| && P.Ordered(rs) && forall k :: 0 <= k < |trace| ==> rs[k] == (trace[k].now, trace[k].later)
  }

  /** Each turn is a step that starts where the one before ended. */
  lemma {:induction false} TurnAt(sel: ScoredSelector, trace: seq<Turn>, first: P.Pick, last: P.Pick, start: int, end: int, k: nat)
    requires Traces(sel, trace, first, last, start, end) && k < |trace|
    ensures IsStep(sel, trace[k]) && trace[k].from == if k == 0 then first else trace[k - 1].to
    ensures trace[|trace| - 1].to == last
  {
    hide IsStep;
    var init := trace[..|trace| - 1];
    if k < |init| {
      TurnAt(sel, init, first, trace[|init|].from, start, trace[|init|].now, k);
    } else if k > 0 {
      TurnAt(sel, init, first, trace[|init|].from, start, trace[|init|].now, k - 1);
    }
  }

  lemma {:induction false} SoloFollows(sel: ScoredSelector, s: P.Shared, trace: seq<Turn>, first: P.Pick, last: P.Pick,
                                       start: int, end: int, rs: seq<(int, int)>, k: nat)
    requires T.Consistent(s.table) && P.Sound(s.table, first) && k < |trace|
    requires Traces(sel, trace, first, last, start, end) && Undisturbed(trace, s) && Readings(trace, rs)
    ensures IsStep(sel, trace[k])
    ensures P.Solo(sel, s, first, rs, 0) == P.Solo(sel, trace[k].after, trace[k].to, rs, k + 1)
  {
    TurnAt(sel, trace, first, last, start, end, k);
    if k > 0 { SoloFollows(sel, s, trace, first, last, start, end, rs, k - 1); }
  }

  /** What Pick returns and leaves behind, undisturbed, is the result of the uninterrupted program. */
  lemma UndisturbedIsSolo(sel: ScoredSelector, s: P.Shared, trace: seq<Turn>, first: P.Pick, last: P.Pick,
                          start: int, end: int, rs: seq<(int, int)>)
    requires T.Consistent(s.table) && P.Sound(s.table, first) && P.Over(last)
    requires Traces(sel, trace, first, last, start, end) && Undisturbed(trace, s) && Readings(trace, rs)
    ensures P.Solo(sel, s, first, rs, 0) == (trace[|trace| - 1].after, last)
  {
    TurnAt(sel, trace, first, last, start, end, |trace| - 1);
    SoloFollows(sel, s, trace, first, last, start, end, rs, |trace| - 1);
  }

  /**
   So a Pick of a parsed username that nothing interrupts returns the device the user is bound to, if it is
   online, and otherwise the best usable one; it fails only when there is neither.
   */
  lemma UndisturbedPickRefines(sel: ScoredSelector, s: P.Shared, username: string, trace: seq<Turn>, p: P.Pick,
                               start: int, end: int, rs: seq<(int, int)>)
    requires T.Consistent(s.table) && Parse(username).Ok? && s.online != {} && P.Over(p)
    requires Traces(sel, trace, P.Starting(username, false), p, start, end)
    requires Undisturbed(trace, s) && Readings(trace, rs) && |rs| >= 6
    ensures var tok, s' := Parse(username).value, trace[|trace| - 1].after;
            if exists i: nat :: P.Reusable(s, tok, i, rs[1].0) then
              exists i: nat :: P.Reusable(s, tok, i, rs[1].0) && s' == s.(table := T.AcquireRef(s.table, i).0)
                               && p == P.Picked(tok, s.table.leases[i].deviceID, T.Ref(|s.table.handles|))
            else
              P.FreshPick(sel, s, tok, P.Usable(sel, s, tok, rs[3].0, rs[4].0), rs[5].1, s', p)
  {
    var tok := Parse(username).value;
    UndisturbedIsSolo(sel, s, trace, P.Starting(username, false), p, start, end, rs);
    if i: nat :| P.Reusable(s, tok, i, rs[1].0) {
      P.SoloReuses(sel, s, username, i, rs);
    } else {
      P.SoloRefines(sel, s, username, rs);
    }
  }

  // ---------------------------------------------------------------- the class

  class Scheduler {
    const lister: Registry
    const pool: DevicePool
    const leases: StickyLeases
    const sel: ScoredSelector

    constructor (lister: Registry, pool: DevicePool, leases: StickyLeases, sel: ScoredSelector)
      requires leases.Valid()
      ensures Valid() && this.lister == lister && this.pool == pool && this.leases == leases && this.sel == sel
    {
      this.lister, this.pool, this.leases, this.sel := lister, pool, leases, sel;
    }

    ghost predicate Valid()
      reads leases, leases.all, leases.handles
    {
      leases.Valid()
    }

    ghost function Footprint(): set<object>
      reads leases
    {
      {lister, pool, leases, leases.clock} + (set l | l in leases.all) + (set h | h in leases.handles)
    }

    /** The shared state that all requests see. */
    ghost function Now(): P.Shared
      reads lister, pool, leases
    {
      P.Shared(leases.t, lister.sessions.Keys, pool.m)
    }

    /** Leases and handles are only ever added, and what is added is new. */
    twostate predicate Onward()
      reads leases
    {
      && Extends(old(leases.all), leases.all) && Extends(old(leases.handles), leases.handles)
      && fresh(Footprint() - old(Footprint()))
    }

    /**
     What other goroutines may do between two locked regions: anything that keeps the tables valid, except
     that nobody else closes this request's own handle. The body does nothing; a caller may rely on no more
     than the contract.
     */
    method Elsewhere(ghost mine: HandleRef)
      requires Valid() && Outstanding(leases, mine)
      modifies Footprint()
      ensures Valid() && old(leases.clock.t) <= leases.clock.t
      ensures Onward() && Outstanding(leases, mine)
    {
    }

    /** The first checks; on success the parsed token and the devices online. */
    method Begin(cancelled: bool, username: string)
      returns (r: Result<(UserToken, set<string>), P.PickError>, ghost trace: seq<Turn>, ghost p: P.Pick)
      requires Valid()
      modifies Footprint()
      ensures Valid() && Onward()
      ensures Traces(sel, trace, P.Starting(username, cancelled), p, old(leases.clock.t), leases.clock.t)
      ensures EndsIn(trace, Now())
      ensures r.Ok? ==> p == P.AskingActive(r.value.0, r.value.1)
      ensures r.Err? ==> p == P.Failed(r.error)
    {
      hide T.Consistent, LeasesStand, HandlesStand, AllMade, IndexStands, Traces, Parse;
      ghost var first, start := P.Starting(username, cancelled), leases.clock.t;
      Elsewhere(NoopHandle);
      ghost var now := leases.clock.t;
      p := P.Advance(sel, Now(), first, now, now).1;
      trace := [Turn(Now(), first, now, now, Now(), p)];
      TraceOneMore(sel, [], first, start, trace[0]);
      assert [] + trace == trace;
      if cancelled { return Err(P.Cancelled), trace, p; }
      var parsed := ParseUsername(username);
      if parsed.Err? { return Err(P.BadName(parsed.error)), trace, p; }
      var online := lister.OnlineSet();
      if |online| == 0 { return Err(P.NoDeviceOnline), trace, p; }
      return Ok((parsed.value, online)), trace, p;
    }

    /** The user's active lease, whose device may or may not be online. */
    method AskActive(tok: UserToken, online: set<string>, ghost trace: seq<Turn>, ghost first: P.Pick, ghost start: int)
      returns (l: Lease?, ghost next: seq<Turn>, ghost p: P.Pick)
      requires Valid() && Traces(sel, trace, first, P.AskingActive(tok, online), start, leases.clock.t)
      modifies Footprint()
      ensures Valid() && Onward() && Traces(sel, next, first, p, start, leases.clock.t) && EndsIn(next, Now())
      ensures l != null ==> Made(leases.all, l)
      ensures p == if l != null && l.deviceID in online then P.Referencing(tok, l.id) else P.Snapshotting(tok, online)
    {
      hide T.Consistent, LeasesStand, HandlesStand, AllMade, IndexStands, Traces;
      Elsewhere(NoopHandle);
      ghost var before := Now();
      l := leases.GetActive(tok.UserKey());
      ghost var now := leases.clock.t;
      if l != null { leases.MadeStands(l); }
      p := P.Advance(sel, before, P.AskingActive(tok, online), now, now).1;
      ghost var x := Turn(before, P.AskingActive(tok, online), now, now, Now(), p);
      TraceExtended(sel, trace, first, start, old(leases.clock.t), x);
      next := trace + [x];
    }

    /** The sticky path commits to the lease; if it was evicted meanwhile, the handle is the no-op one. */
    method Reference(tok: UserToken, l: Lease, ghost trace: seq<Turn>, ghost first: P.Pick, ghost start: int)
      returns (h: HandleRef, ghost next: seq<Turn>)
      requires Valid() && Made(leases.all, l)
      requires Traces(sel, trace, first, P.Referencing(tok, l.id), start, leases.clock.t)
      modifies Footprint()
      ensures Valid() && Onward()
      ensures Traces(sel, next, first, P.Picked(tok, l.deviceID, HandleValue(h)), start, leases.clock.t)
      ensures EndsIn(next, Now())
      ensures Outstanding(leases, h)
    {
      hide T.Consistent, LeasesStand, HandlesStand, AllMade, IndexStands, Traces, IsStep;
      Elsewhere(NoopHandle);
      ghost var before, now := Now(), leases.clock.t;
      leases.MadeStands(l);
      h := leases.AcquireRef(l);
      ghost var x := Turn(before, P.Referencing(tok, l.id), now, now, Now(), P.Picked(tok, l.deviceID, HandleValue(h)));
      ReferenceIsStep(sel, x);
      TraceExtended(sel, trace, first, start, old(leases.clock.t), x);
      next := trace + [x];
    }

    method LookAround(tok: UserToken, online: set<string>, ghost trace: seq<Turn>, ghost first: P.Pick, ghost start: int)
      returns (candidates: seq<Candidate>, ghost next: seq<Turn>)
      requires Valid() && Traces(sel, trace, first, P.Snapshotting(tok, online), start, leases.clock.t)
      modifies Footprint()
      ensures Valid() && Onward()
      ensures Traces(sel, next, first, P.AskingHeld(tok, Elements(candidates), false), start, leases.clock.t)
      ensures EndsIn(next, Now())
    {
      hide T.Consistent, LeasesStand, HandlesStand, AllMade, IndexStands, Traces;
      Elsewhere(NoopHandle);
      ghost var now := leases.clock.t;
      candidates := pool.Snapshot(Some(online));
      ghost var x := Turn(Now(), P.Snapshotting(tok, online), now, now, Now(), P.AskingHeld(tok, Elements(candidates), false));
      TraceExtended(sel, trace, first, start, old(leases.clock.t), x);
      next := trace + [x];
    }

    method AskHeld(tok: UserToken, ghost cs: set<Candidate>, ghost retry: bool,
                   ghost trace: seq<Turn>, ghost first: P.Pick, ghost start: int)
      returns (held: set<string>, ghost next: seq<Turn>)
      requires Valid() && Traces(sel, trace, first, P.AskingHeld(tok, cs, retry), start, leases.clock.t)
      modifies Footprint()
      ensures Valid() && Onward()
      ensures Traces(sel, next, first, P.Selecting(tok, cs, held, retry), start, leases.clock.t)
      ensures EndsIn(next, Now())
    {
      hide T.Consistent, LeasesStand, HandlesStand, AllMade, IndexStands, Traces;
      Elsewhere(NoopHandle);
      ghost var before := Now();
      held := leases.HeldDeviceIDs(tok.UserKey());
      ghost var now := leases.clock.t;
      ghost var x := Turn(before, P.AskingHeld(tok, cs, retry), now, now, Now(), P.Selecting(tok, cs, held, retry));
      TraceExtended(sel, trace, first, start, old(leases.clock.t), x);
      next := trace + [x];
    }

    method Choose(tok: UserToken, candidates: seq<Candidate>, held: set<string>, ghost retry: bool,
                  ghost trace: seq<Turn>, ghost first: P.Pick, ghost start: int)
      returns (r: Option<string>, ghost next: seq<Turn>, ghost p: P.Pick)
      requires Valid() && Traces(sel, trace, first, P.Selecting(tok, Elements(candidates), held, retry), start, leases.clock.t)
      modifies Footprint()
      ensures Valid() && Onward() && Traces(sel, next, first, p, start, leases.clock.t) && EndsIn(next, Now())
      ensures p == match r
                   case Some(d) => P.Acquiring(tok, Elements(candidates), d, retry)
                   case None => P.Failed(P.NoDevice(tok.country))
    {
      hide T.Consistent, LeasesStand, HandlesStand, AllMade, IndexStands, Traces;
      Elsewhere(NoopHandle);
      var now := leases.clock.Now();
      r := Selector.Pick(sel, candidates, tok.country, held, now);
      p := match r
           case Some(d) => P.Acquiring(tok, Elements(candidates), d, retry)
           case None => P.Failed(P.NoDevice(tok.country));
      ghost var x := Turn(Now(), P.Selecting(tok, Elements(candidates), held, retry), now, now, Now(), p);
      TraceExtended(sel, trace, first, start, old(leases.clock.t), x);
      next := trace + [x];
    }

    /** None is ErrDeviceTaken. */
    method TryAcquire(tok: UserToken, ghost cs: set<Candidate>, device: string, ghost retry: bool,
                      ghost trace: seq<Turn>, ghost first: P.Pick, ghost start: int)
      returns (h: Option<HandleRef>, ghost next: seq<Turn>, ghost p: P.Pick)
      requires Valid() && Traces(sel, trace, first, P.Acquiring(tok, cs, device, retry), start, leases.clock.t)
      modifies Footprint()
      ensures Valid() && Onward() && Traces(sel, next, first, p, start, leases.clock.t) && EndsIn(next, Now())
      ensures p == match h
                   case Some(handle) => P.Picked(tok, device, HandleValue(handle))
                   case None => if retry then P.Failed(P.DeviceTaken) else P.AskingHeld(tok, cs, true)
      ensures h.Some? ==> Outstanding(leases, h.value)
    {
      hide T.Consistent, LeasesStand, HandlesStand, AllMade, IndexStands, Traces, IsStep, T.Acquire, T.Live, T.Taken;
      Elsewhere(NoopHandle);
      ghost var before := Now();
      var r;
      ghost var now;
      r, now := leases.Acquire(tok.UserKey(), device, tok.country, tok.duration);
      ghost var later := leases.clock.t;
      h := if r.Some? then Some(RealHandle(r.value.1)) else None;
      p := match h
           case Some(handle) => P.Picked(tok, device, HandleValue(handle))
           case None => if retry then P.Failed(P.DeviceTaken) else P.AskingHeld(tok, cs, true);
      ghost var x := Turn(before, P.Acquiring(tok, cs, device, retry), now, later, Now(), p);
      AcquireIsStep(sel, x);
      TraceExtended(sel, trace, first, start, old(leases.clock.t), x);
      next := trace + [x];
    }

    /** Chooses among the candidates that others do not hold now. */
    method Select(tok: UserToken, candidates: seq<Candidate>, ghost retry: bool,
                  ghost trace: seq<Turn>, ghost first: P.Pick, ghost start: int)
      returns (r: Option<string>, ghost next: seq<Turn>, ghost p: P.Pick)
      requires Valid() && Traces(sel, trace, first, P.AskingHeld(tok, Elements(candidates), retry), start, leases.clock.t)
      modifies Footprint()
      ensures Valid() && Onward() && Traces(sel, next, first, p, start, leases.clock.t) && EndsIn(next, Now())
      ensures p == match r
                   case Some(d) => P.Acquiring(tok, Elements(candidates), d, retry)
                   case None => P.Failed(P.NoDevice(tok.country))
    {
      hide T.Consistent, LeasesStand, HandlesStand, AllMade, IndexStands, Traces, IsStep;
      var held;
      held, next := AskHeld(tok, Elements(candidates), retry, trace, first, start);
      r, next, p := Choose(tok, candidates, held, retry, next, first, start);
    }

    /** Chooses among the candidates that others do not hold now, and tries to lease the choice. */
    method Attempt(tok: UserToken, candidates: seq<Candidate>, ghost retry: bool,
                   ghost trace: seq<Turn>, ghost first: P.Pick, ghost start: int)
      returns (r: Result<(string, HandleRef), P.PickError>, ghost next: seq<Turn>, ghost p: P.Pick)
      requires Valid() && Traces(sel, trace, first, P.AskingHeld(tok, Elements(candidates), retry), start, leases.clock.t)
      modifies Footprint()
      ensures Valid() && Onward() && Traces(sel, next, first, p, start, leases.clock.t) && EndsIn(next, Now())
      ensures if r == Err(P.DeviceTaken) && !retry then p == P.AskingHeld(tok, Elements(candidates), true)
              else P.Over(p) && Outcome(r, p)
      ensures r.Ok? ==> Outstanding(leases, r.value.1)
    {
      hide T.Consistent, LeasesStand, HandlesStand, AllMade, IndexStands, Traces, IsStep;
      var device, h;
      device, next, p := Select(tok, candidates, retry, trace, first, start);
      if device.None? { return Err(P.NoDevice(tok.country)), next, p; }
      h, next, p := TryAcquire(tok, Elements(candidates), device.value, retry, next, first, start);
      r := if h.None? then Err(P.DeviceTaken) else Ok((device.value, h.value));
    }

    /** The path that selects a device; Acquire refusing it is a race, worth one more attempt. */
    method PickFresh(tok: UserToken, online: set<string>, ghost trace: seq<Turn>, ghost first: P.Pick, ghost start: int)
      returns (r: Result<(string, HandleRef), P.PickError>, ghost next: seq<Turn>, ghost p: P.Pick)
      requires Valid() && Traces(sel, trace, first, P.Snapshotting(tok, online), start, leases.clock.t)
      modifies Footprint()
      ensures Valid() && Onward() && Traces(sel, next, first, p, start, leases.clock.t) && EndsIn(next, Now())
      ensures P.Over(p) && Outcome(r, p)
      ensures r.Ok? ==> Outstanding(leases, r.value.1)
    {
      hide T.Consistent, LeasesStand, HandlesStand, AllMade, IndexStands, Traces, IsStep;
      var candidates;
      candidates, next := LookAround(tok, online, trace, first, start);
      r, next, p := Attempt(tok, candidates, false, next, first, start);
      if r == Err(P.DeviceTaken) {
        // Another request got the device first: once more, with what is held by now.
        r, next, p := Attempt(tok, candidates, true, next, first, start);
      }
    }

    /** The sticky path: the device the user is bound to, if it is online. */
    method Reuse(tok: UserToken, online: set<string>, ghost trace: seq<Turn>, ghost first: P.Pick, ghost start: int)
      returns (r: Option<(string, HandleRef)>, ghost next: seq<Turn>, ghost p: P.Pick)
      requires Valid() && Traces(sel, trace, first, P.AskingActive(tok, online), start, leases.clock.t)
      modifies Footprint()
      ensures Valid() && Onward() && Traces(sel, next, first, p, start, leases.clock.t) && EndsIn(next, Now())
      ensures p == match r
                   case Some((device, h)) => P.Picked(tok, device, HandleValue(h))
                   case None => P.Snapshotting(tok, online)
      ensures r.Some? ==> Outstanding(leases, r.value.1)
    {
      hide T.Consistent, LeasesStand, HandlesStand, AllMade, IndexStands, Traces, IsStep;
      var l, h;
      l, next, p := AskActive(tok, online, trace, first, start);
      if l == null || l.deviceID !in online { return None, next, p; }
      h, next := Reference(tok, l, next, first, start);
      return Some((l.deviceID, h)), next, P.Picked(tok, l.deviceID, HandleValue(h));
    }

    /** The sticky path if it is open, a fresh pick otherwise. */
    method PickFor(tok: UserToken, online: set<string>, ghost trace: seq<Turn>, ghost first: P.Pick, ghost start: int)
      returns (r: Result<(string, HandleRef), P.PickError>, ghost next: seq<Turn>, ghost p: P.Pick)
      requires Valid() && Traces(sel, trace, first, P.AskingActive(tok, online), start, leases.clock.t)
      modifies Footprint()
      ensures Valid() && Onward() && Traces(sel, next, first, p, start, leases.clock.t) && EndsIn(next, Now())
      ensures P.Over(p) && Outcome(r, p)
      ensures r.Ok? ==> Outstanding(leases, r.value.1)
    {
      hide T.Consistent, LeasesStand, HandlesStand, AllMade, IndexStands, Traces, IsStep;
      var reused;
      reused, next, p := Reuse(tok, online, trace, first, start);
      if reused.Some? { return Ok(reused.value), next, p; }
      r, next, p := PickFresh(tok, online, next, first, start);
    }

    /** `Scheduler.Pick`. On success the caller must eventually close the handle. */
    method Pick(cancelled: bool, username: string)
      returns (r: Result<(string, HandleRef), P.PickError>, ghost trace: seq<Turn>, ghost p: P.Pick)
      requires Valid()
      modifies Footprint()
      ensures Valid() && Onward()
      ensures Traces(sel, trace, P.Starting(username, cancelled), p, old(leases.clock.t), leases.clock.t)
      ensures EndsIn(trace, Now())
      ensures P.Over(p) && Outcome(r, p)
      ensures r.Ok? ==> Outstanding(leases, r.value.1)
    {
      hide T.Consistent, LeasesStand, HandlesStand, AllMade, IndexStands, Traces, IsStep, Parse;
      ghost var first, start := P.Starting(username, cancelled), leases.clock.t;
      var begun;
      begun, trace, p := Begin(cancelled, username);
      if begun.Err? { return Err(begun.error), trace, p; }
      var (tok, online) := begun.value;
      r, trace, p := PickFor(tok, online, trace, first, start);
    }
  }
}
