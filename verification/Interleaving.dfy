/**
 The whole scheduler as a transition system: any number of SOCKS5 streams, each running a Pick step by
 step and then dialing and closing, interleaved with the sweeper, heartbeats and devices coming and going,
 under a clock that never goes back. `created` and `evicted` are history: when each lease was made, and
 when it left the table.
 */
module Interleaving {
  import opened Wrappers
  import opened LeaseTable
  import opened Selector
  import opened Pool
  import opened Username
  import opened PickProgram

  /** The life of one stream: Pick, then the dial, then the wrapped connection. */
  datatype Phase =
    | Picking(pick: Pick)
    | Refused(error: PickError)
    | Dialing(device: string, handle: Handle)
    | Wrapped(device: string, handle: Handle, closing: bool)
    | Ended(device: string)

  datatype Stream = Stream(username: string, phase: Phase)

  datatype State = State(sel: ScoredSelector, clock: int, shared: Shared, streams: map<nat, Stream>,
                         created: seq<int>, evicted: seq<Option<int>>)

  datatype Action =
    | Open(id: nat, username: string, cancelled: bool)
    | Step(id: nat)
    | DialSucceeds(id: nat)
    | DialFails(id: nat)          // the dial error path: handle.Close
    | CloseConn(id: nat)          // leasedConn.Close: `closed` is set and the connection closed
    | ReleaseLease(id: nat)       // ... and then the handle; a repeated Close does nothing
    | SweepTick
    | OnlineBecomes(devices: set<string>)
    | Heartbeat(device: string, update: DeviceUpdate)
    | Forget(device: string)

  /** An action and the clock readings made in it; only Acquire makes two. */
  datatype Event = Event(now: int, later: int, action: Action)

  // ---------------------------------------------------------------- well-formed states

  predicate HandleExists(t: Table, h: Handle) {
    h.Ref? ==> h.id < |t.handles| && t.handles[h.id].lease < |t.leases|
  }

  predicate Fits(t: Table, x: Stream) {
    match x.phase
    case Picking(p) => Sound(t, p) && !Over(p) && TokenOf(x.username, p)
    case Dialing(_, h) => HandleExists(t, h)
    case Wrapped(_, h, _) => HandleExists(t, h)
    case _ => true
  }

  /** A Pick works for the token its own username parses to. */
  predicate TokenOf(username: string, p: Pick) {
    match p
    case Starting(u, _) => u == username
    case Failed(_) => true
    case _ => Parse(username) == Ok(p.tok)
  }

  ghost predicate Okay(s: State) {
    && Consistent(s.shared.table)
    && |s.created| == |s.evicted| == |s.shared.table.leases|
    && (forall id :: id in s.streams ==> Fits(s.shared.table, s.streams[id]))
  }

  // ---------------------------------------------------------------- transitions

  predicate Enabled(s: State, e: Event) {
    && s.clock <= e.now <= e.later
    && match e.action
       case Open(id, _, _) => id !in s.streams
       case Step(id) => id in s.streams && s.streams[id].phase.Picking?
       case DialSucceeds(id) => id in s.streams && s.streams[id].phase.Dialing?
       case DialFails(id) => id in s.streams && s.streams[id].phase.Dialing?
       case CloseConn(id) => id in s.streams && (s.streams[id].phase.Wrapped? || s.streams[id].phase.Ended?)
       case ReleaseLease(id) => id in s.streams && s.streams[id].phase.Wrapped? && s.streams[id].phase.closing
       case _ => true
  }

  function Settle(p: Pick): Phase {
    match p
    case Picked(_, d, h) => Dialing(d, h)
    case Failed(error) => Refused(error)
    case _ => Picking(p)
  }

  /** The handle a stream lets go of in an event. */
  function Released(s: State, e: Event): Handle
    requires Enabled(s, e)
  {
    match e.action
    case DialFails(id) => s.streams[id].phase.handle
    case ReleaseLease(id) => s.streams[id].phase.handle
    case _ => Noop
  }

  ghost function SharedAfter(s: State, e: Event): (r: Shared)
    requires Okay(s) && Enabled(s, e)
    ensures Consistent(r.table)
  {
    match e.action
    case Step(id) => Advance(s.sel, s.shared, s.streams[id].phase.pick, e.now, e.later).0
    case DialFails(id) => s.shared.(table := Close(s.shared.table, Released(s, e)))
    case ReleaseLease(id) => s.shared.(table := Close(s.shared.table, Released(s, e)))
    case SweepTick => s.shared.(table := Sweep(s.shared.table, e.now).0)
    case OnlineBecomes(ds) => s.shared.(online := ds)
    case Heartbeat(d, u) => s.shared.(pool := Merged(s.shared.pool, d, u, e.now))
    case Forget(d) => s.shared.(pool := s.shared.pool - {d})
    case _ => s.shared
  }

  ghost function StreamsAfter(s: State, e: Event): map<nat, Stream>
    requires Okay(s) && Enabled(s, e)
  {
    match e.action
    case Open(id, u, cancelled) => s.streams[id := Stream(u, Picking(Starting(u, cancelled)))]
    case Step(id) =>
      s.streams[id := s.streams[id].(phase := Settle(Advance(s.sel, s.shared, s.streams[id].phase.pick, e.now, e.later).1))]
    case DialSucceeds(id) =>
      s.streams[id := s.streams[id].(phase := Wrapped(s.streams[id].phase.device, s.streams[id].phase.handle, false))]
    case DialFails(id) => s.streams[id := s.streams[id].(phase := Ended(s.streams[id].phase.device))]
    case CloseConn(id) =>
      if s.streams[id].phase.Ended? then s.streams
      else s.streams[id := s.streams[id].(phase := s.streams[id].phase.(closing := true))]
    case ReleaseLease(id) => s.streams[id := s.streams[id].(phase := Ended(s.streams[id].phase.device))]
    case _ => s.streams
  }

  /** History: a new lease is created, and a lease that left the table was evicted, at time `at`. */
  function EvictedAfter(evicted: seq<Option<int>>, t: Table, at: int): (r: seq<Option<int>>) {
    seq(|t.leases|, i requires 0 <= i < |t.leases| =>
      if i < |evicted| && evicted[i].Some? then evicted[i] else if Live(t, i) then None else Some(at))
  }

  ghost function Apply(s: State, e: Event): (r: State)
    requires Okay(s) && Enabled(s, e)
  {
    var sh := SharedAfter(s, e);
    State(s.sel, e.later, sh, StreamsAfter(s, e),
          if |sh.table.leases| > |s.created| then s.created + [e.later] else s.created,
          EvictedAfter(s.evicted, sh.table, e.later))
  }

  predicate Initial(s: State) {
    s.shared.table == EMPTY && s.streams == map[] && s.created == [] && s.evicted == []
  }

  // ---------------------------------------------------------------- what an event does to the table

  /** The same lease, up to its reference count. */
  predicate SameLease(l: LeaseData, l': LeaseData) {
    l.userKey == l'.userKey && l.deviceID == l'.deviceID && l.country == l'.country && l.expires == l'.expires
  }

  /** No new lease, and only expired leases leave. */
  ghost predicate Quiet(t: Table, t': Table, now: int) {
    && |t'.leases| == |t.leases|
    && (forall i: nat :: i < |t.leases| ==> SameLease(t.leases[i], t'.leases[i]))
    && (forall i: nat :: Live(t', i) ==> Live(t, i))
    && (forall i: nat :: Live(t, i) && !Live(t', i) ==> Expired(t.leases[i], now))
  }

  /** The event is an Acquire that succeeds, by stream `id`, for this token and device. */
  ghost predicate Grants(s: State, e: Event) {
    && Okay(s) && Enabled(s, e) && e.action.Step?
    && s.streams[e.action.id].phase.pick.Acquiring?
    && var p := s.streams[e.action.id].phase.pick;
       !Taken(s.shared.table, p.tok.UserKey(), p.device, e.now)
  }

  /** The token and the device of a successful Acquire. */
  ghost function Grantee(s: State, e: Event): (UserToken, string)
    requires Grants(s, e)
  {
    (s.streams[e.action.id].phase.pick.tok, s.streams[e.action.id].phase.pick.device)
  }

  ghost predicate Granted(t: Table, t': Table, tok: UserToken, device: string, later: int) {
    && t'.leases == t.leases + [LeaseData(tok.UserKey(), device, tok.country, later + tok.duration, 1)]
    && (forall i: nat :: Live(t', i) <==>
                         i == |t.leases| ||
                         (Live(t, i) && t.leases[i].userKey != tok.UserKey() && t.leases[i].deviceID != device))
  }

  lemma GetActiveQuiet(t: Table, userKey: string, now: int)
    requires Consistent(t)
    ensures Quiet(t, GetActive(t, userKey, now).0, now)
  {
  }

  lemma AcquireRefQuiet(t: Table, i: nat, now: int)
    requires Consistent(t) && i < |t.leases|
    ensures Quiet(t, AcquireRef(t, i).0, now)
  {
  }

  lemma StepQuiet(sel: ScoredSelector, s: Shared, p: Pick, now: int, later: int)
    requires Consistent(s.table) && Sound(s.table, p) && !Over(p)
    requires p.Acquiring? ==> Taken(s.table, p.tok.UserKey(), p.device, now)
    ensures Quiet(s.table, Advance(sel, s, p, now, later).0.table, now)
  {
    match p
    case AskingActive(tok, _) => GetActiveQuiet(s.table, tok.UserKey(), now);
    case Referencing(_, i) => AcquireRefQuiet(s.table, i, now);
    case AskingHeld(_, _, _) => SweepQuiet(s.table, now);
    case _ =>
  }

  lemma StepGrants(sel: ScoredSelector, s: Shared, p: Pick, now: int, later: int)
    requires Consistent(s.table) && p.Acquiring? && !Taken(s.table, p.tok.UserKey(), p.device, now)
    ensures Granted(s.table, Advance(sel, s, p, now, later).0.table, p.tok, p.device, later)
  {
  }

  lemma CloseQuiet(t: Table, h: Handle, now: int)
    requires Consistent(t) && HandleExists(t, h)
    ensures Quiet(t, Close(t, h), now)
  {
  }

  lemma SweepQuiet(t: Table, now: int)
    requires Consistent(t)
    ensures Quiet(t, Sweep(t, now).0, now)
  {
  }

  /** Every event either adds exactly one lease, by a successful Acquire, or adds none and drops only expired ones. */
  lemma Effect(s: State, e: Event)
    requires Okay(s) && Enabled(s, e)
    ensures var t, t' := s.shared.table, SharedAfter(s, e).table;
            if Grants(s, e) then Granted(t, t', Grantee(s, e).0, Grantee(s, e).1, e.later) else Quiet(t, t', e.now)
  {
    var t := s.shared.table;
    match e.action
    case Step(id) =>
      assert Fits(t, s.streams[id]);
      var p := s.streams[id].phase.pick;
      if Grants(s, e) { StepGrants(s.sel, s.shared, p, e.now, e.later); } else { StepQuiet(s.sel, s.shared, p, e.now, e.later); }
    case DialFails(id) => assert Fits(t, s.streams[id]); CloseQuiet(t, Released(s, e), e.now);
    case ReleaseLease(id) => assert Fits(t, s.streams[id]); CloseQuiet(t, Released(s, e), e.now);
    case SweepTick => SweepQuiet(t, e.now);
    case _ =>
  }

  /** Leases and handles are only ever added, and a handle once closed stays closed. */
  predicate Grows(t: Table, t': Table) {
    && |t.leases| <= |t'.leases| && |t.handles| <= |t'.handles|
    && (forall h :: 0 <= h < |t.handles| ==>
          t'.handles[h].lease == t.handles[h].lease && (t.handles[h].closed ==> t'.handles[h].closed))
  }

  lemma StepGrows(sel: ScoredSelector, s: Shared, p: Pick, now: int, later: int)
    requires Consistent(s.table) && Sound(s.table, p) && !Over(p)
    ensures Grows(s.table, Advance(sel, s, p, now, later).0.table)
  {
  }

  lemma TableGrows(s: State, e: Event)
    requires Okay(s) && Enabled(s, e)
    ensures Grows(s.shared.table, SharedAfter(s, e).table)
  {
    hide Advance, Consistent, Parse;
    if e.action.Step? {
      assert Fits(s.shared.table, s.streams[e.action.id]);
      StepGrows(s.sel, s.shared, s.streams[e.action.id].phase.pick, e.now, e.later);
    }
  }

  lemma FitsLater(t: Table, t': Table, x: Stream)
    requires Fits(t, x) && Grows(t, t')
    ensures Fits(t', x)
  {
  }

  /** A step leaves its stream in order. */
  lemma StepFits(sel: ScoredSelector, s: Shared, x: Stream, now: int, later: int)
    requires Consistent(s.table) && Fits(s.table, x) && x.phase.Picking?
    ensures var (s', p') := Advance(sel, s, x.phase.pick, now, later);
            Fits(s'.table, x.(phase := Settle(p')))
  {
    hide Consistent, Parse, Choice, SnapshotSet, GetActive, HeldDeviceIDs, Taken, Acquire;
  }

  /** The states stay well-formed, so that every enabled event of a reachable state has a successor. */
  lemma OkayPreserved(s: State, e: Event)
    requires Okay(s) && Enabled(s, e)
    ensures Okay(Apply(s, e))
  {
    Effect(s, e);
    TableGrows(s, e);
    var t, t' := s.shared.table, SharedAfter(s, e).table;
    var s' := Apply(s, e);
    forall id | id in s'.streams ensures Fits(t', s'.streams[id]) {
      if id in s.streams {
        FitsLater(t, t', s.streams[id]);
        if e.action.Step? && e.action.id == id { StepFits(s.sel, s.shared, s.streams[id], e.now, e.later); }
      }
    }
  }

  // ---------------------------------------------------------------- runs

  datatype Run = Run(states: seq<State>, events: seq<Event>)

  ghost predicate Next(s: State, e: Event, s': State) {
    Okay(s) && Enabled(s, e) && s' == Apply(s, e)
  }

  /** A run from the initial state. */
  ghost predicate IsRun(r: Run) {
    && |r.states| == |r.events| + 1
    && Initial(r.states[0])
    && (forall k :: 0 <= k < |r.events| ==> Next(r.states[k], r.events[k], r.states[k + 1]))
  }

  lemma RunStart(r: Run)
    requires IsRun(r)
    ensures |r.states| == |r.events| + 1 && Initial(r.states[0])
  {
  }

  /** The event that led to state k. */
  lemma RunStep(r: Run, k: nat) returns (s: State, e: Event)
    requires IsRun(r) && 0 < k < |r.states|
    ensures k <= |r.events| && s == r.states[k - 1] && e == r.events[k - 1]
    ensures Okay(s) && Enabled(s, e) && r.states[k] == Apply(s, e)
  {
    s, e := r.states[k - 1], r.events[k - 1];
    assert Next(s, e, r.states[k]);
  }

  lemma RunOkay(r: Run, k: nat)
    requires IsRun(r) && k < |r.states|
    ensures Okay(r.states[k])
  {
    if k > 0 {
      assert Next(r.states[k - 1], r.events[k - 1], r.states[k]);
      OkayPreserved(r.states[k - 1], r.events[k - 1]);
    }
  }

  /** A run can always be continued by any enabled event: well-formedness never blocks. */
  lemma RunExtends(r: Run, e: Event)
    requires IsRun(r) && Enabled(r.states[|r.events|], e)
    ensures Okay(r.states[|r.events|])
    ensures IsRun(Run(r.states + [Apply(r.states[|r.events|], e)], r.events + [e]))
  {
    RunOkay(r, |r.events|);
    var r' := Run(r.states + [Apply(r.states[|r.events|], e)], r.events + [e]);
    forall k | 0 <= k < |r'.events| ensures Next(r'.states[k], r'.events[k], r'.states[k + 1]) {
      if k < |r.events| { assert Next(r.states[k], r.events[k], r.states[k + 1]); }
    }
  }
}
