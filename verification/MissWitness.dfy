/** A run in which the sticky path misses: `Pick` returns a device that its user no longer leases. */
module MissWitness {
  import opened Wrappers
  import opened LeaseTable
  import opened Selector
  import opened Pool
  import opened Username
  import opened PickProgram
  import opened Interleaving

  ghost function Last(r: Run): State
    requires IsRun(r)
  {
    r.states[|r.events|]
  }

  /** The run goes on with an event at the time given. */
  lemma GoOn(r: Run, now: int, action: Action) returns (r': Run)
    requires IsRun(r) && Enabled(Last(r), Event(now, now, action))
    ensures Okay(Last(r)) && IsRun(r') && Last(r') == Apply(Last(r), Event(now, now, action))
    ensures r' == Run(r.states + [Last(r')], r.events + [Event(now, now, action)])
  {
    RunExtends(r, Event(now, now, action));
    r' := Run(r.states + [Apply(Last(r), Event(now, now, action))], r.events + [Event(now, now, action)]);
  }

  lemma OpenStream(r: Run, id: nat, username: string) returns (r': Run)
    requires IsRun(r) && id !in Last(r).streams
    ensures IsRun(r')
    ensures Last(r').sel == Last(r).sel && Last(r').clock == Last(r).clock && Last(r').shared == Last(r).shared
    ensures Last(r').streams == Last(r).streams[id := Stream(username, Picking(Starting(username, false)))]
  {
    r' := GoOn(r, Last(r).clock, Open(id, username, false));
  }

  /** Stream id makes its step at the present time, with the outcome given. */
  lemma StepTo(r: Run, id: nat, p: Pick, sh: Shared, p': Pick) returns (r': Run)
    requires IsRun(r) && id in Last(r).streams && Last(r).streams[id].phase == Picking(p)
    requires Consistent(Last(r).shared.table) && Sound(Last(r).shared.table, p) && !Over(p)
    requires Advance(Last(r).sel, Last(r).shared, p, Last(r).clock, Last(r).clock) == (sh, p')
    ensures IsRun(r') && Last(r').sel == Last(r).sel && Last(r').clock == Last(r).clock && Last(r').shared == sh
    ensures Last(r').streams == Last(r).streams[id := Last(r).streams[id].(phase := Settle(p'))]
    ensures Consistent(sh.table)
    ensures r'.events == r.events + [Event(Last(r).clock, Last(r).clock, Step(id))] && r'.states == r.states + [Last(r')]
  {
    hide Advance;
    r' := GoOn(r, Last(r).clock, Step(id));
  }

  lemma SweepAt(r: Run, now: int) returns (r': Run)
    requires IsRun(r) && Last(r).clock <= now
    ensures Consistent(Last(r).shared.table)
    ensures IsRun(r') && Last(r').sel == Last(r).sel && Last(r').clock == now && Last(r').streams == Last(r).streams
    ensures Last(r').shared == Last(r).shared.(table := Sweep(Last(r).shared.table, now).0)
    ensures Consistent(Last(r').shared.table)
  {
    r' := GoOn(r, now, SweepTick);
  }

  /** Time passes; the online set is read as it was. */
  lemma WaitUntil(r: Run, now: int) returns (r': Run)
    requires IsRun(r) && Last(r).clock <= now
    ensures IsRun(r') && Last(r').sel == Last(r).sel && Last(r').clock == now && Last(r').streams == Last(r).streams
    ensures Last(r').shared == Last(r).shared && Consistent(Last(r).shared.table)
  {
    r' := GoOn(r, now, OnlineBecomes(Last(r).shared.online));
  }

  function Fresh(device: string): Shared { Shared(EMPTY, {device}, map[]) }

  /** One device online, of which nothing is known, is what a user of any country gets. */
  lemma OnlyChoice(device: string, now: int)
    ensures Choice(DEFAULT_SELECTOR, SnapshotSet(map[], Some({device})), "", {}, now) == Some(device)
  {
    var cs := SnapshotSet(map[], Some({device}));
    var c := CandidateOf(map[], device);
    assert cs == {c};
    assert Eligibles(DEFAULT_SELECTOR, cs, "", {}, now) == {c};
    ChoiceIs(DEFAULT_SELECTOR, cs, "", {}, now, c);
  }

  lemma NothingHeld(userKey: string, now: int)
    ensures Consistent(EMPTY) && HeldDeviceIDs(EMPTY, userKey, now) == (EMPTY, {})
    ensures GetActive(EMPTY, userKey, now) == (EMPTY, None)
  {
    assert EvictExpired(EMPTY, now) == EMPTY;
    assert HeldDeviceIDs(EMPTY, userKey, now).1 == {};
  }

  /** A first stream leases the only device. */
  lemma LeaseFirst(username: string, device: string) returns (r: Run)
    requires Parse(username).Ok? && Parse(username).value.country == ""
    ensures IsRun(r) && Last(r).clock == 0 && Last(r).streams.Keys == {0}
    ensures Last(r).shared.online == {device} && Consistent(Last(r).shared.table)
    ensures Live(Last(r).shared.table, 0)
    ensures |Last(r).shared.table.handles| == 1
    ensures var tok := Parse(username).value;
            Last(r).shared.table.leases == [LeaseData(tok.UserKey(), device, "", tok.duration, 1)]
  {
    hide Parse, SnapshotSet, Choice, GetActive, HeldDeviceIDs;
    var tok := Parse(username).value;
    var u, sh, cs := tok.UserKey(), Fresh(device), SnapshotSet(map[], Some({device}));
    r := Run([State(DEFAULT_SELECTOR, 0, sh, map[], [], [])], []);
    NothingHeld(u, 0);
    OnlyChoice(device, 0);
    r := OpenStream(r, 0, username);
    r := StepTo(r, 0, Starting(username, false), sh, AskingActive(tok, {device}));
    r := StepTo(r, 0, AskingActive(tok, {device}), sh, Snapshotting(tok, {device}));
    r := StepTo(r, 0, Snapshotting(tok, {device}), sh, AskingHeld(tok, cs, false));
    r := StepTo(r, 0, AskingHeld(tok, cs, false), sh, Selecting(tok, cs, {}, false));
    r := StepTo(r, 0, Selecting(tok, cs, {}, false), sh, Acquiring(tok, cs, device, false));
    var (t, g) := Acquire(EMPTY, u, device, "", tok.duration, 0, 0);
    r := StepTo(r, 0, Acquiring(tok, cs, device, false), sh.(table := t), Picked(tok, device, Ref(0)));
  }

  /**
   For every accepted username that asks for no country, and every device: a first stream leases the device,
   a second one finds that lease, the lease runs out and is swept, and then AcquireRef gives the second
   stream the no-op handle, with which it goes on to dial the device.
   */
  lemma MissHappens(username: string, device: string) returns (r: Run)
    requires Parse(username).Ok? && Parse(username).value.country == ""
    ensures IsRun(r) && |r.events| > 0 && |r.states| == |r.events| + 1
    ensures var before, after := r.states[|r.events| - 1], r.states[|r.events|];
            && r.events[|r.events| - 1].action == Step(1)
            && 1 in before.streams && before.streams[1].phase == Picking(Referencing(Parse(username).value, 0))
            && 1 in after.streams && after.streams[1] == Stream(username, Dialing(device, Noop))
            && after.shared.table.byUser == map[]
  {
    hide IsRun, Parse, Consistent, GetActive, AcquireRef, Sweep, Last;
    var tok := Parse(username).value;
    r := LeaseFirst(username, device);
    var sh := Last(r).shared;
    FoundThenGone(sh.table, tok.UserKey(), 0, tok.duration);
    r := OpenStream(r, 1, username);
    r := StepTo(r, 1, Starting(username, false), sh, AskingActive(tok, {device}));
    r := StepTo(r, 1, AskingActive(tok, {device}), sh, Referencing(tok, 0));
    r := SweepAt(r, tok.duration);
    var r1 := r;
    r := StepTo(r, 1, Referencing(tok, 0), Last(r).shared, Picked(tok, device, Noop));
    LastTwo(r1, r);
  }

  lemma LastTwo(r: Run, r': Run)
    requires IsRun(r) && IsRun(r') && |r'.events| == |r.events| + 1 && r'.states == r.states + [Last(r')]
    ensures |r'.states| == |r'.events| + 1 && r'.states[|r'.events|] == Last(r') && r'.states[|r'.events| - 1] == Last(r)
  {
  }

  /**
   Without the sweep, the second stream gets a real handle on a lease that has run out: AcquireRef does not
   look at the expiry.
   */
  lemma LateHappens(username: string, device: string) returns (r: Run)
    requires Parse(username).Ok? && Parse(username).value.country == ""
    ensures IsRun(r) && |r.states| == |r.events| + 1
    ensures var s := r.states[|r.events|];
            && 1 in s.streams && s.streams[1] == Stream(username, Dialing(device, Ref(1)))
            && |s.shared.table.leases| == 1 && Expired(s.shared.table.leases[0], s.clock)
            && |s.shared.table.handles| == 2 && s.shared.table.handles[1] == HandleState(0, false)
  {
    hide IsRun, Parse, Consistent, GetActive, Sweep, Last, Live;
    var tok := Parse(username).value;
    r := LeaseFirst(username, device);
    var sh := Last(r).shared;
    FoundThenGone(sh.table, tok.UserKey(), 0, tok.duration);
    r := OpenStream(r, 1, username);
    r := StepTo(r, 1, Starting(username, false), sh, AskingActive(tok, {device}));
    r := StepTo(r, 1, AskingActive(tok, {device}), sh, Referencing(tok, 0));
    r := WaitUntil(r, tok.duration);
    var (t, h) := AcquireRef(sh.table, 0);
    var r1 := r;
    r := StepTo(r, 1, Referencing(tok, 0), sh.(table := t), Picked(tok, device, h));
    LastTwo(r1, r);
  }

  /** The only lease in a table is found while it lasts; swept at its expiry, it is gone, and so is the table's content. */
  lemma FoundThenGone(t: Table, userKey: string, now: int, expires: int)
    requires Consistent(t) && |t.leases| == 1 && Live(t, 0) && t.leases[0].userKey == userKey
    requires t.leases[0].expires == expires && now < expires
    ensures GetActive(t, userKey, now) == (t, Some(0))
    ensures var swept := Sweep(t, expires).0;
            Consistent(swept) && swept.leases == t.leases && swept.byUser == map[] && AcquireRef(swept, 0) == (swept, Noop)
  {
  }

  /** With a username spelled out: five minutes, any country. */
  lemma MissExample(device: string) returns (r: Run)
    ensures IsRun(r) && |r.states| > 0 && 1 in r.states[|r.states| - 1].streams
    ensures r.states[|r.states| - 1].streams[1] == Stream(Asking(5), Dialing(device, Noop))
  {
    hide Parse, Asking, IsRun;
    AskingAccepted(5);
    r := MissHappens(Asking(5), device);
  }
}
