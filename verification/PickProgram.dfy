/**
 `Scheduler.Pick` as a program of steps. Pick is not atomic: it makes a chain of separately locked calls,
 and other requests, heartbeats and the sweeper may run between any two of them. Each step here is one
 locked region, or one local computation that reads the clock, together with the branch that follows it.
 */
module PickProgram {
  import opened Wrappers
  import opened LeaseTable
  import opened LazyExpiry
  import opened Selector
  import opened Pool
  import opened Username

  /** What the steps of a Pick share with everyone else. */
  datatype Shared = Shared(table: Table, online: set<string>, pool: map<string, DeviceStats>)

  datatype PickError = Cancelled | BadName(why: BadUsername) | NoDeviceOnline | NoDevice(country: string) | DeviceTaken

  /** Where a Pick has got to: the call it makes next, and its local variables. */
  datatype Pick =
    | Starting(username: string, cancelled: bool)
    | AskingActive(tok: UserToken, online: set<string>)
    | Referencing(tok: UserToken, lease: nat)
    | Snapshotting(tok: UserToken, online: set<string>)
    | AskingHeld(tok: UserToken, candidates: set<Candidate>, retry: bool)
    | Selecting(tok: UserToken, candidates: set<Candidate>, held: set<string>, retry: bool)
    | Acquiring(tok: UserToken, candidates: set<Candidate>, device: string, retry: bool)
    | Picked(tok: UserToken, device: string, handle: Handle)
    | Failed(error: PickError)

  predicate Over(p: Pick) { p.Picked? || p.Failed? }

  /** A Pick only refers to leases that exist. */
  predicate Sound(t: Table, p: Pick) {
    p.Referencing? ==> p.lease < |t.leases|
  }

  /** One step, with the one or two clock readings made in it. */
  ghost function Advance(sel: ScoredSelector, s: Shared, p: Pick, now: int, later: int): (r: (Shared, Pick))
    requires Consistent(s.table) && Sound(s.table, p) && !Over(p)
    ensures Consistent(r.0.table) && Sound(r.0.table, r.1)
    ensures r.0.online == s.online && r.0.pool == s.pool
  {
    match p
    case Starting(username, cancelled) =>
      if cancelled then (s, Failed(Cancelled))
      else (match Parse(username)
            case Err(why) => (s, Failed(BadName(why)))
            case Ok(tok) => if s.online == {} then (s, Failed(NoDeviceOnline)) else (s, AskingActive(tok, s.online)))
    case AskingActive(tok, online) =>
      var (t, l) := GetActive(s.table, tok.UserKey(), now);
      (s.(table := t),
       if l.Some? && t.leases[l.value].deviceID in online then Referencing(tok, l.value) else Snapshotting(tok, online))
    case Referencing(tok, i) =>
      var (t, h) := AcquireRef(s.table, i);
      (s.(table := t), Picked(tok, s.table.leases[i].deviceID, h))
    case Snapshotting(tok, online) =>
      (s, AskingHeld(tok, SnapshotSet(s.pool, Some(online)), false))
    case AskingHeld(tok, cs, retry) =>
      var (t, held) := HeldDeviceIDs(s.table, tok.UserKey(), now);
      (s.(table := t), Selecting(tok, cs, held, retry))
    case Selecting(tok, cs, held, retry) =>
      (match Choice(sel, cs, tok.country, held, now)
       case None => (s, Failed(NoDevice(tok.country)))
       case Some(d) => (s, Acquiring(tok, cs, d, retry)))
    case Acquiring(tok, cs, d, retry) =>
      var (t, r) := Acquire(s.table, tok.UserKey(), d, tok.country, tok.duration, now, later);
      (s.(table := t),
       if r.Some? then Picked(tok, d, Ref(r.value.1))
       else if retry then Failed(DeviceTaken) else AskingHeld(tok, cs, true))
  }

  // ---------------------------------------------------------------- an uninterrupted Pick

  /** The readings of a clock that never goes back. */
  ghost predicate Ordered(rs: seq<(int, int)>) {
    && (forall k :: 0 <= k < |rs| ==> rs[k].0 <= rs[k].1)
    && (forall k :: 0 <= k < |rs| - 1 ==> rs[k].1 <= rs[k + 1].0)
  }

  /** A Pick that runs alone from its step k on, with rs[k] the clock readings of that step. */
  ghost function Solo(sel: ScoredSelector, s: Shared, p: Pick, rs: seq<(int, int)>, k: nat): (r: (Shared, Pick))
    requires Consistent(s.table) && Sound(s.table, p) && k <= |rs|
    decreases |rs| - k
  {
    if Over(p) || k == |rs| then (s, p)
    else var (s', p') := Advance(sel, s, p, rs[k].0, rs[k].1); Solo(sel, s', p', rs, k + 1)
  }

  lemma SoloStep(sel: ScoredSelector, s: Shared, p: Pick, rs: seq<(int, int)>, k: nat, s': Shared, p': Pick)
    requires Consistent(s.table) && Sound(s.table, p) && !Over(p) && k < |rs|
    requires Advance(sel, s, p, rs[k].0, rs[k].1) == (s', p')
    ensures Consistent(s'.table) && Sound(s'.table, p')
    ensures Solo(sel, s, p, rs, k) == if Over(p') then (s', p') else Solo(sel, s', p', rs, k + 1)
  {
  }

  function HeldByOthers(t: Table, userKey: string, now: int): set<string>
    requires Consistent(t)
  {
    set d | d in t.byDev && Taken(t, userKey, d, now)
  }

  lemma SameHeldByOthers(t: Table, t': Table, userKey: string, now: int)
    requires Consistent(t) && Consistent(t') && Agree(t, t', now)
    ensures HeldByOthers(t, userKey, now) == HeldByOthers(t', userKey, now)
  {
    forall d ensures d in HeldByOthers(t, userKey, now) <==> d in HeldByOthers(t', userKey, now) {
      TakenAgrees(t, t', userKey, d, now);
      assert Taken(t, userKey, d, now) ==> d in t.byDev;
      assert Taken(t', userKey, d, now) ==> d in t'.byDev;
    }
  }

  /** The devices a fresh pick may use: online, of the right country, not stale, not held by others. */
  function Usable(sel: ScoredSelector, s: Shared, tok: UserToken, heldAt: int, now: int): set<Candidate>
    requires Consistent(s.table)
  {
    Eligibles(sel, SnapshotSet(s.pool, Some(s.online)), tok.country, HeldByOthers(s.table, tok.UserKey(), heldAt), now)
  }

  /** Lease i is the user's, unexpired, and its device is online. */
  predicate Reusable(s: Shared, tok: UserToken, i: nat, now: int) {
    Active(s.table, i, now) && s.table.leases[i].userKey == tok.UserKey() && s.table.leases[i].deviceID in s.online
  }

  lemma TakenEarlier(t: Table, userKey: string, d: string, now: int, later: int)
    requires Consistent(t) && now <= later && Taken(t, userKey, d, later)
    ensures Taken(t, userKey, d, now)
  {
  }

  lemma SoloParsed(sel: ScoredSelector, s: Shared, username: string, rs: seq<(int, int)>)
    requires Consistent(s.table) && |rs| >= 1 && Parse(username).Ok? && s.online != {}
    ensures Solo(sel, s, Starting(username, false), rs, 0)
            == Solo(sel, s, AskingActive(Parse(username).value, s.online), rs, 1)
  {
    SoloStep(sel, s, Starting(username, false), rs, 0, s, AskingActive(Parse(username).value, s.online));
  }

  /** The sticky path: the user's leased online device, one more reference, and nothing else. */
  lemma SoloReuses(sel: ScoredSelector, s: Shared, username: string, i: nat, rs: seq<(int, int)>)
    requires Consistent(s.table) && |rs| >= 3 && Parse(username).Ok?
    requires Reusable(s, Parse(username).value, i, rs[1].0)
    ensures Solo(sel, s, Starting(username, false), rs, 0)
            == (s.(table := AcquireRef(s.table, i).0),
                Picked(Parse(username).value, s.table.leases[i].deviceID, Ref(|s.table.handles|)))
  {
    var tok := Parse(username).value;
    SoloParsed(sel, s, username, rs);
    assert GetActive(s.table, tok.UserKey(), rs[1].0) == (s.table, Some(i));
    SoloStep(sel, s, AskingActive(tok, s.online), rs, 1, s, Referencing(tok, i));
    SoloStep(sel, s, Referencing(tok, i), rs, 2, s.(table := AcquireRef(s.table, i).0),
             Picked(tok, s.table.leases[i].deviceID, Ref(|s.table.handles|)));
  }

  /** With nothing to reuse, the first three steps leave the unexpired view alone and a fresh pick begins. */
  lemma SoloBegins(sel: ScoredSelector, s: Shared, username: string, rs: seq<(int, int)>) returns (s1: Shared)
    requires Consistent(s.table) && |rs| >= 3
    requires Parse(username).Ok? && s.online != {}
    requires forall i: nat :: !Reusable(s, Parse(username).value, i, rs[1].0)
    ensures Consistent(s1.table) && s1 == s.(table := s1.table) && Agree(s.table, s1.table, rs[1].0)
    ensures Solo(sel, s, Starting(username, false), rs, 0)
            == Solo(sel, s1, AskingHeld(Parse(username).value, SnapshotSet(s.pool, Some(s.online)), false), rs, 3)
  {
    var tok := Parse(username).value;
    SoloParsed(sel, s, username, rs);
    var (t1, l) := GetActive(s.table, tok.UserKey(), rs[1].0);
    s1 := s.(table := t1);
    assert l.Some? ==> !Reusable(s, tok, l.value, rs[1].0);
    SoloStep(sel, s, AskingActive(tok, s.online), rs, 1, s1, Snapshotting(tok, s.online));
    SoloStep(sel, s1, Snapshotting(tok, s.online), rs, 2,
             s1, AskingHeld(tok, SnapshotSet(s.pool, Some(s.online)), false));
  }

  /** A device chosen from what the held set leaves is not taken: the table has not changed since. */
  lemma ChosenNotTaken(sel: ScoredSelector, t: Table, userKey: string, cs: set<Candidate>, country: string, heldAt: int,
                       now: int, later: int)
    requires Consistent(t) && heldAt <= later
    ensures var c := Choice(sel, cs, country, HeldByOthers(t, userKey, heldAt), now);
            c.Some? ==> !Taken(EvictExpired(t, heldAt), userKey, c.value, later)
  {
    var c := Choice(sel, cs, country, HeldByOthers(t, userKey, heldAt), now);
    if c.Some? && Taken(EvictExpired(t, heldAt), userKey, c.value, later) {
      TakenEarlier(EvictExpired(t, heldAt), userKey, c.value, heldAt, later);
      assert false;
    }
  }

  lemma SoloFresh(sel: ScoredSelector, s: Shared, tok: UserToken, cs: set<Candidate>, rs: seq<(int, int)>, k: nat)
    requires Consistent(s.table) && k + 3 <= |rs| && rs[k].0 <= rs[k + 2].0
    ensures var c := Choice(sel, cs, tok.country, HeldByOthers(s.table, tok.UserKey(), rs[k].0), rs[k + 1].0);
            var t := EvictExpired(s.table, rs[k].0);
            && (c.Some? ==> !Taken(t, tok.UserKey(), c.value, rs[k + 2].0))
            && Solo(sel, s, AskingHeld(tok, cs, false), rs, k)
               == if c.None? then (s.(table := t), Failed(NoDevice(tok.country)))
                  else (s.(table := Acquire(t, tok.UserKey(), c.value, tok.country, tok.duration, rs[k + 2].0, rs[k + 2].1).0),
                        Picked(tok, c.value, Ref(|t.handles|)))
  {
    var held := HeldByOthers(s.table, tok.UserKey(), rs[k].0);
    var c := Choice(sel, cs, tok.country, held, rs[k + 1].0);
    var s1 := s.(table := EvictExpired(s.table, rs[k].0));
    SoloStep(sel, s, AskingHeld(tok, cs, false), rs, k, s1, Selecting(tok, cs, held, false));
    ChosenNotTaken(sel, s.table, tok.UserKey(), cs, tok.country, rs[k].0, rs[k + 1].0, rs[k + 2].0);
    if c.None? {
      SoloStep(sel, s1, Selecting(tok, cs, held, false), rs, k + 1, s1, Failed(NoDevice(tok.country)));
    } else {
      SoloStep(sel, s1, Selecting(tok, cs, held, false), rs, k + 1, s1, Acquiring(tok, cs, c.value, false));
      var t' := Acquire(s1.table, tok.UserKey(), c.value, tok.country, tok.duration, rs[k + 2].0, rs[k + 2].1).0;
      SoloStep(sel, s1, Acquiring(tok, cs, c.value, false), rs, k + 2, s1.(table := t'),
               Picked(tok, c.value, Ref(|s1.table.handles|)));
    }
  }

  /** What the last two steps do to the unexpired view. */
  lemma FreshLeaseView(t0: Table, t1: Table, tok: UserToken, d: Option<string>, heldAt: int, now: int, later: int)
    requires Consistent(t0) && Consistent(t1) && Agree(t0, t1, heldAt) && heldAt <= now <= later && tok.duration > 0
    ensures var t := EvictExpired(t1, heldAt);
            && Agree(t0, t, later)
            && (d.Some? && !Taken(t, tok.UserKey(), d.value, now) ==>
                  var t' := Acquire(t, tok.UserKey(), d.value, tok.country, tok.duration, now, later).0;
                  forall i: nat :: Active(t', i, later) <==>
                                   i == |t0.leases| || (Active(t0, i, later) && t0.leases[i].userKey != tok.UserKey()))
  {
    var t := EvictExpired(t1, heldAt);
    SweepAgrees(t1, t1, heldAt, heldAt);
    assert Agree(t0, t, heldAt);
    AgreeLater(t0, t, heldAt, later);
    if d.Some? && !Taken(t, tok.UserKey(), d.value, now) {
      var t' := Acquire(t, tok.UserKey(), d.value, tok.country, tok.duration, now, later).0;
      forall i: nat ensures Active(t', i, later) <==>
                            i == |t0.leases| || (Active(t0, i, later) && t0.leases[i].userKey != tok.UserKey()) {
        assert Active(t0, i, later) <==> Active(t, i, later);
      }
    }
  }

  /** The specification of a Pick that has no lease to reuse: what it returns, and what it leaves behind. */
  ghost predicate FreshPick(sel: ScoredSelector, s: Shared, tok: UserToken, usable: set<Candidate>, end: int,
                            s': Shared, p: Pick)
  {
    && s' == s.(table := s'.table) && Consistent(s'.table) && Over(p)
    && (p.Failed? <==> usable == {})
    && (p.Failed? ==> p.error == NoDevice(tok.country) && Agree(s.table, s'.table, end))
    && (p.Picked? ==>
          && p == Picked(tok, p.device, Ref(|s.table.handles|))
          && (exists c :: Best(sel, usable, c) && c.deviceID == p.device)
          && s'.table.leases == s.table.leases + [LeaseData(tok.UserKey(), p.device, tok.country, end + tok.duration, 1)]
          && s'.table.handles == s.table.handles + [HandleState(|s.table.leases|, false)]
          && (forall i: nat :: Active(s'.table, i, end) <==>
                               i == |s.table.leases| ||
                               (Active(s.table, i, end) && s.table.leases[i].userKey != tok.UserKey())))
  }

  /** The fresh pick's last three steps, as SoloFresh gives them, meet the specification. */
  lemma FreshPickMeets(sel: ScoredSelector, s: Shared, s1: Shared, tok: UserToken, heldAt: int, chosenAt: int, now: int, later: int)
    requires Consistent(s.table) && Consistent(s1.table) && s1 == s.(table := s1.table) && Agree(s.table, s1.table, heldAt)
    requires heldAt <= now <= later && tok.duration > 0
    ensures var cs := SnapshotSet(s.pool, Some(s.online));
            var c := Choice(sel, cs, tok.country, HeldByOthers(s.table, tok.UserKey(), heldAt), chosenAt);
            var t := EvictExpired(s1.table, heldAt);
            (c.Some? ==> !Taken(t, tok.UserKey(), c.value, now)) ==>
              FreshPick(sel, s, tok, Usable(sel, s, tok, heldAt, chosenAt), later,
                        s1.(table := if c.None? then t
                                     else Acquire(t, tok.UserKey(), c.value, tok.country, tok.duration, now, later).0),
                        if c.None? then Failed(NoDevice(tok.country)) else Picked(tok, c.value, Ref(|t.handles|)))
  {
    var cs := SnapshotSet(s.pool, Some(s.online));
    var c := Choice(sel, cs, tok.country, HeldByOthers(s.table, tok.UserKey(), heldAt), chosenAt);
    FreshLeaseView(s.table, s1.table, tok, c, heldAt, now, later);
    hide Consistent, HeldByOthers, Eligibles, SnapshotSet, Choice, SameActive, Live, Best, Taken;
  }

  /**
   An uninterrupted Pick refines its specification. For a parsed username it fails exactly when there is
   neither a lease to reuse nor a usable device, and then the unexpired leases are untouched; otherwise it
   returns the leased device (SoloReuses), or the usable device with the least (score, id), and installs
   exactly that lease. It never reaches the retry.
   */
  lemma SoloRefines(sel: ScoredSelector, s: Shared, username: string, rs: seq<(int, int)>)
    requires Consistent(s.table) && Ordered(rs) && |rs| >= 6
    requires Parse(username).Ok? && s.online != {}
    requires forall i: nat :: !Reusable(s, Parse(username).value, i, rs[1].0)
    ensures var tok := Parse(username).value;
            var (s', p) := Solo(sel, s, Starting(username, false), rs, 0);
            FreshPick(sel, s, tok, Usable(sel, s, tok, rs[3].0, rs[4].0), rs[5].1, s', p)
  {
    var tok := Parse(username).value;
    var u := tok.UserKey();
    var cs := SnapshotSet(s.pool, Some(s.online));
    assert rs[1].0 <= rs[2].0 <= rs[3].0 <= rs[4].0 <= rs[5].0 <= rs[5].1;
    var s1 := SoloBegins(sel, s, username, rs);
    AgreeLater(s.table, s1.table, rs[1].0, rs[3].0);
    SameHeldByOthers(s.table, s1.table, u, rs[3].0);
    SoloFresh(sel, s1, tok, cs, rs, 3);
    FreshPickMeets(sel, s, s1, tok, rs[3].0, rs[4].0, rs[5].0, rs[5].1);
    hide Consistent, Parse, Reusable, HeldByOthers, Usable, SnapshotSet, Choice, SameActive, Live, Ordered, Taken, FreshPick;
  }

  /** The three refusals that come first leave everything as it was. */
  lemma SoloRefusals(sel: ScoredSelector, s: Shared, username: string, cancelled: bool, rs: seq<(int, int)>)
    requires Consistent(s.table) && |rs| >= 1
    requires cancelled || Parse(username).Err? || s.online == {}
    ensures Solo(sel, s, Starting(username, cancelled), rs, 0).0 == s
    ensures Solo(sel, s, Starting(username, cancelled), rs, 0).1
            == Failed(if cancelled then Cancelled
                      else if Parse(username).Err? then BadName(Parse(username).error)
                      else NoDeviceOnline)
  {
    assert Over(Advance(sel, s, Starting(username, cancelled), rs[0].0, rs[0].1).1);
  }
}
