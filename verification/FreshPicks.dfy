/**
 What a lease is granted for, in every interleaving: whenever Acquire succeeds, the device was in the online
 set its Pick had read, and was the best of the candidates that matched the country, were fresh and were not
 held by others, as its Pick saw them.
 */
module FreshPicks {
  import opened Wrappers
  import opened LeaseTable
  import opened Selector
  import opened Pool
  import opened Username
  import opened PickProgram
  import opened Interleaving
  import opened Retry

  lemma CameToChoice(sel: ScoredSelector, s: Shared, p: Pick, now: int, later: int, q: Pick)
    requires Consistent(s.table) && Sound(s.table, p) && !Over(p)
    requires Settle(Advance(sel, s, p, now, later).1) == Picking(q) && q.Acquiring?
    ensures p.Selecting? && p == Selecting(q.tok, q.candidates, p.held, q.retry)
    ensures Choice(sel, q.candidates, q.tok.country, p.held, now) == Some(q.device)
  {
    hide Parse, SnapshotSet, GetActive, Acquire, HeldDeviceIDs;
  }

  lemma CameToFirstHeld(sel: ScoredSelector, s: Shared, p: Pick, now: int, later: int, q: Pick)
    requires Consistent(s.table) && Sound(s.table, p) && !Over(p)
    requires Settle(Advance(sel, s, p, now, later).1) == Picking(q) && q.AskingHeld? && !q.retry
    ensures p.Snapshotting? && p.tok == q.tok && q.candidates == SnapshotSet(s.pool, Some(p.online))
  {
    hide Parse, GetActive, Acquire, HeldDeviceIDs, Choice;
  }

  lemma CameToSnapshot(sel: ScoredSelector, s: Shared, p: Pick, now: int, later: int, q: Pick)
    requires Consistent(s.table) && Sound(s.table, p) && !Over(p)
    requires Settle(Advance(sel, s, p, now, later).1) == Picking(q) && q.Snapshotting?
    ensures p == AskingActive(q.tok, q.online)
  {
    hide Parse, SnapshotSet, Acquire, HeldDeviceIDs, Choice;
  }

  lemma CameToAsk(sel: ScoredSelector, s: Shared, p: Pick, now: int, later: int, q: Pick)
    requires Consistent(s.table) && Sound(s.table, p) && !Over(p)
    requires Settle(Advance(sel, s, p, now, later).1) == Picking(q) && q.AskingActive?
    ensures p.Starting? && Parse(p.username) == Ok(q.tok) && q.online == s.online
  {
    hide SnapshotSet, GetActive, Acquire, HeldDeviceIDs, Choice;
  }

  /** How a Pick came by the device it tries to acquire at b: what it asked for at a, and chose at c. */
  lemma ChosenBefore(r: Run, b: nat, id: nat, q: Pick) returns (a: nat, c: nat, held: set<string>)
    requires IsRun(r) && StepsFrom(r, b, id, q) && q.Acquiring?
    ensures a < c < b && StepsFrom(r, a, id, AskingHeld(q.tok, q.candidates, q.retry))
    ensures Consistent(r.states[a].shared.table)
    ensures held == HeldDeviceIDs(r.states[a].shared.table, q.tok.UserKey(), r.events[a].now).1
    ensures StepsFrom(r, c, id, Selecting(q.tok, q.candidates, held, q.retry))
    ensures Choice(r.states[c].sel, q.candidates, q.tok.country, held, r.events[c].now) == Some(q.device)
  {
    hide IsRun, Okay, Enabled, Consistent, Advance, Choice;
    var p, p0;
    c, p := LastStep(r, b, id);
    StepTaken(r, c, id, p);
    CameToChoice(r.states[c].sel, r.states[c].shared, p, r.events[c].now, r.events[c].later, q);
    a, p0 := LastStep(r, c, id);
    StepTaken(r, a, id, p0);
    CameToSelect(r.states[a].sel, r.states[a].shared, p0, r.events[a].now, r.events[a].later, p);
    held := p.held;
  }

  /** Where the candidates come from: a snapshot for the online set read at the start, also on the second attempt. */
  lemma CandidatesFrom(r: Run, a: nat, id: nat, q: Pick) returns (start: nat, snap: nat, online: set<string>, first: Pick)
    requires IsRun(r) && StepsFrom(r, a, id, q) && q.AskingHeld?
    ensures start < snap < a && StepsFrom(r, snap, id, Snapshotting(q.tok, online))
    ensures q.candidates == SnapshotSet(r.states[snap].shared.pool, Some(online))
    ensures StepsFrom(r, start, id, first) && first.Starting? && online == r.states[start].shared.online
    decreases q.retry
  {
    hide IsRun, Okay, Enabled, Consistent, Advance, Choice, SnapshotSet;
    var c, p := LastStep(r, a, id);
    StepTaken(r, c, id, p);
    if q.retry {
      CameToRetry(r.states[c].sel, r.states[c].shared, p, r.events[c].now, r.events[c].later, q);
      var a0, c0, held := ChosenBefore(r, c, id, p);
      start, snap, online, first := CandidatesFrom(r, a0, id, AskingHeld(q.tok, q.candidates, false));
    } else {
      CameToFirstHeld(r.states[c].sel, r.states[c].shared, p, r.events[c].now, r.events[c].later, q);
      snap, online := c, p.online;
      start, first := OnlineReadAt(r, snap, id, p);
    }
  }

  lemma OnlineReadAt(r: Run, snap: nat, id: nat, q: Pick) returns (start: nat, first: Pick)
    requires IsRun(r) && StepsFrom(r, snap, id, q) && q.Snapshotting?
    ensures start < snap && StepsFrom(r, start, id, first) && first.Starting?
    ensures q.online == r.states[start].shared.online
  {
    hide IsRun, Okay, Enabled, Consistent, Advance;
    var c, p := LastStep(r, snap, id);
    StepTaken(r, c, id, p);
    CameToSnapshot(r.states[c].sel, r.states[c].shared, p, r.events[c].now, r.events[c].later, q);
    start, first := LastStep(r, c, id);
    StepTaken(r, start, id, first);
    CameToAsk(r.states[start].sel, r.states[start].shared, first, r.events[start].now, r.events[start].later, p);
  }

  /** The choice is the best of what is eligible, so it is one of the candidates, of the right country, fresh and not held. */
  lemma ChoiceJustified(sel: ScoredSelector, m: map<string, DeviceStats>, online: set<string>, country: string,
                        held: set<string>, now: int, device: string) returns (x: Candidate)
    requires Choice(sel, SnapshotSet(m, Some(online)), country, held, now) == Some(device)
    ensures x == CandidateOf(m, device) && device in online && device !in held
    ensures country == "" || x.country == country
    ensures !(sel.staleAfter > 0 && x.lastSeen.Some? && now - x.lastSeen.value > sel.staleAfter)
    ensures Best(sel, Eligibles(sel, SnapshotSet(m, Some(online)), country, held, now), x)
  {
    var es := Eligibles(sel, SnapshotSet(m, Some(online)), country, held, now);
    x :| Best(sel, es, x) && x.deviceID == device;
  }

  /**
   In every run: if the event at k grants a lease on device d, then its Pick read the online set at start, took
   its candidates at snap, read what others held at a, and chose at c; d was online at start, was not held at
   a, was of the country asked for and not stale at c, and was the best of all candidates of which that is true.
   */
  lemma GrantJustified(r: Run, k: nat) returns (start: nat, snap: nat, a: nat, c: nat, first: Pick, x: Candidate)
    requires IsRun(r) && k < |r.events| && Grants(r.states[k], r.events[k])
    ensures start < snap < a < c < k && StepsFrom(r, start, r.events[k].action.id, first) && first.Starting?
    ensures Consistent(r.states[a].shared.table)
    ensures var (tok, d) := Grantee(r.states[k], r.events[k]);
            var sel, online, m := r.states[c].sel, r.states[start].shared.online, r.states[snap].shared.pool;
            var held := HeldDeviceIDs(r.states[a].shared.table, tok.UserKey(), r.events[a].now).1;
            && d in online && !Taken(r.states[a].shared.table, tok.UserKey(), d, r.events[a].now)
            && x == CandidateOf(m, d) && (tok.country == "" || x.country == tok.country)
            && !(sel.staleAfter > 0 && x.lastSeen.Some? && r.events[c].now - x.lastSeen.value > sel.staleAfter)
            && Best(sel, Eligibles(sel, SnapshotSet(m, Some(online)), tok.country, held, r.events[c].now), x)
  {
    hide IsRun, Consistent, Advance, Choice, SnapshotSet, HeldDeviceIDs, Taken;
    RunStart(r);
    var id := r.events[k].action.id;
    var q := r.states[k].streams[id].phase.pick;
    var held, online;
    a, c, held := ChosenBefore(r, k, id, q);
    start, snap, online, first := CandidatesFrom(r, a, id, AskingHeld(q.tok, q.candidates, q.retry));
    x := ChoiceJustified(r.states[c].sel, r.states[snap].shared.pool, online, q.tok.country, held, r.events[c].now, q.device);
  }
}
