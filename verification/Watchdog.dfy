/**
 The heartbeat watchdog of a device connection: the reader notes the time of every heartbeat, and a ticker
 looks every third of the timeout whether the last one is too long ago.
 */
module Watchdog {
  import opened Division
  import opened Wrappers

  /** The times of the heartbeats, in order, none before the connection was registered. */
  ghost predicate InOrder(start: int, beats: seq<int>) {
    && (forall i :: 0 <= i < |beats| ==> start <= beats[i])
    && (forall i, j :: 0 <= i < j < |beats| ==> beats[i] <= beats[j])
  }

  function Period(timeout: int): (p: int)
    requires timeout >= 3
    ensures 1 <= p && 3 * p <= timeout
  {
    timeout / 3
  }

  /** The heartbeats seen by time `now`. */
  function Seen(beats: seq<int>, now: int): (n: nat)
    ensures n <= |beats|
    ensures n > 0 ==> beats[n - 1] <= now
    ensures forall i :: n <= i < |beats| ==> beats[i] > now
  {
    if beats == [] then 0
    else if beats[|beats| - 1] <= now then |beats|
    else Seen(beats[..|beats| - 1], now)
  }

  /** `lastBeat` at time `now`: the time of registration counts as a heartbeat. */
  function LastBeat(start: int, beats: seq<int>, now: int): int {
    if Seen(beats, now) == 0 then start else beats[Seen(beats, now) - 1]
  }

  function TickAt(start: int, timeout: int, k: nat): int
    requires timeout >= 3
  {
    start + Period(timeout) * k
  }

  lemma NextTick(start: int, timeout: int, k: nat)
    requires timeout >= 3
    ensures TickAt(start, timeout, k + 1) == TickAt(start, timeout, k) + Period(timeout)
  {
  }

  predicate Stale(start: int, timeout: int, beats: seq<int>, k: nat)
    requires timeout >= 3
  {
    TickAt(start, timeout, k) - LastBeat(start, beats, TickAt(start, timeout, k)) > timeout
  }

  /** The k-th tick finds the registration or a heartbeat at most the timeout before it. */
  ghost predicate Alive(start: int, timeout: int, beats: seq<int>, k: nat) {
    var now := start + timeout / 3 * k;
    || now - timeout <= start <= now
    || exists i :: 0 <= i < |beats| && now - timeout <= beats[i] <= now
  }

  /** `lastBeat` is the registration or a heartbeat, and none of them is between it and now. */
  lemma LastBeatIs(start: int, beats: seq<int>, now: int)
    requires InOrder(start, beats) && start <= now
    ensures var b := LastBeat(start, beats, now);
            && (b == start || b in beats) && start <= b <= now
            && forall i :: 0 <= i < |beats| && beats[i] <= now ==> beats[i] <= b
  {
    var n := Seen(beats, now);
    if n > 0 { assert beats[n - 1] in beats; }
  }

  lemma StaleIff(start: int, timeout: int, beats: seq<int>, k: nat)
    requires timeout >= 3 && InOrder(start, beats)
    ensures Stale(start, timeout, beats, k) <==> !Alive(start, timeout, beats, k)
  {
    LastBeatIs(start, beats, TickAt(start, timeout, k));
  }

  /** What the reader has noted by time `now`, from what it had noted before. */
  method CatchUp(ghost start: int, beats: seq<int>, read: nat, now: int) returns (n: nat)
    requires InOrder(start, beats)
    requires read <= |beats| && forall i :: 0 <= i < read ==> beats[i] <= now
    ensures n == Seen(beats, now) && forall i :: 0 <= i < n ==> beats[i] <= now
  {
    n := read;
    while n < |beats| && beats[n] <= now
      invariant n <= |beats| && forall i :: 0 <= i < n ==> beats[i] <= now
    {
      n := n + 1;
    }
    assert n > 0 ==> beats[n - 1] <= now;
    assert forall i :: n <= i < |beats| ==> now < beats[n] <= beats[i];
  }

  /**
   The watchdog over so many ticks: the tick at which it closes the connection, None if it does not. It closes
   at the first tick that finds no heartbeat within the timeout before it.
   */
  method Watch(start: int, timeout: int, beats: seq<int>, ticks: nat) returns (closing: Option<nat>)
    requires timeout >= 3 && InOrder(start, beats)
    ensures closing.Some? ==> 1 <= closing.value <= ticks && Stale(start, timeout, beats, closing.value)
    ensures forall k :: 1 <= k <= ticks && (closing.Some? ==> k < closing.value) ==> !Stale(start, timeout, beats, k)
    ensures closing.Some? ==> !Alive(start, timeout, beats, closing.value)
    ensures forall k :: 1 <= k <= ticks && (closing.Some? ==> k < closing.value) ==> Alive(start, timeout, beats, k)
  {
    var now := start;
    var read: nat := 0;
    assert now == TickAt(start, timeout, 0);
    forall k: nat ensures Stale(start, timeout, beats, k) <==> !Alive(start, timeout, beats, k) {
      StaleIff(start, timeout, beats, k);
    }
    hide TickAt, InOrder, Seen, Alive;
    for tick := 1 to ticks + 1
      invariant now == TickAt(start, timeout, tick - 1)
      invariant read <= |beats| && forall i :: 0 <= i < read ==> beats[i] <= now
      invariant forall k :: 1 <= k < tick ==> !Stale(start, timeout, beats, k)
    {
      NextTick(start, timeout, tick - 1);
      now := now + timeout / 3;
      read := CatchUp(start, beats, read, now);
      var lastBeat := if read == 0 then start else beats[read - 1];
      if now - lastBeat > timeout { return Some(tick); }
    }
    return None;
  }

  lemma LastBeatGrows(start: int, beats: seq<int>, now: int, later: int)
    requires InOrder(start, beats) && now <= later
    ensures start <= LastBeat(start, beats, now) <= LastBeat(start, beats, later)
  {
    var n, m := Seen(beats, now), Seen(beats, later);
    assert m >= n;
  }

  /**
   A connection is closed more than the timeout, and at most a third of it later, after its last heartbeat:
   never while heartbeats keep coming in time, and never much too late.
   */
  lemma ClosedInTime(start: int, timeout: int, beats: seq<int>, k: nat)
    requires timeout >= 3 && InOrder(start, beats) && k >= 1 && Stale(start, timeout, beats, k)
    requires forall j :: 1 <= j < k ==> !Stale(start, timeout, beats, j)
    ensures var b := LastBeat(start, beats, TickAt(start, timeout, k));
            b + timeout < TickAt(start, timeout, k) <= b + timeout + Period(timeout)
  {
    var t, p := TickAt(start, timeout, k), Period(timeout);
    NextTick(start, timeout, k - 1);
    LastBeatGrows(start, beats, t - p, t);
    if k > 1 { assert !Stale(start, timeout, beats, k - 1); }
  }

  /** Silence is noticed: after a quiet stretch of the timeout and a third, some tick has found the connection stale. */
  lemma SilenceNoticed(start: int, timeout: int, beats: seq<int>, b: int) returns (k: nat)
    requires timeout >= 3 && InOrder(start, beats) && start <= b
    requires LastBeat(start, beats, b + timeout + Period(timeout)) <= b
    ensures k >= 1 && TickAt(start, timeout, k) <= b + timeout + Period(timeout) && Stale(start, timeout, beats, k)
  {
    var p, d := Period(timeout), b + timeout - start;
    QuotientBounds(d, p);
    k := d / p + 1;
    NextTick(start, timeout, d / p);
    hide Period;
    LastBeatGrows(start, beats, TickAt(start, timeout, k), b + timeout + p);
  }
}
