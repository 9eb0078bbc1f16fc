/**
 The freshness stamp of a device, which the selector's staleness test reads: an update overwrites it, with
 no regard for the stamp it had. Here is exactly when it goes back, and when that costs a device its place.
 */
module Freshness {
  import opened Wrappers
  import opened Selector
  import opened Pool

  /** The stamp an update sets. */
  function Stamp(x: (DeviceUpdate, int)): int {
    if x.0.seenAt.Some? then x.0.seenAt.value else x.1
  }

  function SeenAt(es: seq<PoolEvent>, id: string): Option<int> {
    if id in After(es) then After(es)[id].lastSeen else None
  }

  predicate Nondecreasing(us: seq<(DeviceUpdate, int)>) {
    forall i, j :: 0 <= i < j < |us| ==> Stamp(us[i]) <= Stamp(us[j])
  }

  predicate NoEarlier(a: Option<int>, b: Option<int>) { a.Some? && b.Some? && a.value <= b.value }

  /** After j events the device is known, and it is not forgotten in the rest of the history. */
  ghost predicate KnownSince(es: seq<PoolEvent>, id: string, j: nat)
    requires j <= |es|
  {
    id in After(es[..j]) && forall m :: j <= m < |es| ==> es[m] != Forgot(id)
  }

  /** While the device has been known, its stamp has never gone back. */
  ghost predicate NeverBack(es: seq<PoolEvent>, id: string) {
    forall j: nat, k: nat :: j <= k <= |es| && KnownSince(es, id, j) ==> NoEarlier(SeenAt(es[..j], id), SeenAt(es[..k], id))
  }

  /** The stamp is the last update's. */
  lemma StampIsLast(es: seq<PoolEvent>, id: string)
    ensures id in After(es) <==> Since(es, id) != []
    ensures id in After(es) ==> SeenAt(es, id) == Some(Stamp(Since(es, id)[|Since(es, id)| - 1]))
    ensures id !in After(es) ==> SeenAt(es, id) == None
  {
    PoolAgreesWithHistory(es, id);
  }

  /** What one more event adds to the history of a device. */
  lemma SinceOneMore(es: seq<PoolEvent>, e: PoolEvent, id: string)
    ensures Since(es + [e], id)
            == if id == "" then [] else if e.id != id then Since(es, id) else if e.Forgot? then [] else Since(es, id) + [(e.u, e.now)]
  {
    assert (es + [e])[..|es|] == es;
  }

  lemma KnownOneMore(es: seq<PoolEvent>, e: PoolEvent, id: string, j: nat)
    requires j <= |es| + 1
    ensures (es + [e])[..j] == if j <= |es| then es[..j] else es + [e]
    ensures KnownSince(es + [e], id, j) <==>
            if j <= |es| then KnownSince(es, id, j) && e != Forgot(id) else id in After(es + [e])
  {
    var es' := es + [e];
    assert es'[..j] == if j <= |es| then es[..j] else es';
    if j <= |es| {
      assert es'[|es|] == e && forall m :: 0 <= m < |es| ==> es'[m] == es[m];
    }
  }

  /** A history that ends in anything but forgetting the device: its points compare as before, and with the new end. */
  lemma NeverBackOneMore(es: seq<PoolEvent>, e: PoolEvent, id: string)
    requires e != Forgot(id)
    ensures NeverBack(es + [e], id) <==>
            NeverBack(es, id)
            && forall j: nat :: j <= |es| && KnownSince(es, id, j) ==> NoEarlier(SeenAt(es[..j], id), SeenAt(es + [e], id))
  {
    var es' := es + [e];
    assert es'[..|es'|] == es';
    if NeverBack(es', id) {
      forall j: nat, k: nat | j <= k <= |es| && KnownSince(es, id, j)
        ensures NoEarlier(SeenAt(es[..j], id), SeenAt(es[..k], id)) && NoEarlier(SeenAt(es[..j], id), SeenAt(es', id))
      {
        KnownOneMore(es, e, id, j);
        KnownOneMore(es, e, id, k);
        assert NoEarlier(SeenAt(es'[..j], id), SeenAt(es'[..k], id));
        assert NoEarlier(SeenAt(es'[..j], id), SeenAt(es'[..|es'|], id));
      }
    }
    if NeverBack(es, id) && forall j: nat :: j <= |es| && KnownSince(es, id, j) ==> NoEarlier(SeenAt(es[..j], id), SeenAt(es', id)) {
      forall j: nat, k: nat | j <= k <= |es'| && KnownSince(es', id, j)
        ensures NoEarlier(SeenAt(es'[..j], id), SeenAt(es'[..k], id))
      {
        KnownOneMore(es, e, id, j);
        KnownOneMore(es, e, id, k);
        StampIsLast(es', id);
      }
    }
  }

  lemma ForgottenNeverBack(es: seq<PoolEvent>, id: string)
    requires es != [] && es[|es| - 1] == Forgot(id)
    ensures NeverBack(es, id) && Since(es, id) == []
  {
    assert es[..|es|] == es;
    StampIsLast(es, id);
  }

  lemma ForgettingLeavesNone(es: seq<PoolEvent>, id: string, j: nat)
    requires j <= |es| && KnownSince(es, id, j)
    ensures id in After(es)
    decreases |es| - j
  {
    if j == |es| {
      assert es[..j] == es;
    } else {
      assert es[..j + 1][..j] == es[..j] && es[..j + 1][j] == es[j];
      ForgettingLeavesNone(es, id, j + 1);
    }
  }

  /** Whether the new end is no earlier than any point of the device's history depends on the stamps so far. */
  lemma NewEnd(es: seq<PoolEvent>, id: string, end: int)
    requires NeverBack(es, id) && Nondecreasing(Since(es, id))
    ensures (forall j: nat :: j <= |es| && KnownSince(es, id, j) ==> NoEarlier(SeenAt(es[..j], id), Some(end)))
            <==> forall i :: 0 <= i < |Since(es, id)| ==> Stamp(Since(es, id)[i]) <= end
    ensures Since(es, id) == [] ==> forall j: nat :: j <= |es| ==> !KnownSince(es, id, j)
  {
    var us := Since(es, id);
    StampIsLast(es, id);
    assert es[..|es|] == es;
    if us == [] {
      forall j: nat | j <= |es| ensures !KnownSince(es, id, j) {
        if KnownSince(es, id, j) { ForgettingLeavesNone(es, id, j); }
      }
    } else {
      assert KnownSince(es, id, |es|);
      forall j: nat | j <= |es| && KnownSince(es, id, j) ensures NoEarlier(SeenAt(es[..j], id), SeenAt(es, id)) {
        assert NoEarlier(SeenAt(es[..j], id), SeenAt(es[..|es|], id));
      }
      assert forall i :: 0 <= i < |us| - 1 ==> Stamp(us[i]) <= Stamp(us[|us| - 1]);
      if forall j: nat :: j <= |es| && KnownSince(es, id, j) ==> NoEarlier(SeenAt(es[..j], id), Some(end)) {
        assert NoEarlier(SeenAt(es[..|es|], id), Some(end));
      }
    }
  }

  lemma NondecreasingOneMore(us: seq<(DeviceUpdate, int)>, x: (DeviceUpdate, int))
    ensures Nondecreasing(us + [x]) <==> Nondecreasing(us) && forall i :: 0 <= i < |us| ==> Stamp(us[i]) <= Stamp(x)
  {
    var us' := us + [x];
    assert us'[|us|] == x && forall i :: 0 <= i < |us| ==> us'[i] == us[i];
    if Nondecreasing(us') {
      forall i | 0 <= i < |us| ensures Stamp(us[i]) <= Stamp(x) { assert Stamp(us'[i]) <= Stamp(us'[|us|]); }
      forall i, j | 0 <= i < j < |us| ensures Stamp(us[i]) <= Stamp(us[j]) { assert Stamp(us'[i]) <= Stamp(us'[j]); }
    }
  }

  lemma NondecreasingNone()
    ensures Nondecreasing([])
  {
  }

  lemma NondecreasingLast(us: seq<(DeviceUpdate, int)>)
    requires Nondecreasing(us)
    ensures forall i :: 0 <= i < |us| ==> Stamp(us[i]) <= Stamp(us[|us| - 1])
  {
  }

  lemma NothingNeverBack(id: string)
    ensures NeverBack([], id) && Since([], id) == [] && Nondecreasing([])
  {
    assert After([]) == map[];
  }

  /**
   The stamp of a device never goes back, as long as it has been known, if and only if the times its
   heartbeats carry are in order.
   */
  lemma {:induction false} NeverBackIff(es: seq<PoolEvent>, id: string)
    ensures NeverBack(es, id) <==> Nondecreasing(Since(es, id))
  {
    hide NeverBack, KnownSince, Nondecreasing;
    if es == [] {
      NothingNeverBack(id);
    } else if es[|es| - 1] == Forgot(id) {
      ForgottenNeverBack(es, id);
      NondecreasingNone();
    } else {
      var init, e := es[..|es| - 1], es[|es| - 1];
      assert es == init + [e];
      NeverBackIff(init, id);
      NeverBackOneMore(init, e, id);
      SinceOneMore(init, e, id);
      StampIsLast(init, id);
      StampIsLast(es, id);
      if e.Updated? && e.id == id && id != "" { NondecreasingOneMore(Since(init, id), (e.u, e.now)); }
      if Nondecreasing(Since(init, id)) {
        var us := Since(init, id);
        NewEnd(init, id, if id in After(es) then SeenAt(es, id).value else 0);
        NondecreasingLast(us);
      }
    }
  }

  // ---------------------------------------------------------------- what it costs

  /**
   A heartbeat takes the place of a device that was eligible exactly if it reports another country than the
   one asked for, or if its own time is too old at the time of the pick; and the latter only by putting the
   stamp back.
   */
  lemma StaysEligibleIff(sel: ScoredSelector, es: seq<PoolEvent>, id: string, u: DeviceUpdate, now: int,
                         country: string, held: set<string>, at: int)
    requires id in After(es) && Eligible(sel, CandidateOf(After(es), id), country, held, at)
    ensures var late := sel.staleAfter > 0 && at - Stamp((u, now)) > sel.staleAfter;
            && (Eligible(sel, CandidateOf(After(es + [Updated(id, u, now)]), id), country, held, at) <==>
                  !late && (country == "" || u.country == "" || u.country == country))
            && (late ==> SeenAt(es, id).Some? && Stamp((u, now)) < SeenAt(es, id).value)
  {
    StampIsLast(es, id);
    assert (es + [Updated(id, u, now)])[..|es|] == es;
  }

  /** A heartbeat received at the time given, with nothing else in it. */
  function BareHeartbeat(id: string, recvMs: int): PoolEvent {
    Updated(id, HeartbeatUpdate(None, HeartbeatRecord(id, "", "", recvMs, None, None)), recvMs * 1_000_000)
  }

  /**
   Two heartbeats of one device, handed to the sink in the wrong order: the one received at 0 s arrives after
   the one received at 100 s. The stamp goes back, and the device, eligible before, is stale at 100 s.
   */
  lemma StampGoesBack(id: string)
    requires id != ""
    ensures var one := [BareHeartbeat(id, 100_000)];
            var two := one + [BareHeartbeat(id, 0)];
            && SeenAt(one, id) == Some(100_000_000_000) && SeenAt(two, id) == Some(0)
            && Eligible(DEFAULT_SELECTOR, CandidateOf(After(one), id), "", {}, 100_000_000_000)
            && !Eligible(DEFAULT_SELECTOR, CandidateOf(After(two), id), "", {}, 100_000_000_000)
  {
    var one := [BareHeartbeat(id, 100_000)];
    assert one[..0] == [] && After([]) == map[];
    assert (one + [BareHeartbeat(id, 0)])[..1] == one;
  }
}
