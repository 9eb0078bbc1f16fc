/**
 The client's heartbeat statistics: a sliding window of round-trip times, shifted in place, and a tumbling
 window of losses; and the loop that drives them.
 */
module Heartbeat {
  import opened Division
  import opened Int64
  import opened Wrappers

  // ---------------------------------------------------------------- what the numbers mean

  /** What became of one heartbeat. After `Broken`, a failed write or read, the loop ends. */
  datatype Outcome = Acked(rttMs: int) | Unusable | Broken

  /** The metrics one heartbeat carries. */
  datatype Beat = Beat(avgRTTms: Option<int>, lossRate: Option<real>)

  function Max0(x: int): int { if x < 0 then 0 else x }

  function Last(k: nat, s: seq<int>): seq<int> { if |s| <= k then s else s[|s| - k..] }

  function Sum(s: seq<int>): int { if s == [] then 0 else Sum(s[..|s| - 1]) + s[|s| - 1] }

  /** Integer division as the client's language has it: towards zero. */
  function Quotient(a: int, b: nat): int
    requires b > 0
  {
    if a >= 0 then a / b else -((-a) / b)
  }

  /** q is a divided by b with the fraction cut off. */
  ghost predicate CutOff(a: int, b: nat, q: int) {
    if a >= 0 then b * q <= a < b * q + b else b * q - b < a <= b * q
  }

  lemma QuotientCutsOff(a: int, b: nat)
    requires b > 0
    ensures CutOff(a, b, Quotient(a, b))
  {
    if a >= 0 {
      QuotientBounds(a, b);
    } else {
      QuotientBounds(-a, b);
      assert b * -((-a) / b) == -(b * ((-a) / b));
    }
  }

  /** The average as computed: the sum wraps around at 64 bits. */
  function Average(s: seq<int>): int
    requires s != []
  {
    Quotient(Wrap64(Sum(s)), |s|)
  }

  /** The round-trip times measured so far, oldest first. */
  function Rtts(h: seq<Outcome>): seq<int> {
    if h == [] then []
    else Rtts(h[..|h| - 1]) + match h[|h| - 1] case Acked(rtt) => [Max0(rtt)] case _ => []
  }

  function Losses(h: seq<Outcome>): nat {
    if h == [] then 0 else Losses(h[..|h| - 1]) + if h[|h| - 1].Acked? then 0 else 1
  }

  /**
   What the heartbeat that follows history h must carry: the average of the last `w` round-trip times once
   there are that many, and after every `w` heartbeats the share of those that were lost.
   */
  function BeatAfter(w: nat, h: seq<Outcome>): Beat
    requires w > 0
  {
    Beat(if |Rtts(h)| >= w then Some(Average(Last(w, Rtts(h)))) else None,
         if h != [] && |h| % w == 0 then Some(Losses(h[|h| - w..]) as real / w as real) else None)
  }

  // ---------------------------------------------------------------- counters

  /** How many heartbeats the current loss window has, after n heartbeats in all. */
  function InWindow(w: nat, n: nat): (m: nat)
    requires w > 0
    ensures m <= w && m <= n && (n > 0 ==> m > 0)
  {
    if n == 0 then 0 else (n - 1) % w + 1
  }

  lemma InWindowFull(w: nat, n: nat)
    requires w > 0
    ensures InWindow(w, n) >= w <==> n > 0 && n % w == 0
  {
    if n > 0 { ModStep(w, n - 1); }
  }

  lemma InWindowNext(w: nat, n: nat)
    requires w > 0
    ensures InWindow(w, n + 1) == if InWindow(w, n) >= w then 1 else InWindow(w, n) + 1
  {
    if n > 0 { ModStep(w, n - 1); }
  }

  /** The outcomes in the current loss window. */
  function Current(w: nat, h: seq<Outcome>): seq<Outcome>
    requires w > 0
  {
    h[|h| - InWindow(w, |h|)..]
  }

  // ---------------------------------------------------------------- the specification, from outside

  /** The acknowledged heartbeats from place i on. */
  ghost function AckedFrom(h: seq<Outcome>, i: nat): set<nat> {
    set k: nat | i <= k < |h| && h[k].Acked?
  }

  /** The samples are the newest acknowledged times, newest last: as many as there are, up to w. */
  ghost predicate Newest(w: nat, samples: seq<int>, h: seq<Outcome>) {
    && |samples| == (if |AckedFrom(h, 0)| < w then |AckedFrom(h, 0)| else w)
    && forall i: nat :: i < |h| && h[i].Acked? && |AckedFrom(h, i + 1)| < w ==>
         var j := |AckedFrom(h, i + 1)|;
         j < |samples| && samples[|samples| - 1 - j] == if h[i].rttMs < 0 then 0 else h[i].rttMs
  }

  lemma AckedOneMore(h: seq<Outcome>, o: Outcome, i: nat)
    requires i <= |h|
    ensures |AckedFrom(h + [o], i)| == |AckedFrom(h, i)| + if o.Acked? then 1 else 0
  {
    var more := AckedFrom(h + [o], i);
    assert more == AckedFrom(h, i) + if o.Acked? then {|h|} else {};
  }

  /** The time at place i stands as far from the end as there are acknowledged heartbeats after it. */
  lemma {:induction false} RttsNewest(h: seq<Outcome>, i: nat)
    requires i < |h| && h[i].Acked?
    ensures |Rtts(h)| == |AckedFrom(h, 0)|
    ensures var j := |AckedFrom(h, i + 1)|;
            j < |Rtts(h)| && Rtts(h)[|Rtts(h)| - 1 - j] == if h[i].rttMs < 0 then 0 else h[i].rttMs
  {
    var init, o := h[..|h| - 1], h[|h| - 1];
    assert h == init + [o];
    RttsCount(h);
    AckedOneMore(init, o, 0);
    HistoryOneMore(init, o);
    if i < |init| {
      AckedOneMore(init, o, i + 1);
      RttsNewest(init, i);
    } else {
      assert AckedFrom(h, i + 1) == {};
    }
  }

  lemma {:induction false} RttsCount(h: seq<Outcome>)
    ensures |Rtts(h)| == |AckedFrom(h, 0)|
  {
    if h == [] {
      assert AckedFrom(h, 0) == {};
    } else {
      var init, o := h[..|h| - 1], h[|h| - 1];
      assert h == init + [o];
      RttsCount(init);
      AckedOneMore(init, o, 0);
      HistoryOneMore(init, o);
    }
  }

  lemma LastIsNewest(w: nat, h: seq<Outcome>)
    ensures Newest(w, Last(w, Rtts(h)), h)
  {
    hide Rtts;
    RttsCount(h);
    forall i: nat | i < |h| && h[i].Acked? && |AckedFrom(h, i + 1)| < w
      ensures var j, s := |AckedFrom(h, i + 1)|, Last(w, Rtts(h));
              j < |s| && s[|s| - 1 - j] == if h[i].rttMs < 0 then 0 else h[i].rttMs
    {
      RttsNewest(h, i);
    }
  }

  ghost function NotAcked(h: seq<Outcome>): set<nat> {
    set k: nat | k < |h| && !h[k].Acked?
  }

  /** The losses are the heartbeats that were not acknowledged. */
  lemma {:induction false} LossesCount(h: seq<Outcome>)
    ensures Losses(h) == |NotAcked(h)|
  {
    if h == [] {
      assert NotAcked(h) == {};
    } else {
      var init := h[..|h| - 1];
      LossesCount(init);
      assert NotAcked(h) == NotAcked(init) + if h[|h| - 1].Acked? then {} else {|h| - 1};
    }
  }

  /** The sum takes every sample once. */
  lemma {:induction false} SumOfParts(a: seq<int>, b: seq<int>)
    ensures Sum(a + b) == Sum(a) + Sum(b)
    ensures |a| == 1 ==> Sum(a) == a[0]
  {
    if |a| == 1 { assert a[..0] == []; }
    if b == [] {
      assert a + b == a;
    } else {
      SumOfParts(a, b[..|b| - 1]);
      assert (a + b)[..|a + b| - 1] == a + b[..|b| - 1];
    }
  }

  /**
   What a heartbeat carries, in these terms: the average of the newest w times, and the share of the last w
   heartbeats that were not acknowledged.
   */
  lemma BeatMeans(w: nat, h: seq<Outcome>) returns (samples: seq<int>)
    requires w > 0
    ensures Newest(w, samples, h)
    ensures BeatAfter(w, h).avgRTTms.Some? <==> |AckedFrom(h, 0)| >= w
    ensures |AckedFrom(h, 0)| >= w ==> CutOff(Wrap64(Sum(samples)), w, BeatAfter(w, h).avgRTTms.value)
    ensures |AckedFrom(h, 0)| >= w && Sum(samples) <= MAX_INT64 ==> BeatAfter(w, h).avgRTTms == Some(Sum(samples) / w)
    ensures BeatAfter(w, h).lossRate.Some? <==> |h| >= w && |h| % w == 0
    ensures |h| >= w && |h| % w == 0 ==>
              BeatAfter(w, h).lossRate
              == Some(|NotAcked(h[|h| - w..])| as real / w as real)
  {
    samples := Last(w, Rtts(h));
    LastIsNewest(w, h);
    RttsCount(h);
    RttsNotNegative(h);
    SumNotNegative(samples);
    WrapExactIff(Sum(samples));
    QuotientCutsOff(Wrap64(Sum(samples)), w);
    if |h| < w { ModSmall(w, |h|); }
    if |h| >= w { LossesCount(h[|h| - w..]); }
    hide Rtts, Sum, Losses;
  }

  lemma {:induction false} RttsNotNegative(h: seq<Outcome>)
    ensures forall k :: 0 <= k < |Rtts(h)| ==> Rtts(h)[k] >= 0
  {
    if h != [] { RttsNotNegative(h[..|h| - 1]); }
  }

  // ---------------------------------------------------------------- one more outcome

  lemma HistoryOneMore(h: seq<Outcome>, o: Outcome)
    ensures Rtts(h + [o]) == Rtts(h) + match o case Acked(rtt) => [Max0(rtt)] case _ => []
    ensures Losses(h + [o]) == Losses(h) + if o.Acked? then 0 else 1
    ensures Losses([o]) == if o.Acked? then 0 else 1
  {
    assert (h + [o])[..|h|] == h;
  }

  /** A full loss window is dropped before the next outcome, any other is extended by it. */
  lemma CurrentOneMore(w: nat, h: seq<Outcome>, o: Outcome)
    requires w > 0
    ensures Current(w, h + [o]) == if InWindow(w, |h|) >= w then [o] else Current(w, h) + [o]
  {
    InWindowNext(w, |h|);
  }

  /** The state that history h leads to: the last samples, and the counts of the current loss window. */
  ghost predicate Follows(w: nat, h: seq<Outcome>, samples: seq<int>, sent: int, lost: int) {
    w > 0 && samples == Last(w, Rtts(h)) && sent == InWindow(w, |h|) && lost == Losses(Current(w, h))
  }

  lemma {:induction false} LossesBounded(h: seq<Outcome>)
    ensures Losses(h) <= |h|
  {
    if h != [] { LossesBounded(h[..|h| - 1]); }
  }

  lemma SnapshotFollows(w: nat, h: seq<Outcome>, samples: seq<int>, sent: int, lost: int)
    requires Follows(w, h, samples, sent, lost)
    ensures 0 <= lost <= sent <= w
    ensures BeatAfter(w, h) == Beat(if |samples| >= w then Some(Average(samples)) else None,
                                    if sent >= w then Some(Rate(lost, sent)) else None)
  {
    LossesBounded(Current(w, h));
    InWindowFull(w, |h|);
  }

  lemma LastTwice(k: nat, s: seq<int>, x: int)
    requires k > 0
    ensures Last(k, Last(k, s) + [x]) == Last(k, s + [x])
  {
  }

  /** One more outcome, after the loss window was reset if it was full. */
  lemma OutcomeFollows(w: nat, h: seq<Outcome>, o: Outcome, samples: seq<int>, sent: int, lost: int)
    requires Follows(w, h, samples, sent, lost)
    ensures Follows(w, h + [o], match o case Acked(rtt) => Last(w, samples + [Max0(rtt)]) case _ => samples,
                    (if sent >= w then 0 else sent) + 1,
                    (if sent >= w then 0 else lost) + if o.Acked? then 0 else 1)
  {
    HistoryOneMore(h, o);
    HistoryOneMore(Current(w, h), o);
    InWindowNext(w, |h|);
    CurrentOneMore(w, h, o);
    if o.Acked? { LastTwice(w, Rtts(h), Max0(o.rttMs)); }
    hide Rtts, Losses, InWindow, Current, Last;
  }

  // ---------------------------------------------------------------- the tracker

  class HeartbeatStats {
    const window: nat
    const rtts: array<int>   // the backing array; the newest sample is at n - 1
    var n: nat
    var sent: int
    var lost: int

    ghost predicate Valid()
      reads this
    {
      window > 0 && rtts.Length == window && n <= window
    }

    /** The samples in the window, oldest first. */
    ghost function Samples(): seq<int>
      requires Valid()
      reads this, rtts
    {
      rtts[..n]
    }

    constructor (window: int)
      ensures Valid() && fresh(rtts) && this.window == (if window <= 0 then 5 else window)
      ensures Tracks([])
    {
      var w := if window <= 0 then 5 else window;
      this.window, rtts, n, sent, lost := w, new int[w], 0, 0, 0;
    }

    method Sent()
      requires Valid()
      modifies `sent
      ensures Valid() && sent == old(sent) + 1
    {
      sent := sent + 1;
    }

    /** Negative times count as zero. A full window drops its oldest sample by shifting the rest in place. */
    method AckOK(rttMs: int)
      requires Valid()
      modifies `n, rtts
      ensures Valid()
      ensures Samples() == Last(window, old(Samples()) + [Max0(rttMs)])
      ensures Samples() == (if old(n) >= window then old(Samples())[1..] else old(Samples())) + [if rttMs < 0 then 0 else rttMs]
    {
      var rtt := rttMs;
      if rtt < 0 { rtt := 0; }
      if n >= window {
        for i := 0 to n - 1
          modifies rtts
          invariant forall k :: 0 <= k < i ==> rtts[k] == old(rtts[k + 1])
          invariant forall k :: i <= k < window ==> rtts[k] == old(rtts[k])
        {
          rtts[i] := rtts[i + 1];
        }
        n := n - 1;
      }
      ghost var kept := rtts[..n];
      assert kept == if old(n) >= window then old(Samples())[1..] else old(Samples());
      rtts[n] := rtt;
      n := n + 1;
      assert rtts[..n] == kept + [rtt];
    }

    method AckLost()
      requires Valid()
      modifies `lost
      ensures Valid() && lost == old(lost) + 1
    {
      lost := lost + 1;
    }

    method SnapshotForSend() returns (r: Beat)
      requires Valid()
      modifies `sent, `lost
      ensures Valid()
      ensures r.avgRTTms == if n >= window then Some(Average(Samples())) else None
      ensures r.lossRate == if old(sent) >= window then Some(Rate(old(lost), old(sent))) else None
      ensures if old(sent) >= window then sent == lost == 0 else sent == old(sent) && lost == old(lost)
    {
      var avg, loss := None, None;
      if n >= window {
        var sum := 0;
        for i := 0 to n
          modifies {}
          invariant sum == Wrap64(Sum(rtts[..i]))
        {
          assert rtts[..i + 1][..i] == rtts[..i];
          WrapSum(Sum(rtts[..i]), rtts[i]);
          sum := Wrap64(sum + rtts[i]);
        }
        avg := Some(Quotient(sum, n));
      }
      if sent >= window {
        var lr := lost as real / sent as real;
        if lr < 0.0 { lr := 0.0; }
        if lr > 1.0 { lr := 1.0; }
        loss := Some(lr);
        sent, lost := 0, 0;
      }
      r := Beat(avg, loss);
    }

    /** The tracker's state is what history h says it must be. */
    ghost predicate Tracks(h: seq<Outcome>)
      reads this, rtts
    {
      Valid() && Follows(window, h, Samples(), sent, lost)
    }
  }

  function Rate(lost: int, sent: int): (r: real)
    requires sent > 0
    ensures 0 <= lost <= sent ==> r == lost as real / sent as real
    ensures 0.0 <= r <= 1.0
  {
    var lr := lost as real / sent as real;
    if lr < 0.0 then 0.0 else if lr > 1.0 then 1.0 else lr
  }

  // ---------------------------------------------------------------- the loop

  /** Never more losses than heartbeats in the window, never more heartbeats than its size. */
  lemma TracksBounded(stats: HeartbeatStats, h: seq<Outcome>)
    requires stats.Tracks(h)
    ensures 0 <= stats.lost <= stats.sent <= stats.window
  {
    SnapshotFollows(stats.window, h, stats.Samples(), stats.sent, stats.lost);
  }

  lemma TracksNewest(stats: HeartbeatStats, h: seq<Outcome>)
    requires stats.Tracks(h)
    ensures Newest(stats.window, stats.Samples(), h)
  {
    LastIsNewest(stats.window, h);
  }

  /** One tick of the loop. */
  method Tick(stats: HeartbeatStats, o: Outcome, ghost h: seq<Outcome>) returns (beat: Beat)
    requires stats.Tracks(h)
    modifies stats, stats.rtts
    ensures stats.Tracks(h + [o]) && beat == BeatAfter(stats.window, h)
  {
    SnapshotFollows(stats.window, h, stats.Samples(), stats.sent, stats.lost);
    OutcomeFollows(stats.window, h, o, stats.Samples(), stats.sent, stats.lost);
    hide Follows, BeatAfter, Average, Rate, Last;
    beat := stats.SnapshotForSend();
    stats.Sent();
    match o {
      case Acked(rtt) => stats.AckOK(if rtt < 0 then 0 else rtt);
      case Unusable => stats.AckLost();
      case Broken => stats.AckLost();
    }
  }

  /**
   `heartbeatLoop`: one heartbeat for each outcome in turn, up to the first failed write or read. The
   tracker may have a history h of earlier connections. Every heartbeat carries what the history calls for.
   */
  method HeartbeatLoop(stats: HeartbeatStats, outcomes: seq<Outcome>, ghost h: seq<Outcome>) returns (beats: seq<Beat>)
    requires stats.Tracks(h)
    modifies stats, stats.rtts
    ensures |beats| <= |outcomes| && stats.Tracks(h + outcomes[..|beats|])
    ensures forall k :: 0 <= k < |beats| ==> beats[k] == BeatAfter(stats.window, h + outcomes[..k])
    ensures forall k :: 0 <= k < |beats| - 1 ==> outcomes[k] != Broken
    ensures |beats| < |outcomes| ==> beats != [] && outcomes[|beats| - 1] == Broken
    ensures Newest(stats.window, stats.Samples(), h + outcomes[..|beats|])
  {
    hide BeatAfter, Follows, Newest;
    beats := [];
    ghost var past := h;
    for i := 0 to |outcomes|
      invariant |beats| == i && past == h + outcomes[..i] && stats.Tracks(past)
      invariant forall k :: 0 <= k < i ==> beats[k] == BeatAfter(stats.window, h + outcomes[..k])
      invariant forall k :: 0 <= k < i ==> outcomes[k] != Broken
    {
      var beat := Tick(stats, outcomes[i], past);
      beats, past := beats + [beat], past + [outcomes[i]];
      assert past == h + outcomes[..i + 1];
      if outcomes[i] == Broken {
        TracksNewest(stats, past);
        return;
      }
    }
    TracksNewest(stats, past);
  }

  // ---------------------------------------------------------------- what the average is worth

  lemma {:induction false} SumBetween(s: seq<int>, lo: int, hi: int)
    requires forall k :: 0 <= k < |s| ==> lo <= s[k] <= hi
    ensures lo * |s| <= Sum(s) <= hi * |s|
  {
    if s != [] { SumBetween(s[..|s| - 1], lo, hi); }
  }

  lemma {:induction false} SumNotNegative(s: seq<int>)
    requires forall k :: 0 <= k < |s| ==> 0 <= s[k]
    ensures Sum(s) >= 0
  {
    if s != [] { SumNotNegative(s[..|s| - 1]); }
  }

  lemma WrappedQuotientDiffers(a: nat, n: nat)
    requires 0 < n <= MAX_INT64 < a
    ensures Quotient(Wrap64(a), n) != a / n
  {
    var w := Wrap64(a);
    assert w <= a - 0x1_0000_0000_0000_0000;
    if w >= 0 {
      SameQuotientClose(a, w, n);
    } else {
      QuotientPositive(a, n);
      QuotientNotNegative(-w, n);
    }
  }

  /** The average is the true one, rounded down, exactly when the sum fits in 64 bits. */
  lemma AverageExactIff(s: seq<int>)
    requires s != [] && |s| <= MAX_INT64 && forall k :: 0 <= k < |s| ==> 0 <= s[k] <= MAX_INT64
    ensures Average(s) == Sum(s) / |s| <==> Sum(s) <= MAX_INT64
  {
    SumBetween(s, 0, MAX_INT64);
    WrapExactIff(Sum(s));
    if Sum(s) > MAX_INT64 { WrappedQuotientDiffers(Sum(s), |s|); }
  }

  /** Then it lies between any bounds on the samples, in particular between their least and their greatest. */
  lemma AverageBetween(s: seq<int>, lo: int, hi: int)
    requires s != [] && forall k :: 0 <= k < |s| ==> 0 <= lo <= s[k] <= hi
    requires Sum(s) <= MAX_INT64
    ensures lo <= Average(s) <= hi
  {
    SumBetween(s, lo, hi);
    WrapExactIff(Sum(s));
    SumNotNegative(s);
    QuotientBetween(Sum(s), |s|, lo, hi);
  }

  /** Two samples whose sum does not fit: their average is reported as negative. */
  lemma AverageOverflows()
    ensures Average([MAX_INT64, MAX_INT64]) == -1
  {
    assert [MAX_INT64, MAX_INT64][..1] == [MAX_INT64];
    assert Sum([MAX_INT64]) == MAX_INT64;
  }
}
