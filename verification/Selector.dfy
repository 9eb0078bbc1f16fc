/** The default device selector: filter, score, sort, take the head. */
module Selector {
  import opened Wrappers
  import opened Text
  import opened Sorting

  /** What the selector sees of a device. `lastSeen` is None for the zero time. */
  datatype Candidate = Candidate(deviceID: string, country: string, netType: string, avgRTT: int, lossRate: real,
                                 hasStats: bool, lastSeen: Option<int>)

  datatype Scored = Scored(id: string, score: real)

  datatype ScoredSelector = ScoredSelector(lossPenaltyMs: real, defaultRTTms: int, staleAfter: int)

  const DEFAULT_SELECTOR := ScoredSelector(1000.0, 200, 90_000_000_000)

  /** By score, then by device id. */
  predicate Before(a: Scored, b: Scored) {
    if a.score != b.score then a.score < b.score else Less(a.id, b.id)
  }

  predicate Eligible(sel: ScoredSelector, c: Candidate, country: string, held: set<string>, now: int) {
    && (country == "" || c.country == country)
    && !(sel.staleAfter > 0 && c.lastSeen.Some? && now - c.lastSeen.value > sel.staleAfter)
    && c.deviceID !in held
  }

  function Score(sel: ScoredSelector, c: Candidate): real {
    (if c.hasStats then c.avgRTT as real else sel.defaultRTTms as real) + sel.lossPenaltyMs * c.lossRate
  }

  function Rank(sel: ScoredSelector, c: Candidate): Scored { Scored(c.deviceID, Score(sel, c)) }

  // ---------------------------------------------------------------- the declarative choice

  function Elements(cs: seq<Candidate>): set<Candidate> { set c | c in cs }

  function Eligibles(sel: ScoredSelector, cs: set<Candidate>, country: string, held: set<string>, now: int): set<Candidate> {
    set c | c in cs && Eligible(sel, c, country, held, now)
  }

  /** c has the least (score, device id) of the candidates cs. */
  ghost predicate Best(sel: ScoredSelector, cs: set<Candidate>, c: Candidate) {
    c in cs && forall x :: x in cs ==> Rank(sel, x) == Rank(sel, c) || Before(Rank(sel, c), Rank(sel, x))
  }

  lemma BeforeTotal(a: Scored, b: Scored)
    ensures Before(a, b) || a == b || Before(b, a)
  {
    LessTotal(a.id, b.id);
  }

  lemma BeforeAsymmetric(a: Scored, b: Scored)
    requires Before(a, b)
    ensures !Before(b, a)
  {
    if a.score == b.score { LessAsymmetric(a.id, b.id); }
  }

  lemma BeforeTransitive(a: Scored, b: Scored, c: Scored)
    requires Before(a, b) && Before(b, c)
    ensures Before(a, c)
  {
    if a.score == b.score == c.score { LessTransitive(a.id, b.id, c.id); }
  }

  lemma {:induction false} BestExists(sel: ScoredSelector, cs: set<Candidate>)
    requires cs != {}
    ensures exists c :: Best(sel, cs, c)
    decreases |cs|
  {
    var x :| x in cs;
    var rest := cs - {x};
    if rest == {} {
      assert cs == {x};
      assert Best(sel, cs, x);
    } else {
      BestExists(sel, rest);
      var c :| Best(sel, rest, c);
      BeforeTotal(Rank(sel, c), Rank(sel, x));
      if Before(Rank(sel, x), Rank(sel, c)) {
        forall y | y in rest ensures Rank(sel, y) == Rank(sel, x) || Before(Rank(sel, x), Rank(sel, y)) {
          if Before(Rank(sel, c), Rank(sel, y)) { BeforeTransitive(Rank(sel, x), Rank(sel, c), Rank(sel, y)); }
        }
        assert Best(sel, cs, x);
      } else {
        assert Best(sel, cs, c);
      }
    }
  }

  /** Ties are broken completely: the winner's id does not depend on how it was found. */
  lemma BestUnique(sel: ScoredSelector, cs: set<Candidate>, c: Candidate, c': Candidate)
    requires Best(sel, cs, c) && Best(sel, cs, c')
    ensures c.deviceID == c'.deviceID && Score(sel, c) == Score(sel, c')
  {
    if Rank(sel, c) != Rank(sel, c') { BeforeAsymmetric(Rank(sel, c), Rank(sel, c')); }
  }

  /** The id of the best eligible candidate, None for ErrNoDevice. */
  ghost function Choice(sel: ScoredSelector, cs: set<Candidate>, country: string, held: set<string>, now: int)
    : (r: Option<string>)
    ensures r.None? <==> Eligibles(sel, cs, country, held, now) == {}
    ensures r.Some? ==> exists c :: Best(sel, Eligibles(sel, cs, country, held, now), c) && c.deviceID == r.value
  {
    var es := Eligibles(sel, cs, country, held, now);
    if es == {} then None
    else
      BestExists(sel, es);
      var c :| Best(sel, es, c);
      Some(c.deviceID)
  }

  lemma ChoiceIs(sel: ScoredSelector, cs: set<Candidate>, country: string, held: set<string>, now: int, c: Candidate)
    requires Best(sel, Eligibles(sel, cs, country, held, now), c)
    ensures Choice(sel, cs, country, held, now) == Some(c.deviceID)
  {
    var r := Choice(sel, cs, country, held, now);
    var w :| Best(sel, Eligibles(sel, cs, country, held, now), w) && w.deviceID == r.value;
    BestUnique(sel, Eligibles(sel, cs, country, held, now), c, w);
  }

  lemma EligiblesMean(sel: ScoredSelector, cs: set<Candidate>, country: string, held: set<string>, now: int)
    ensures forall x :: x in Eligibles(sel, cs, country, held, now) <==>
                        && x in cs && (country == "" || x.country == country)
                        && (sel.staleAfter <= 0 || x.lastSeen == None || now - x.lastSeen.value <= sel.staleAfter)
                        && x.deviceID !in held
  {
  }

  lemma NotWorseMeans(sel: ScoredSelector, c: Candidate, x: Candidate)
    requires Rank(sel, x) == Rank(sel, c) || Before(Rank(sel, c), Rank(sel, x))
    ensures var sc := (if c.hasStats then c.avgRTT else sel.defaultRTTms) as real + sel.lossPenaltyMs * c.lossRate;
            var sx := (if x.hasStats then x.avgRTT else sel.defaultRTTms) as real + sel.lossPenaltyMs * x.lossRate;
            sc < sx || (sc == sx && (c.deviceID == x.deviceID || Less(c.deviceID, x.deviceID)))
  {
  }

  lemma BestMeans(sel: ScoredSelector, cs: set<Candidate>, c: Candidate)
    requires Best(sel, cs, c)
    ensures c in cs
    ensures forall x :: x in cs ==>
              var sc := (if c.hasStats then c.avgRTT else sel.defaultRTTms) as real + sel.lossPenaltyMs * c.lossRate;
              var sx := (if x.hasStats then x.avgRTT else sel.defaultRTTms) as real + sel.lossPenaltyMs * x.lossRate;
              sc < sx || (sc == sx && (c.deviceID == x.deviceID || Less(c.deviceID, x.deviceID)))
  {
    forall x | x in cs
      ensures var sc := (if c.hasStats then c.avgRTT else sel.defaultRTTms) as real + sel.lossPenaltyMs * c.lossRate;
              var sx := (if x.hasStats then x.avgRTT else sel.defaultRTTms) as real + sel.lossPenaltyMs * x.lossRate;
              sc < sx || (sc == sx && (c.deviceID == x.deviceID || Less(c.deviceID, x.deviceID)))
    {
      NotWorseMeans(sel, c, x);
    }
  }

  /**
   What the choice is, written out: of the candidates that are of the country asked for, fresh and not held,
   one with the least round-trip time plus penalty for loss, and of those the one with the least id.
   */
  lemma ChoiceMeans(sel: ScoredSelector, cs: set<Candidate>, country: string, held: set<string>, now: int)
    ensures match Choice(sel, cs, country, held, now)
            case None =>
              forall x :: x in cs ==>
                !(&& (country == "" || x.country == country)
                  && (sel.staleAfter <= 0 || x.lastSeen == None || now - x.lastSeen.value <= sel.staleAfter)
                  && x.deviceID !in held)
            case Some(id) =>
              exists c :: c in cs && c.deviceID == id
                && (country == "" || c.country == country)
                && (sel.staleAfter <= 0 || c.lastSeen == None || now - c.lastSeen.value <= sel.staleAfter)
                && c.deviceID !in held
                && forall x ::
                     (&& x in cs
                      && (country == "" || x.country == country)
                      && (sel.staleAfter <= 0 || x.lastSeen == None || now - x.lastSeen.value <= sel.staleAfter)
                      && x.deviceID !in held) ==>
                     var sc := (if c.hasStats then c.avgRTT else sel.defaultRTTms) as real + sel.lossPenaltyMs * c.lossRate;
                     var sx := (if x.hasStats then x.avgRTT else sel.defaultRTTms) as real + sel.lossPenaltyMs * x.lossRate;
                     sc < sx || (sc == sx && (c.deviceID == x.deviceID || Less(c.deviceID, x.deviceID)))
  {
    hide Less, Before, Rank, Score, Eligible, Eligibles, Best;
    var es := Eligibles(sel, cs, country, held, now);
    EligiblesMean(sel, cs, country, held, now);
    match Choice(sel, cs, country, held, now)
    case None =>
    case Some(id) =>
      var c :| Best(sel, es, c) && c.deviceID == id;
      BestMeans(sel, es, c);
  }

  /** Taking a losing device away does not change the choice. */
  lemma LoserIrrelevant(sel: ScoredSelector, cs: set<Candidate>, country: string, held: set<string>, now: int, x: Candidate)
    requires Choice(sel, cs, country, held, now) != Some(x.deviceID)
    ensures Choice(sel, cs - {x}, country, held, now) == Choice(sel, cs, country, held, now)
  {
    var es := Eligibles(sel, cs, country, held, now);
    var es' := Eligibles(sel, cs - {x}, country, held, now);
    assert es' == es - {x};
    if es == {} {
    } else {
      var c :| Best(sel, es, c) && Some(c.deviceID) == Choice(sel, cs, country, held, now);
      assert Best(sel, es', c);
      ChoiceIs(sel, cs - {x}, country, held, now, c);
    }
  }

  // ---------------------------------------------------------------- the algorithm

  lemma BeforeOrders()
    ensures StrictWeakOrder(Before)
  {
    forall x, y | Before(x, y) ensures !Before(y, x) { BeforeAsymmetric(x, y); }
    forall x, y, z | !Before(y, x) && !Before(z, y) ensures !Before(z, x) {
      BeforeTotal(x, y);
      BeforeTotal(y, z);
      if Before(x, y) && Before(y, z) { BeforeTransitive(x, y, z); }
      if Before(z, x) { BeforeAsymmetric(z, x); }
    }
  }

  /** Every entry of `keep` is the rank of an eligible candidate. */
  ghost predicate Ranks(sel: ScoredSelector, es: set<Candidate>, keep: seq<Scored>) {
    forall k :: 0 <= k < |keep| ==> exists c :: c in es && keep[k] == Rank(sel, c)
  }

  lemma RankOneMore(sel: ScoredSelector, es: set<Candidate>, keep: seq<Scored>, c: Candidate)
    requires Ranks(sel, es, keep) && c in es
    ensures Ranks(sel, es, keep + [Rank(sel, c)])
  {
  }

  /** The filter: the ranks of the eligible candidates, and of no others. */
  method Keep(sel: ScoredSelector, candidates: seq<Candidate>, country: string, leasedByOthers: set<string>, now: int)
    returns (keep: seq<Scored>)
    ensures var es := Eligibles(sel, Elements(candidates), country, leasedByOthers, now);
            Ranks(sel, es, keep) && forall c :: c in es ==> Rank(sel, c) in keep
  {
    ghost var es := Eligibles(sel, Elements(candidates), country, leasedByOthers, now);
    keep := [];
    for i := 0 to |candidates|
      invariant Ranks(sel, es, keep)
      invariant forall k :: 0 <= k < i && candidates[k] in es ==> Rank(sel, candidates[k]) in keep
    {
      var c := candidates[i];
      if country != "" && c.country != country { continue; }
      if sel.staleAfter > 0 && c.lastSeen != None && now - c.lastSeen.value > sel.staleAfter { continue; }
      if c.deviceID in leasedByOthers { continue; }
      var rtt := c.avgRTT as real;
      if !c.hasStats { rtt := sel.defaultRTTms as real; }
      assert c in es;
      ghost var kept := keep;
      keep := keep + [Scored(c.deviceID, rtt + sel.lossPenaltyMs * c.lossRate)];
      RankOneMore(sel, es, kept, c);
      assert keep[|kept|] == Rank(sel, c) && forall s :: s in kept ==> s in keep;
    }
    forall c | c in es ensures Rank(sel, c) in keep {
      var k :| 0 <= k < |candidates| && candidates[k] == c;
    }
  }

  /** Sorting the ranks and taking the head. */
  method Head(sel: ScoredSelector, ghost es: set<Candidate>, keep: seq<Scored>) returns (r: Option<string>)
    requires Ranks(sel, es, keep) && forall c :: c in es ==> Rank(sel, c) in keep
    ensures r.None? ==> es == {}
    ensures r.Some? ==> exists c :: Best(sel, es, c) && c.deviceID == r.value
  {
    if |keep| == 0 {
      assert forall c :: c in es ==> Rank(sel, c) in keep;
      return None;
    }
    var a := new Scored[|keep|](i requires 0 <= i < |keep| => keep[i]);
    assert a[..] == keep;
    BeforeOrders();
    SortSlice(a, Before);
    HeadIsBest(sel, es, keep, a[..]);
    return Some(a[0].id);
  }

  /** `ScoredSelector.Pick`: None is ErrNoDevice. */
  method Pick(sel: ScoredSelector, candidates: seq<Candidate>, country: string, leasedByOthers: set<string>, now: int)
    returns (r: Option<string>)
    ensures r == Choice(sel, Elements(candidates), country, leasedByOthers, now)
    ensures match r
            case None =>
              forall x :: x in candidates ==>
                !(&& (country == "" || x.country == country)
                  && (sel.staleAfter <= 0 || x.lastSeen == None || now - x.lastSeen.value <= sel.staleAfter)
                  && x.deviceID !in leasedByOthers)
            case Some(id) =>
              exists c :: c in candidates && c.deviceID == id
                && (country == "" || c.country == country)
                && (sel.staleAfter <= 0 || c.lastSeen == None || now - c.lastSeen.value <= sel.staleAfter)
                && c.deviceID !in leasedByOthers
                && forall x ::
                     (&& x in candidates
                      && (country == "" || x.country == country)
                      && (sel.staleAfter <= 0 || x.lastSeen == None || now - x.lastSeen.value <= sel.staleAfter)
                      && x.deviceID !in leasedByOthers) ==>
                     var sc := (if c.hasStats then c.avgRTT else sel.defaultRTTms) as real + sel.lossPenaltyMs * c.lossRate;
                     var sx := (if x.hasStats then x.avgRTT else sel.defaultRTTms) as real + sel.lossPenaltyMs * x.lossRate;
                     sc < sx || (sc == sx && (c.deviceID == x.deviceID || Less(c.deviceID, x.deviceID)))
  {
    hide Eligibles, Ranks, Rank, Best, Less;
    ghost var cs := Elements(candidates);
    ghost var es := Eligibles(sel, cs, country, leasedByOthers, now);
    var keep := Keep(sel, candidates, country, leasedByOthers, now);
    r := Head(sel, es, keep);
    if r.Some? {
      ghost var c :| Best(sel, es, c) && c.deviceID == r.value;
      ChoiceIs(sel, cs, country, leasedByOthers, now, c);
    }
    ChoiceMeans(sel, cs, country, leasedByOthers, now);
  }

  lemma HeadIsBest(sel: ScoredSelector, es: set<Candidate>, keep: seq<Scored>, sorted: seq<Scored>)
    requires Ranks(sel, es, keep)
    requires forall c :: c in es ==> Rank(sel, c) in keep
    requires keep != [] && multiset(sorted) == multiset(keep) && Sorted(sorted, Before)
    ensures sorted != [] && exists c :: Best(sel, es, c) && c.deviceID == sorted[0].id
  {
    assert |sorted| == |multiset(sorted)| == |keep|;
    assert sorted[0] in multiset(keep);
    var k :| 0 <= k < |keep| && keep[k] == sorted[0];
    var c :| c in es && keep[k] == Rank(sel, c);
    forall x | x in es ensures Rank(sel, x) == Rank(sel, c) || Before(Rank(sel, c), Rank(sel, x)) {
      assert Rank(sel, x) in multiset(sorted);
      var j :| 0 <= j < |sorted| && sorted[j] == Rank(sel, x);
      BeforeTotal(sorted[0], sorted[j]);
    }
    assert Best(sel, es, c);
  }

  /** Any order of the candidates gives the same choice. */
  lemma OrderIrrelevant(sel: ScoredSelector, xs: seq<Candidate>, ys: seq<Candidate>, country: string, held: set<string>, now: int)
    requires multiset(xs) == multiset(ys)
    ensures Choice(sel, Elements(xs), country, held, now) == Choice(sel, Elements(ys), country, held, now)
  {
    forall c ensures c in xs <==> c in ys {
      assert c in multiset(xs) <==> c in multiset(ys);
    }
    assert Elements(xs) == Elements(ys);
  }
}
