/** The in-memory snapshot of every device's most recently known network statistics. */
module Pool {
  import opened Wrappers
  import opened Text
  import opened Sorting
  import opened Selector

  datatype DeviceStats = DeviceStats(country: string, netType: string, avgRTT: int, lossRate: real, hasStats: bool,
                                     lastSeen: Option<int>)

  const NO_STATS := DeviceStats("", "", 0, 0.0, false, None)

  /** One heartbeat's worth of news; None and "" mean "not in this heartbeat". */
  datatype DeviceUpdate = DeviceUpdate(country: string, netType: string, avgRTTms: Option<int>, lossRate: Option<real>,
                                       seenAt: Option<int>)

  function Lookup(m: map<string, DeviceStats>, id: string): DeviceStats { if id in m then m[id] else NO_STATS }

  function Merge(cur: DeviceStats, u: DeviceUpdate, now: int): DeviceStats {
    DeviceStats(if u.country != "" then u.country else cur.country,
                if u.netType != "" then u.netType else cur.netType,
                if u.avgRTTms.Some? then u.avgRTTms.value else cur.avgRTT,
                if u.lossRate.Some? then u.lossRate.value else cur.lossRate,
                u.avgRTTms.Some? || u.lossRate.Some? || cur.hasStats,
                if u.seenAt.Some? then u.seenAt else Some(now))
  }

  function Merged(m: map<string, DeviceStats>, id: string, u: DeviceUpdate, now: int): map<string, DeviceStats> {
    if id == "" then m else m[id := Merge(Lookup(m, id), u, now)]
  }

  function CandidateOf(m: map<string, DeviceStats>, id: string): (c: Candidate)
    ensures c.deviceID == id
  {
    var s := Lookup(m, id);
    Candidate(id, s.country, s.netType, s.avgRTT, s.lossRate, s.hasStats, s.lastSeen)
  }

  /** The candidate shows what is stored for its device, or nothing at all for a device never heard of. */
  ghost predicate Shows(m: map<string, DeviceStats>, c: Candidate) {
    if c.deviceID in m then
      var s := m[c.deviceID];
      && c.country == s.country && c.netType == s.netType && c.avgRTT == s.avgRTT
      && c.lossRate == s.lossRate && c.hasStats == s.hasStats && c.lastSeen == s.lastSeen
    else
      && c.country == "" == c.netType && c.avgRTT == 0 && c.lossRate == 0.0
      && !c.hasStats && c.lastSeen == None
  }

  /** Every device that is online, or every known one if no online set is given, and no other, with what is stored for it. */
  ghost predicate ShowsAll(m: map<string, DeviceStats>, online: Option<set<string>>, r: seq<Candidate>) {
    && (forall k :: 0 <= k < |r| ==> Shows(m, r[k]))
    && (forall k :: 0 <= k < |r| ==> if online.Some? then r[k].deviceID in online.value else r[k].deviceID in m)
    && (forall id :: (if online.Some? then id in online.value else id in m) ==> exists k :: 0 <= k < |r| && r[k].deviceID == id)
  }

  /** After news of a device: what the news has is stored, what it lacks stays; other devices are not touched. */
  ghost predicate Reported(m: map<string, DeviceStats>, m': map<string, DeviceStats>, id: string, u: DeviceUpdate, now: int) {
    && m'.Keys == m.Keys + {id}
    && (forall other :: other in m && other != id ==> m'[other] == m[other])
    && var s := m'[id];
    && s.country == (if u.country != "" then u.country else if id in m then m[id].country else "")
    && s.netType == (if u.netType != "" then u.netType else if id in m then m[id].netType else "")
    && s.avgRTT == (if u.avgRTTms.Some? then u.avgRTTms.value else if id in m then m[id].avgRTT else 0)
    && s.lossRate == (if u.lossRate.Some? then u.lossRate.value else if id in m then m[id].lossRate else 0.0)
    && (s.hasStats <==> u.avgRTTms.Some? || u.lossRate.Some? || (id in m && m[id].hasStats))
    && s.lastSeen == Some(if u.seenAt.Some? then u.seenAt.value else now)
  }

  /** One candidate per device asked for; None asks for every device the pool knows. */
  function Asked(m: map<string, DeviceStats>, online: Option<set<string>>): set<string> {
    if online.Some? then online.value else m.Keys
  }

  function CandidatesOf(m: map<string, DeviceStats>, ids: set<string>): set<Candidate> {
    set id | id in ids :: CandidateOf(m, id)
  }

  function SnapshotSet(m: map<string, DeviceStats>, online: Option<set<string>>): set<Candidate> {
    CandidatesOf(m, Asked(m, online))
  }

  ghost predicate NoRepeats(s: seq<Candidate>) {
    forall c :: multiset(s)[c] <= 1
  }

  ghost predicate StrictlyById(s: seq<Candidate>) {
    forall i, j :: 0 <= i < j < |s| ==> Less(s[i].deviceID, s[j].deviceID)
  }

  predicate LessById(a: Candidate, b: Candidate) { Less(a.deviceID, b.deviceID) }

  lemma LessByIdOrders()
    ensures StrictWeakOrder(LessById)
  {
    LessOrders();
    forall x, y, z | !LessById(y, x) && !LessById(z, y) ensures !LessById(z, x) {
      assert !Less(y.deviceID, x.deviceID) && !Less(z.deviceID, y.deviceID);
    }
  }

  /** Sorting distinct entries that are determined by their id sorts them strictly. */
  lemma SortedDistinct(m: map<string, DeviceStats>, ids: set<string>, s: seq<Candidate>, sorted: seq<Candidate>)
    requires Filled(m, s, ids)
    requires multiset(sorted) == multiset(s) && Sorted(sorted, LessById)
    ensures StrictlyById(sorted) && Elements(sorted) == Elements(s)
  {
    forall c ensures c in Elements(sorted) <==> c in Elements(s) { assert c in multiset(sorted) <==> c in multiset(s); }
    forall i, j | 0 <= i < j < |sorted| ensures Less(sorted[i].deviceID, sorted[j].deviceID) {
      LessTotal(sorted[i].deviceID, sorted[j].deviceID);
      if sorted[i].deviceID == sorted[j].deviceID {
        assert sorted[i] in Elements(sorted) && sorted[j] in Elements(sorted);
        TwiceInMultiset(sorted, i, j);
      }
    }
  }

  lemma OneFewer(known: set<string>, ids: set<string>, asked: set<string>, id: string)
    requires id in ids && ids <= known
    ensures (known - (ids - {id})) * asked == (known - ids) * asked + if id in asked then {id} else {}
    ensures id !in (known - ids) * asked
  {
  }

  lemma OneMoreSeen(seen: set<string>, ids: set<string>, online: set<string>, id: string)
    requires id in ids && ids <= online
    ensures seen + (online - (ids - {id})) == seen + (online - ids) + if id in seen then {} else {id}
    ensures id !in seen ==> id !in seen + (online - ids)
  {
  }

  class DevicePool {
    var m: map<string, DeviceStats>

    constructor ()
      ensures m == map[]
    {
      m := map[];
    }

    method Update(deviceID: string, u: DeviceUpdate, now: int)
      modifies this
      ensures m == Merged(old(m), deviceID, u, now)
      ensures if deviceID == "" then m == old(m) else Reported(old(m), m, deviceID, u, now)
    {
      if deviceID == "" { return; }
      var cur := if deviceID in m then m[deviceID] else NO_STATS;
      if u.country != "" { cur := cur.(country := u.country); }
      if u.netType != "" { cur := cur.(netType := u.netType); }
      if u.avgRTTms.Some? { cur := cur.(avgRTT := u.avgRTTms.value, hasStats := true); }
      if u.lossRate.Some? { cur := cur.(lossRate := u.lossRate.value, hasStats := true); }
      if u.seenAt.Some? {
        cur := cur.(lastSeen := u.seenAt);
      } else {
        cur := cur.(lastSeen := Some(now));
      }
      m := m[deviceID := cur];
    }

    method Forget(deviceID: string)
      modifies this
      ensures m == old(m) - {deviceID}
    {
      m := m - {deviceID};
    }

    /** The devices the pool knows, in whatever order the map gives them. */
    method CollectKnown(online: Option<set<string>>) returns (out: seq<Candidate>, seen: set<string>)
      ensures seen == m.Keys * Asked(m, online)
      ensures Filled(m, out, seen)
    {
      out, seen := [], {};
      assert Filled(m, out, seen);
      hide Filled;
      ghost var known, asked := m.Keys, Asked(m, online);
      var ids := m.Keys;
      while ids != {}
        invariant ids <= known
        invariant seen == (known - ids) * asked
        invariant Filled(m, out, seen)
        decreases |ids|
      {
        var id :| id in ids;
        OneFewer(known, ids, asked, id);
        ids := ids - {id};
        if online.Some? && id !in online.value { continue; }
        FilledOneMore(m, out, seen, id);
        seen := seen + {id};
        var s := m[id];
        out := out + [Candidate(id, s.country, s.netType, s.avgRTT, s.lossRate, s.hasStats, s.lastSeen)];
      }
      assert seen == known * asked;
    }

    /** And those listed online that it has never heard of. */
    method CollectUnknown(online: set<string>, known: seq<Candidate>, seen: set<string>) returns (out: seq<Candidate>)
      requires Filled(m, known, seen) && seen == m.Keys * online
      ensures Filled(m, out, online)
    {
      hide Filled;
      out := known;
      ghost var done := seen;
      var ids := online;
      while ids != {}
        invariant ids <= online && done == seen + (online - ids)
        invariant Filled(m, out, done)
        decreases |ids|
      {
        var id :| id in ids;
        OneMoreSeen(seen, ids, online, id);
        ids := ids - {id};
        if id in seen { continue; }
        FilledOneMore(m, out, done, id);
        assert CandidateOf(m, id) == Candidate(id, "", "", 0, 0.0, false, None);
        done := done + {id};
        out := out + [Candidate(id, "", "", 0, 0.0, false, None)];
      }
      assert done == online;
    }

    method Snapshot(online: Option<set<string>>) returns (r: seq<Candidate>)
      ensures StrictlyById(r)
      ensures Elements(r) == SnapshotSet(m, online)
      ensures ShowsAll(m, online, r)
    {
      hide Filled, StrictlyById, CandidatesOf, ShowsAll, Elements;
      var out, seen := CollectKnown(online);
      if online.Some? { out := CollectUnknown(online.value, out, seen); }
      assert m.Keys * m.Keys == m.Keys;
      r := SortById(m, Asked(m, online), out);
      SnapshotShows(m, online, r);
    }
  }

  // ---------------------------------------------------------------- heartbeats

  /** What a device connection hands to the sink. */
  datatype HeartbeatRecord = HeartbeatRecord(deviceID: string, remoteIP: string, netType: string, serverRecvMs: int,
                                             avgRTTms: Option<int>, lossRate: Option<real>)

  /** Address parsing and the geo database: the country found, "" if there is none. */
  datatype Geo = Geo(parseIP: string -> Option<string>, country: string -> string)

  /** Milliseconds that stand for the zero time, which counts as no time at all. */
  const ZERO_TIME_MS: int := -62_135_596_800_000

  function CountryOf(geo: Option<Geo>, remoteIP: string): string {
    if remoteIP == "" || geo == None then ""
    else
      match geo.value.parseIP(remoteIP)
      case None => ""
      case Some(ip) => geo.value.country(ip)
  }

  function HeartbeatUpdate(geo: Option<Geo>, r: HeartbeatRecord): DeviceUpdate {
    DeviceUpdate(CountryOf(geo, r.remoteIP), r.netType, r.avgRTTms, r.lossRate,
                 if r.serverRecvMs == ZERO_TIME_MS then None else Some(r.serverRecvMs * 1_000_000))
  }

  /** The country of the address, if there is one, it parses, and there is a database to ask. */
  ghost predicate LocatedAt(geo: Option<Geo>, remoteIP: string, country: string) {
    if remoteIP != "" && geo.Some? && geo.value.parseIP(remoteIP).Some?
    then country == geo.value.country(geo.value.parseIP(remoteIP).value)
    else country == ""
  }

  /** The heartbeat sink up to its publishing; without a pool nothing is updated. */
  method OnHeartbeat(geo: Option<Geo>, pool: DevicePool?, r: HeartbeatRecord, now: int)
    modifies pool
    ensures pool != null ==> pool.m == Merged(old(pool.m), r.deviceID, HeartbeatUpdate(geo, r), now)
    ensures pool != null && r.deviceID == "" ==> pool.m == old(pool.m)
    ensures pool != null && r.deviceID != "" ==>
              exists country :: LocatedAt(geo, r.remoteIP, country)
                && Reported(old(pool.m), pool.m, r.deviceID,
                            DeviceUpdate(country, r.netType, r.avgRTTms, r.lossRate,
                                         if r.serverRecvMs == -62_135_596_800_000 then None else Some(r.serverRecvMs * 1_000_000)), now)
  {
    hide Reported;
    var country := "";
    if r.remoteIP != "" && geo != None {
      var ip := geo.value.parseIP(r.remoteIP);
      if ip != None { country := geo.value.country(ip.value); }
    }
    assert LocatedAt(geo, r.remoteIP, country);
    if pool != null {
      var seenAt := if r.serverRecvMs == ZERO_TIME_MS then None else Some(r.serverRecvMs * 1_000_000);
      pool.Update(r.deviceID, DeviceUpdate(country, r.netType, r.avgRTTms, r.lossRate, seenAt), now);
    }
  }

  method SortById(ghost m: map<string, DeviceStats>, ghost done: set<string>, out: seq<Candidate>)
    returns (r: seq<Candidate>)
    requires Filled(m, out, done)
    ensures StrictlyById(r)
    ensures Elements(r) == CandidatesOf(m, done)
  {
    var a := new Candidate[|out|](i requires 0 <= i < |out| => out[i]);
    assert a[..] == out;
    LessByIdOrders();
    SortSlice(a, LessById);
    SortedDistinct(m, done, out, a[..]);
    return a[..];
  }

  /** `out` has the candidate of each id in `done`, once, and nothing else. */
  ghost predicate Filled(m: map<string, DeviceStats>, out: seq<Candidate>, done: set<string>) {
    Elements(out) == CandidatesOf(m, done) && NoRepeats(out)
  }

  lemma FilledOneMore(m: map<string, DeviceStats>, out: seq<Candidate>, done: set<string>, id: string)
    requires Filled(m, out, done) && id !in done
    ensures Filled(m, out + [CandidateOf(m, id)], done + {id})
  {
    var c := CandidateOf(m, id);
    assert c !in Elements(out);
    assert multiset(out + [c]) == multiset(out) + multiset{c};
    assert Elements(out + [c]) == Elements(out) + {c};
    assert CandidatesOf(m, done + {id}) == CandidatesOf(m, done) + {c};
  }

  lemma SnapshotShows(m: map<string, DeviceStats>, online: Option<set<string>>, r: seq<Candidate>)
    requires Elements(r) == SnapshotSet(m, online)
    ensures ShowsAll(m, online, r)
  {
    forall k | 0 <= k < |r| ensures Shows(m, r[k]) && r[k].deviceID in Asked(m, online) {
      assert r[k] in Elements(r);
    }
    forall id | id in Asked(m, online) ensures exists k :: 0 <= k < |r| && r[k].deviceID == id {
      assert CandidateOf(m, id) in Elements(r);
    }
  }

  /** A strictly sorted snapshot has exactly one entry per device asked for, seen before or not. */
  lemma SnapshotOnePerDevice(m: map<string, DeviceStats>, online: Option<set<string>>, r: seq<Candidate>)
    requires StrictlyById(r) && Elements(r) == SnapshotSet(m, online)
    ensures |r| == |Asked(m, online)|
    ensures forall id :: id in Asked(m, online) ==> exists k :: 0 <= k < |r| && r[k] == CandidateOf(m, id)
    ensures forall j, k :: 0 <= j < |r| && 0 <= k < |r| && r[j].deviceID == r[k].deviceID ==> j == k
  {
    forall id | id in Asked(m, online) ensures exists k :: 0 <= k < |r| && r[k] == CandidateOf(m, id) {
      assert CandidateOf(m, id) in Elements(r);
    }
    forall j, k | 0 <= j < k < |r| ensures r[j].deviceID != r[k].deviceID { LessIrreflexive(r[k].deviceID); }
    IdsOf(r);
    forall id ensures id in Ids(r) <==> id in Asked(m, online) {
      if id in Asked(m, online) { assert CandidateOf(m, id) in Elements(r); }
      if id in Ids(r) {
        var k :| 0 <= k < |r| && r[k].deviceID == id;
        assert r[k] in SnapshotSet(m, online);
      }
    }
    assert Ids(r) == Asked(m, online);
  }

  ghost function Ids(r: seq<Candidate>): set<string> { set k | 0 <= k < |r| :: r[k].deviceID }

  lemma {:induction false} IdsOf(r: seq<Candidate>)
    requires forall j, k :: 0 <= j < k < |r| ==> r[j].deviceID != r[k].deviceID
    ensures |Ids(r)| == |r|
  {
    if r != [] {
      var init := r[..|r| - 1];
      IdsOf(init);
      assert Ids(r) == Ids(init) + {r[|r| - 1].deviceID};
    }
  }

  // ---------------------------------------------------------------- history

  datatype PoolEvent = Updated(id: string, u: DeviceUpdate, now: int) | Forgot(id: string)

  function After(es: seq<PoolEvent>): map<string, DeviceStats> {
    if es == [] then map[]
    else
      var m := After(es[..|es| - 1]);
      match es[|es| - 1]
      case Updated(id, u, now) => Merged(m, id, u, now)
      case Forgot(id) => m - {id}
  }

  /** The updates of a device since it was last forgotten, oldest first. */
  function Since(es: seq<PoolEvent>, id: string): seq<(DeviceUpdate, int)> {
    if es == [] || id == "" then []
    else
      var e, before := es[|es| - 1], Since(es[..|es| - 1], id);
      if e.id != id then before
      else if e.Forgot? then []
      else before + [(e.u, e.now)]
  }

  /** The index of the last update with a certain property, -1 if there is none. */
  function LastWith(us: seq<(DeviceUpdate, int)>, has: DeviceUpdate -> bool): (k: int)
    ensures -1 <= k < |us|
    ensures k >= 0 ==> has(us[k].0)
    ensures forall j :: k < j < |us| ==> !has(us[j].0)
  {
    if us == [] then -1
    else if has(us[|us| - 1].0) then |us| - 1
    else LastWith(us[..|us| - 1], has)
  }

  predicate HasCountry(u: DeviceUpdate) { u.country != "" }
  predicate HasNetType(u: DeviceUpdate) { u.netType != "" }
  predicate HasRTT(u: DeviceUpdate) { u.avgRTTms.Some? }
  predicate HasLoss(u: DeviceUpdate) { u.lossRate.Some? }

  /** Each field is the last non-empty value in us; the freshness stamp is the last update's. */
  ghost predicate Agrees(s: DeviceStats, us: seq<(DeviceUpdate, int)>) {
    && us != []
    && var c, n, r, l := LastWith(us, HasCountry), LastWith(us, HasNetType), LastWith(us, HasRTT), LastWith(us, HasLoss);
    && s.country == (if c < 0 then "" else us[c].0.country)
    && s.netType == (if n < 0 then "" else us[n].0.netType)
    && s.avgRTT == (if r < 0 then 0 else us[r].0.avgRTTms.value)
    && s.lossRate == (if l < 0 then 0.0 else us[l].0.lossRate.value)
    && (s.hasStats <==> r >= 0 || l >= 0)
    && s.lastSeen == if us[|us| - 1].0.seenAt.Some? then us[|us| - 1].0.seenAt else Some(us[|us| - 1].1)
  }

  lemma LastOneMore(us: seq<(DeviceUpdate, int)>, x: (DeviceUpdate, int), has: DeviceUpdate -> bool)
    ensures LastWith(us + [x], has) == if has(x.0) then |us| else LastWith(us, has)
  {
    assert (us + [x])[..|us|] == us;
  }

  lemma AgreesOneMore(s: DeviceStats, us: seq<(DeviceUpdate, int)>, u: DeviceUpdate, now: int)
    requires if us == [] then s == NO_STATS else Agrees(s, us)
    ensures Agrees(Merge(s, u, now), us + [(u, now)])
  {
    LastOneMore(us, (u, now), HasCountry);
    LastOneMore(us, (u, now), HasNetType);
    LastOneMore(us, (u, now), HasRTT);
    LastOneMore(us, (u, now), HasLoss);
  }

  /** The pool agrees with its history, device by device. */
  lemma {:induction false} PoolAgreesWithHistory(es: seq<PoolEvent>, id: string)
    ensures id in After(es) <==> Since(es, id) != []
    ensures id in After(es) ==> Agrees(After(es)[id], Since(es, id))
  {
    if es != [] {
      var init, e := es[..|es| - 1], es[|es| - 1];
      PoolAgreesWithHistory(init, id);
      if id != "" && e.Updated? && e.id == id {
        AgreesOneMore(Lookup(After(init), id), Since(init, id), e.u, e.now);
      }
    }
  }

  /** A device without statistics has zero RTT and zero loss, whatever happened to it before. */
  lemma NoStatsMeansZero(es: seq<PoolEvent>, online: Option<set<string>>, c: Candidate)
    requires c in SnapshotSet(After(es), online) && !c.hasStats
    ensures c.avgRTT == 0 && c.lossRate == 0.0
  {
    PoolAgreesWithHistory(es, c.deviceID);
  }
}
