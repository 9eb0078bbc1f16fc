/** Which session serves which device: the last registration wins. */
module Registry {
  import opened Wrappers
  import opened Text
  import opened Sorting

  function PutIn<S>(m: map<string, S>, id: string, s: S): map<string, S> { m[id := s] }

  /** Only the session that is registered can be removed. */
  function RemoveFrom<S(==)>(m: map<string, S>, id: string, s: S): map<string, S> {
    if id in m && m[id] == s then m - {id} else m
  }

  datatype DialError = NoDeviceOnline | MultipleOnline(ids: seq<string>)

  ghost predicate Ascending(ids: seq<string>) {
    forall i, j :: 0 <= i < j < |ids| ==> Less(ids[i], ids[j])
  }

  /** The ids in ascending order, each once. */
  ghost predicate Lists(ids: seq<string>, all: set<string>) {
    Ascending(ids) && forall id :: id in all <==> id in ids
  }

  class Session {
    var closed: bool

    constructor ()
      ensures !closed
    {
      closed := false;
    }

    method Close()
      modifies this
      ensures closed
    {
      closed := true;
    }
  }

  class Registry {
    var sessions: map<string, Session>

    constructor ()
      ensures sessions == map[]
    {
      sessions := map[];
    }

    /** The session that the device had, if any, is closed and replaced. */
    method Put(deviceID: string, sess: Session)
      modifies this, if deviceID in sessions then {sessions[deviceID]} else {}
      ensures sessions == PutIn(old(sessions), deviceID, sess)
      ensures deviceID in old(sessions) ==> old(sessions)[deviceID].closed
    {
      if deviceID in sessions { sessions[deviceID].Close(); }
      sessions := sessions[deviceID := sess];
    }

    method Remove(deviceID: string, sess: Session)
      modifies this
      ensures sessions == RemoveFrom(old(sessions), deviceID, sess)
    {
      if deviceID in sessions && sessions[deviceID] == sess { sessions := sessions - {deviceID}; }
    }

    method OnlineSet() returns (out: set<string>)
      ensures out == sessions.Keys
    {
      out := {};
      var ids := sessions.Keys;
      while ids != {}
        invariant out + ids == sessions.Keys
        decreases |ids|
      {
        var id :| id in ids;
        ids, out := ids - {id}, out + {id};
      }
    }

    method ListOnline() returns (out: seq<string>)
      ensures Lists(out, sessions.Keys)
    {
      out := [];
      var ids := sessions.Keys;
      while ids != {}
        invariant forall id :: id in sessions.Keys <==> id in ids || id in out
        invariant forall id :: id in ids ==> id !in out
        invariant forall i, j :: 0 <= i < j < |out| ==> out[i] != out[j]
        decreases |ids|
      {
        var id :| id in ids;
        ids, out := ids - {id}, out + [id];
      }
      var a := new string[|out|](i requires 0 <= i < |out| => out[i]);
      assert a[..] == out;
      ghost var listed := out;
      LessOrders();
      SortSlice(a, Less);
      out := a[..];
      SortedAscends(listed, out);
    }

    /** With no username, only a single online device can be meant. */
    method ResolveDeviceForDial(socksUser: string) returns (r: Result<string, DialError>)
      ensures TrimSpace(socksUser) != "" ==> r == Ok(TrimSpace(socksUser))
      ensures TrimSpace(socksUser) == "" ==>
                match r
                case Ok(id) => sessions.Keys == {id}
                case Err(NoDeviceOnline) => sessions.Keys == {}
                case Err(MultipleOnline(ids)) => |sessions| > 1 && Lists(ids, sessions.Keys)
    {
      var u := TrimSpace(socksUser);
      if u != "" { return Ok(u); }
      assert |sessions| == |sessions.Keys|;
      if |sessions| == 0 { return Err(NoDeviceOnline); }
      if |sessions| == 1 {
        var id :| id in sessions;
        Singleton(sessions.Keys, id);
        return Ok(id);
      }
      var ids := ListOnline();
      return Err(MultipleOnline(ids));
    }

    /** Closes every session; the entries stay until each connection removes its own. */
    method CloseAll()
      modifies sessions.Values
      ensures forall id :: id in sessions ==> sessions[id].closed
    {
      var left := sessions.Values;
      while left != {}
        invariant left <= sessions.Values
        invariant forall s :: s in sessions.Values && s !in left ==> s.closed
        decreases |left|
      {
        var s :| s in left;
        s.Close();
        left := left - {s};
      }
    }
  }

  lemma Singleton(s: set<string>, x: string)
    requires |s| == 1 && x in s
    ensures s == {x}
  {
    assert |s - {x}| == 0;
  }

  lemma SortedAscends(ids: seq<string>, sorted: seq<string>)
    requires forall i, j :: 0 <= i < j < |ids| ==> ids[i] != ids[j]
    requires multiset(sorted) == multiset(ids) && Sorted(sorted, Less)
    ensures Ascending(sorted) && forall id :: id in sorted <==> id in ids
  {
    forall id ensures id in sorted <==> id in ids { assert id in multiset(sorted) <==> id in multiset(ids); }
    forall i, j | 0 <= i < j < |sorted| ensures Less(sorted[i], sorted[j]) {
      LessTotal(sorted[i], sorted[j]);
      if sorted[i] == sorted[j] {
        TwiceInMultiset(sorted, i, j);
        OnceInMultiset(ids, sorted[i]);
      }
    }
  }

  lemma {:induction false} OnceInMultiset(ids: seq<string>, x: string)
    requires forall i, j :: 0 <= i < j < |ids| ==> ids[i] != ids[j]
    ensures multiset(ids)[x] <= 1
  {
    if ids != [] {
      var init := ids[..|ids| - 1];
      OnceInMultiset(init, x);
      assert ids == init + [ids[|ids| - 1]];
      if x == ids[|ids| - 1] { assert x !in init; }
    }
  }

  // ---------------------------------------------------------------- connections over whole runs

  /**
   What `ServeDevice` does with the registry. Connection c has session number c: sessions are numbered in
   the order in which they are registered, so every session is fresh. A session may be closed at any time,
   by its peer, the watchdog, CloseAll or its own deferred Close.
   */
  datatype Event =
    | Register(id: string)     // Put, closing the session it replaces
    | CleanUp(c: nat)          // the deferred Remove of connection c
    | CloseSession(c: nat)

  datatype Hub = Hub(sessions: map<string, nat>, ids: seq<string>, cleaned: set<nat>, closed: set<nat>)

  const NO_DEVICES := Hub(map[], [], {}, {})

  /** A connection cleans up once, after it has registered. */
  predicate Possible(h: Hub, e: Event) {
    e.CleanUp? ==> e.c < |h.ids| && e.c !in h.cleaned
  }

  function Apply(h: Hub, e: Event): Hub
    requires Possible(h, e)
  {
    match e
    case Register(id) =>
      Hub(PutIn(h.sessions, id, |h.ids|), h.ids + [id], h.cleaned,
          h.closed + if id in h.sessions then {h.sessions[id]} else {})
    case CleanUp(c) => h.(sessions := RemoveFrom(h.sessions, h.ids[c], c), cleaned := h.cleaned + {c})
    case CloseSession(c) => h.(closed := h.closed + {c})
  }

  ghost predicate IsHistory(hs: seq<Hub>, es: seq<Event>) {
    && |hs| == |es| + 1 && hs[0] == NO_DEVICES
    && forall k :: 0 <= k < |es| ==> Possible(hs[k], es[k]) && hs[k + 1] == Apply(hs[k], es[k])
  }

  /** No later registration of connection c's device. */
  predicate Latest(h: Hub, c: nat) {
    c < |h.ids| && forall d :: c < d < |h.ids| ==> h.ids[d] != h.ids[c]
  }

  ghost predicate Exact(h: Hub) {
    && (forall c :: c in h.cleaned ==> c < |h.ids|)
    && (forall id :: id in h.sessions ==> h.sessions[id] < |h.ids| && h.ids[h.sessions[id]] == id)
    && (forall c: nat :: c < |h.ids| ==>
          (h.ids[c] in h.sessions && h.sessions[h.ids[c]] == c <==> Latest(h, c) && c !in h.cleaned))
    && (forall c: nat :: c < |h.ids| && !Latest(h, c) ==> c in h.closed || c in h.cleaned)
  }

  lemma LatestAfter(h: Hub, e: Event, c: nat)
    requires Possible(h, e) && c < |Apply(h, e).ids|
    ensures Latest(Apply(h, e), c) <==> c == |h.ids| || (Latest(h, c) && !(e.Register? && e.id == h.ids[c]))
  {
    var h' := Apply(h, e);
    if e.Register? && c < |h.ids| {
      assert h'.ids[|h.ids|] == e.id;
      assert forall d :: c < d < |h.ids| ==> h'.ids[d] == h.ids[d];
    }
  }

  lemma ExactPreserved(h: Hub, e: Event)
    requires Exact(h) && Possible(h, e)
    ensures Exact(Apply(h, e))
  {
    hide Latest;
    forall c: nat | c < |Apply(h, e).ids|
      ensures Latest(Apply(h, e), c) <==> c == |h.ids| || (Latest(h, c) && !(e.Register? && e.id == h.ids[c]))
    {
      LatestAfter(h, e, c);
    }
  }

  lemma {:induction false} ExactAlways(hs: seq<Hub>, es: seq<Event>, k: nat)
    requires IsHistory(hs, es) && k < |hs|
    ensures Exact(hs[k])
    decreases k
  {
    if k > 0 {
      ExactAlways(hs, es, k - 1);
      ExactPreserved(hs[k - 1], es[k - 1]);
    }
  }

  /**
   At every point of every run, a device's session is c exactly when c is its latest registration and c's
   own cleanup has not run; and a session that has been superseded is closed, unless its own cleanup came first.
   */
  lemma LastRegistrationWins(hs: seq<Hub>, es: seq<Event>, k: nat, id: string, c: nat)
    requires IsHistory(hs, es) && k < |hs|
    ensures id in hs[k].sessions && hs[k].sessions[id] == c <==>
            Latest(hs[k], c) && hs[k].ids[c] == id && c !in hs[k].cleaned
    ensures c < |hs[k].ids| && !Latest(hs[k], c) ==> c in hs[k].closed || c in hs[k].cleaned
  {
    ExactAlways(hs, es, k);
  }

  /** The late cleanup of a superseded connection changes nothing: its device stays online with the newer session. */
  lemma LateCleanUpHarmless(hs: seq<Hub>, es: seq<Event>, k: nat, c: nat, d: nat)
    requires IsHistory(hs, es) && k < |es| && es[k] == CleanUp(c)
    requires c < d < |hs[k].ids| && hs[k].ids[d] == hs[k].ids[c]
    ensures hs[k + 1].sessions == hs[k].sessions
    ensures Latest(hs[k], d) && d !in hs[k].cleaned ==>
              hs[k].ids[c] in hs[k + 1].sessions && hs[k + 1].sessions[hs[k].ids[c]] == d
  {
    ExactAlways(hs, es, k);
  }
}
