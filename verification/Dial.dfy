/**
 The SOCKS5 dial callback and the connection it hands out: whatever happens, a handle that Pick returned is
 either closed before the callback returns an error, or held by exactly one wrapped connection.
 */
module Dial {
  import opened Wrappers
  import T = LeaseTable
  import opened Leases
  import opened Registry
  import opened Scheduler
  import opened Text
  import P = PickProgram

  /** A stream through a device. Its Close may report an error. */
  class Conn {
    const device: string
    const failure: Option<string>
    var closes: nat

    constructor (device: string, failure: Option<string>)
      ensures this.device == device && this.failure == failure && closes == 0
    {
      this.device, this.failure, closes := device, failure, 0;
    }

    method Close() returns (err: Option<string>)
      modifies this
      ensures err == failure && closes == old(closes) + 1
    {
      closes := closes + 1;
      err := failure;
    }
  }

  method CloseRef(sl: StickyLeases, h: HandleRef)
    requires sl.Valid() && Issued(sl, h)
    modifies if h.RealHandle? then {h.handle, h.handle.l} else {}, sl`t
    ensures sl.Valid() && (h.RealHandle? ==> h.handle.closed)
    ensures sl.t == T.Close(old(sl.t), HandleValue(h))
  {
    if h.RealHandle? { h.handle.Close(); }
  }

  /** The wrapper that lets go of the lease when the stream ends. */
  class LeasedConn {
    const conn: Conn
    const leases: StickyLeases
    const h: HandleRef
    var closeErr: Option<string>
    var closed: bool

    ghost predicate Valid()
      reads this, conn, leases, leases.all, leases.handles
    {
      && leases.Valid() && Issued(leases, h)
      && conn.closes == (if closed then 1 else 0)
      && (closed ==> closeErr == conn.failure && (h.RealHandle? ==> h.handle.closed))
    }

    constructor (conn: Conn, leases: StickyLeases, h: HandleRef)
      requires leases.Valid() && Issued(leases, h) && conn.closes == 0
      ensures Valid() && !closed && this.conn == conn && this.leases == leases && this.h == h
    {
      this.conn, this.leases, this.h, closed, closeErr := conn, leases, h, false, None;
    }

    /** The first Close closes the connection and then the handle; every later one repeats its answer. */
    method Close() returns (err: Option<string>)
      requires Valid()
      modifies this, conn, leases`t, if h.RealHandle? then {h.handle, h.handle.l} else {}
      ensures Valid() && closed && conn.closes == 1 && err == conn.failure
      ensures leases.t == T.Close(old(leases.t), HandleValue(h))
      ensures old(closed) ==> leases.t == old(leases.t)
    {
      hide T.Consistent, LeasesStand, IndexStands;
      if closed { return closeErr; }
      closed := true;
      closeErr := conn.Close();
      CloseRef(leases, h);
      return closeErr;
    }
  }

  /** A nil handle leaves the connection as it is. */
  datatype NetConn = Plain(conn: Conn) | Leased(lc: LeasedConn)

  datatype DialFailure = Unresolved(why: DialError) | Unpicked(reason: P.PickError) | DialFailed

  /** `DialThroughDevice`: a step that succeeds or fails. */
  method DialThroughDevice(deviceID: string) returns (conn: Option<Conn>)
    ensures conn.Some? ==> fresh(conn.value) && conn.value.closes == 0 && conn.value.device == deviceID
  {
    var reached, failure: Option<string> := *, *;
    if !reached { return None; }
    var c := new Conn(deviceID, failure);
    return Some(c);
  }

  /** A handle and its lease are in the scheduler's footprint. */
  lemma HandleInFootprint(sched: Scheduler, h: HandleRef)
    requires sched.Valid() && Issued(sched.leases, h) && h.RealHandle?
    ensures {h.handle, h.handle.l} <= sched.Footprint()
  {
    assert Made(sched.leases.all, h.handle.l);
  }

  method Release(sched: Scheduler, h: HandleRef)
    requires sched.Valid() && Issued(sched.leases, h)
    modifies sched.Footprint()
    ensures sched.Valid() && sched.Onward() && Issued(sched.leases, h) && (h.RealHandle? ==> h.handle.closed)
    ensures sched.leases.clock.t == old(sched.leases.clock.t)
  {
    if h.RealHandle? { HandleInFootprint(sched, h); }
    hide T.Consistent, LeasesStand, HandlesStand, AllMade, IndexStands;
    CloseRef(sched.leases, h);
  }

  /** The dial, during which the rest of the program goes on. */
  method Reach(sched: Scheduler, deviceID: string, h: HandleRef) returns (conn: Option<Conn>)
    requires sched.Valid() && Outstanding(sched.leases, h)
    modifies sched.Footprint()
    ensures sched.Valid() && sched.Onward() && Outstanding(sched.leases, h)
    ensures old(sched.leases.clock.t) <= sched.leases.clock.t
    ensures conn.Some? ==> fresh(conn.value) && conn.value.closes == 0 && conn.value.device == deviceID
  {
    hide T.Consistent, LeasesStand, HandlesStand, AllMade, IndexStands;
    sched.Elsewhere(h);
    conn := DialThroughDevice(deviceID);
  }

  /** What follows a successful Pick. */
  method DialChosen(sched: Scheduler, deviceID: string, h: HandleRef) returns (r: Result<NetConn, DialFailure>)
    requires sched.Valid() && Outstanding(sched.leases, h)
    modifies sched.Footprint()
    ensures sched.Valid() && sched.Onward() && Issued(sched.leases, h)
    ensures old(sched.leases.clock.t) <= sched.leases.clock.t
    ensures match r
            case Ok(c) =>
              && c.Leased? && c.lc.Valid() && fresh(c.lc) && !c.lc.closed && Outstanding(sched.leases, h)
              && c.lc.conn.device == deviceID && c.lc.h == h && c.lc.leases == sched.leases
            case Err(e) => e == DialFailed && (h.RealHandle? ==> h.handle.closed)
  {
    hide T.Consistent, LeasesStand, HandlesStand, AllMade, IndexStands;
    var conn := Reach(sched, deviceID, h);
    if conn == None {
      Release(sched, h);
      return Err(DialFailed);
    }
    var lc := new LeasedConn(conn.value, sched.leases, h);
    return Ok(Leased(lc));
  }

  /**
   Without a scheduler: a username names the device that is dialed, whatever is online; with none, it is the
   one device that is online, and if there is not exactly one, the error says so and lists them.
   */
  ghost predicate Direct(reg: Registry, user: string, r: Result<NetConn, DialFailure>)
    reads reg, if r.Ok? && r.value.Plain? then {r.value.conn} else {}
  {
    && (r.Ok? ==> r.value.Plain? && r.value.conn.closes == 0)
    && if TrimSpace(user) != "" then
         if r.Ok? then r.value.conn.device == TrimSpace(user) else r.error == DialFailed
       else
         match r
         case Ok(c) => reg.sessions.Keys == {c.conn.device}
         case Err(DialFailed) => |reg.sessions| == 1
         case Err(Unresolved(NoDeviceOnline)) => |reg.sessions| == 0
         case Err(Unresolved(MultipleOnline(ids))) => |reg.sessions| > 1 && Lists(ids, reg.sessions.Keys)
         case Err(Unpicked(_)) => false
  }

  /**
   The dial callback. Without a scheduler the username names the device; with one, Pick chooses, and the
   handle is closed if the dial fails and handed to the wrapped connection if it succeeds. `trace` and `p`
   are Pick's, and `h` is the handle it returned.
   */
  method DialAndRequest(reg: Registry, sched: Scheduler?, cancelled: bool, user: string)
    returns (r: Result<NetConn, DialFailure>, ghost trace: seq<Turn>, ghost p: P.Pick, ghost h: HandleRef)
    requires sched != null ==> sched.Valid()
    modifies if sched != null then sched.Footprint() else {}
    ensures sched == null ==> Direct(reg, user, r) && (r.Ok? ==> fresh(r.value.conn))
    ensures sched != null ==>
              && sched.Valid() && sched.Onward() && P.Over(p) && Issued(sched.leases, h)
              && Traces(sched.sel, trace, P.Starting(user, cancelled), p, old(sched.leases.clock.t), sched.leases.clock.t)
              && match r
                 case Ok(c) =>
                   && p.Picked? && p.handle == HandleValue(h) && c.Leased? && c.lc.Valid() && fresh(c.lc) && !c.lc.closed
                   && c.lc.conn.device == p.device && c.lc.h == h && c.lc.leases == sched.leases
                   && Outstanding(sched.leases, h)
                 case Err(DialFailed) => p.Picked? && p.handle == HandleValue(h) && (h.RealHandle? ==> h.handle.closed)
                 case Err(e) => e.Unpicked? && p == P.Failed(e.reason) && h.NoopHandle?
  {
    hide T.Consistent, LeasesStand, HandlesStand, AllMade, IndexStands, Traces;
    if sched == null {
      r := DialDirectly(reg, user);
      return r, [], P.Failed(P.Cancelled), NoopHandle;
    }
    var chosen;
    chosen, trace, p := sched.Pick(cancelled, user);
    if chosen.Err? { return Err(Unpicked(chosen.error)), trace, p, NoopHandle; }
    var (deviceID, handle) := chosen.value;
    h := handle;
    ghost var picked := sched.leases.clock.t;
    r := DialChosen(sched, deviceID, handle);
    TraceLater(sched.sel, trace, P.Starting(user, cancelled), p, old(sched.leases.clock.t), picked, sched.leases.clock.t);
  }

  /** The scheme without a scheduler. */
  method DialDirectly(reg: Registry, user: string) returns (r: Result<NetConn, DialFailure>)
    ensures Direct(reg, user, r) && (r.Ok? ==> fresh(r.value.conn))
  {
    var target := reg.ResolveDeviceForDial(user);
    assert |reg.sessions| == |reg.sessions.Keys|;
    if target.Err? { return Err(Unresolved(target.error)); }
    var conn := DialThroughDevice(target.value);
    return if conn.Some? then Ok(Plain(conn.value)) else Err(DialFailed);
  }
}
