/**
 The critical sections of the Databricks connection pool.

 Every region of `DatabricksSQLClient` that holds the pool condition is a pure function on the
 shared fields, and `ConnectionPool` is the object whose methods update those fields in place.
 Module `PoolProtocol` interleaves these sections among threads.
*/
module Pool {
  import opened Common

  /** An opaque connection identity. */
  type Conn = nat

  datatype Idle = Idle(releasedAt: real, conn: Conn)

  /** The constants of one client; `validates` says whether its frozen config passes `_validate`. */
  datatype Settings = Settings(maxSize: int, idleTtl: real, acquireTimeout: real, validates: bool) {
    predicate Valid() {
      maxSize >= 1 && idleTtl >= 0.0 && acquireTimeout >= 0.1
    }
  }

  /** The fields guarded by the pool condition. */
  datatype Shared = Shared(available: seq<Idle>, total: int, closed: bool)

  /** What a critical section does to the condition's wait queue. */
  datatype Wake = WakeNobody | WakeOne | WakeEverybody

  datatype Outcome =
    | RaiseClosed
    | RaiseTimeout
    | WaitFor(remaining: real)
    | Reuse(conn: Conn, idled: real)
    | CreateNew

  datatype PassResult = PassResult(shared: Shared, outcome: Outcome, stale: seq<Conn>)

  predicate Expired(cfg: Settings, now: real, idle: Idle) {
    now - idle.releasedAt >= cfg.idleTtl
  }

  function IsStale(cfg: Settings, now: real): Idle -> bool {
    i => Expired(cfg, now, i)
  }

  function IsActive(cfg: Settings, now: real): Idle -> bool {
    i => !Expired(cfg, now, i)
  }

  function Conns(idles: seq<Idle>): (cs: seq<Conn>)
    ensures |cs| == |idles|
  {
    seq(|idles|, i requires 0 <= i < |idles| => idles[i].conn)
  }

  function StaleOf(cfg: Settings, now: real, idles: seq<Idle>): seq<Idle> {
    Filter(idles, IsStale(cfg, now))
  }

  function ActiveOf(cfg: Settings, now: real, idles: seq<Idle>): seq<Idle> {
    Filter(idles, IsActive(cfg, now))
  }

  /** `_collect_expired_pool_connections_locked`: the fields afterwards and the stale connections. */
  function Collect(cfg: Settings, sh: Shared, now: real): (Shared, seq<Conn>) {
    if cfg.idleTtl <= 0.0 then (sh, []) else
    var stale := StaleOf(cfg, now, sh.available);
    if stale == [] then (sh, []) else
    (sh.(available := ActiveOf(cfg, now, sh.available), total := Max0(sh.total - |stale|)), Conns(stale))
  }

  /** One trip of `_acquire_pooled_connection` through its critical section. */
  function AcquirePass(cfg: Settings, sh: Shared, now: real, deadline: real): PassResult {
    if sh.closed then PassResult(sh, RaiseClosed, []) else
    var (sh, stale) := Collect(cfg, sh, now);
    if sh.available != [] then
      var last := sh.available[|sh.available| - 1];
      PassResult(sh.(available := sh.available[..|sh.available| - 1]), Reuse(last.conn, now - last.releasedAt), stale)
    else if sh.total < cfg.maxSize then
      PassResult(sh.(total := sh.total + 1), CreateNew, stale)
    else if deadline - now <= 0.0 then
      PassResult(sh, RaiseTimeout, stale)
    else
      PassResult(sh, WaitFor(deadline - now), stale)
  }

  /** The critical section entered after a failed connect. */
  function GiveBackSlot(sh: Shared): (Shared, Wake) {
    (sh.(total := Max0(sh.total - 1)), WakeOne)
  }

  /** The critical section of `_release_pooled_connection`; the flag asks the caller to close. */
  function Release(sh: Shared, conn: Conn, broken: bool, now: real): (Shared, Wake, bool) {
    if broken || sh.closed then
      (sh.(total := Max0(sh.total - 1)), WakeOne, true)
    else
      (sh.(available := sh.available + [Idle(now, conn)]), WakeOne, false)
  }

  /** The critical section of `close`; the connections it hands back to be closed. */
  function ClosePool(sh: Shared): (Shared, Wake, seq<Conn>) {
    if sh.available == [] then
      (sh.(closed := true), WakeEverybody, [])
    else
      (Shared([], Max0(sh.total - |sh.available|), true), WakeEverybody, Conns(sh.available))
  }

  class ConnectionPool {
    const settings: Settings
    var available: seq<Idle>
    var total: int
    var closed: bool

    constructor (settings: Settings)
      ensures this.settings == settings && State() == Shared([], 0, false)
    {
      this.settings := settings;
      available, total, closed := [], 0, false;
    }

    function State(): Shared
      reads this
    {
      Shared(available, total, closed)
    }

    method CollectExpiredLocked(now: real) returns (stale: seq<Conn>)
      modifies this`available, this`total
      ensures (State(), stale) == Collect(settings, old(State()), now)
    {
      if settings.idleTtl <= 0.0 {
        return [];
      }
      stale := [];
      var active: seq<Idle> := [];
      for k := 0 to |available|
        invariant State() == old(State())
        invariant stale == Conns(StaleOf(settings, now, available[..k]))
        invariant active == ActiveOf(settings, now, available[..k])
      {
        var idle := available[k];
        if Expired(settings, now, idle) {
          stale := stale + [idle.conn];
        } else {
          active := active + [idle];
        }
        assert available[..k + 1] == available[..k] + [idle];
        FilterAppend(available[..k], [idle], IsStale(settings, now));
        FilterAppend(available[..k], [idle], IsActive(settings, now));
      }
      assert available[..|available|] == available;
      if stale != [] {
        available := active;
        total := Max0(total - |stale|);
      }
    }

    method AcquirePassLocked(now: real, deadline: real) returns (outcome: Outcome, stale: seq<Conn>)
      modifies this`available, this`total
      ensures PassResult(State(), outcome, stale) == AcquirePass(settings, old(State()), now, deadline)
    {
      if closed {
        return RaiseClosed, [];
      }
      stale := CollectExpiredLocked(now);
      if available != [] {
        var last := available[|available| - 1];
        available := available[..|available| - 1];
        return Reuse(last.conn, now - last.releasedAt), stale;
      }
      if total < settings.maxSize {
        total := total + 1;
        return CreateNew, stale;
      }
      var remaining := deadline - now;
      outcome := if remaining <= 0.0 then RaiseTimeout else WaitFor(remaining);
    }

    method GiveBackSlotLocked() returns (wake: Wake)
      modifies this`total
      ensures (State(), wake) == GiveBackSlot(old(State()))
    {
      total := Max0(total - 1);
      wake := WakeOne;
    }

    method ReleaseLocked(conn: Conn, broken: bool, now: real) returns (wake: Wake, mustClose: bool)
      modifies this`available, this`total
      ensures (State(), wake, mustClose) == Release(old(State()), conn, broken, now)
    {
      mustClose := false;
      if broken || closed {
        total := Max0(total - 1);
        mustClose := true;
      } else {
        available := available + [Idle(now, conn)];
      }
      wake := WakeOne;
    }

    method CloseLocked() returns (wake: Wake, toClose: seq<Conn>)
      modifies this
      ensures (State(), wake, toClose) == ClosePool(old(State()))
    {
      toClose := [];
      closed := true;
      if available != [] {
        toClose := Conns(available);
        available := [];
        total := Max0(total - |toClose|);
      }
      wake := WakeEverybody;
    }
  }
}
