/**
 The connection pool as a concurrent protocol.

 Any number of threads run `_connection` blocks and `close`; a step is one lock region, one
 connection opened or closed outside the lock, a wait that times out, or the clock advancing.
 A wait times out when its thread has the lock back: until then it can still be notified.
 Every interleaving is a sequence of steps, and `Inv` holds after every one of them.
*/
module PoolProtocol {
  import opened Common
  import opened Pool

  /** Where a thread is. The `stale` lists are connections it has collected and must still close. */
  datatype Phase =
    | Outside
    | AtLock(deadline: real)
    | Waiting(deadline: real, stale: seq<Conn>)
    | Woken(deadline: real, stale: seq<Conn>)     // taken off the waiters by a notify
    | TimedOut(deadline: real, stale: seq<Conn>)  // taken off the waiters by its own timeout
    | GotIdle(stale: seq<Conn>, conn: Conn, idled: real)
    | GotSlot(stale: seq<Conn>)
    | Connecting
    | ConnectFailed
    | Holding(conn: Conn, idled: real)
    | Releasing(conn: Conn, broken: bool)
    | Closing(toClose: seq<Conn>)

  /** The pool, its threads, and a history of every connection ever opened. */
  datatype World = World(
    shared: Shared,
    threads: seq<Phase>,
    clock: real,
    issued: nat,                 // connections 0..issued have been opened
    closed: seq<Conn>,           // connections on which close() has been called
    abandoned: seq<Conn>,        // connections dropped without close()
    leaked: nat)                 // slots counted by an acquire whose _validate() raised

  datatype Step =
    | Enter(t: nat)
    | Pass(t: nat)
    | TimeOut(t: nat)
    | CloseStale(t: nat)
    | Proceed(t: nat)
    | ConnectOk(t: nat)
    | ConnectFails(t: nat)
    | GiveBack(t: nat, woken: nat)
    | EndUse(t: nat, broken: bool)
    | ReleaseConn(t: nat, woken: nat)
    | CallClose(t: nat)
    | Tick(t: nat, elapsed: real)

  // ----- Thread populations -----

  function Population(threads: seq<Phase>, p: Phase -> bool): nat {
    if threads == [] then 0 else
    (if p(threads[0]) then 1 else 0) + Population(threads[1..], p)
  }

  predicate InUse(ph: Phase) { ph.GotIdle? || ph.Holding? || ph.Releasing? }

  predicate BeingCreated(ph: Phase) { ph.GotSlot? || ph.Connecting? || ph.ConnectFailed? }

  predicate IsWaiting(ph: Phase) { ph.Waiting? }

  /** Notified, and yet to run. */
  predicate IsWoken(ph: Phase) { ph.Woken? }

  function Indicator(b: bool): nat { if b then 1 else 0 }

  function Copies(list: seq<Conn>, c: Conn): nat {
    if list == [] then 0 else Indicator(list[0] == c) + Copies(list[1..], c)
  }

  /** How many times a thread is responsible for connection `c`. */
  function Owned(ph: Phase, c: Conn): nat {
    match ph
    case Waiting(_, stale) => Copies(stale, c)
    case Woken(_, stale) => Copies(stale, c)
    case TimedOut(_, stale) => Copies(stale, c)
    case GotIdle(stale, conn, _) => Copies(stale, c) + Indicator(conn == c)
    case GotSlot(stale) => Copies(stale, c)
    case Holding(conn, _) => Indicator(conn == c)
    case Releasing(conn, _) => Indicator(conn == c)
    case Closing(toClose) => Copies(toClose, c)
    case _ => 0
  }

  /** How many times the threads together own connection `c`. */
  function OwnedByAll(threads: seq<Phase>, c: Conn): nat {
    if threads == [] then 0 else Owned(threads[0], c) + OwnedByAll(threads[1..], c)
  }

  function UnusedSlots(cfg: Settings, w: World): int {
    cfg.maxSize - w.shared.total
  }

  function IdleCount(idles: seq<Idle>, c: Conn): nat {
    if idles == [] then 0 else Indicator(idles[0].conn == c) + IdleCount(idles[1..], c)
  }

  /** In how many places connection `c` is: idle, owned by a thread, closed, or dropped. */
  function Places(w: World, c: Conn): nat {
    IdleCount(w.shared.available, c) + OwnedByAll(w.threads, c) + Copies(w.closed, c) + Copies(w.abandoned, c)
  }

  // ----- Steps -----

  /** notify() wakes one waiter when there is one. */
  predicate CanWake(threads: seq<Phase>, woken: nat) {
    Population(threads, IsWaiting) == 0 || (woken < |threads| && threads[woken].Waiting?)
  }

  function Rouse(ph: Phase): Phase {
    if ph.Waiting? then Woken(ph.deadline, ph.stale) else ph
  }

  function WakeUp(threads: seq<Phase>, wake: Wake, woken: nat): seq<Phase> {
    match wake
    case WakeNobody => threads
    case WakeOne => if woken < |threads| then threads[woken := Rouse(threads[woken])] else threads
    case WakeEverybody => seq(|threads|, i requires 0 <= i < |threads| => Rouse(threads[i]))
  }

  predicate Enabled(cfg: Settings, w: World, step: Step) {
    step.t < |w.threads| &&
    var ph := w.threads[step.t];
    match step
    case Enter(_) => ph.Outside?
    case Pass(_) => ph.AtLock? || ((ph.Woken? || ph.TimedOut?) && ph.stale == [])
    case TimeOut(_) => ph.Waiting? && ph.deadline <= w.clock
    case CloseStale(_) =>
      || ((ph.Woken? || ph.TimedOut?) && ph.stale != []) || (ph.GotIdle? && ph.stale != [])
      || (ph.GotSlot? && ph.stale != []) || (ph.Closing? && ph.toClose != [])
    case Proceed(_) =>
      (ph.GotIdle? && ph.stale == []) || (ph.GotSlot? && ph.stale == []) || (ph.Closing? && ph.toClose == [])
    case ConnectOk(_) => ph.Connecting?
    case ConnectFails(_) => ph.Connecting?
    case GiveBack(t, woken) => ph.ConnectFailed? && CanWake(w.threads, woken)
    case EndUse(_, _) => ph.Holding?
    case ReleaseConn(t, woken) => ph.Releasing? && CanWake(w.threads, woken)
    case CallClose(_) => ph.Outside?
    case Tick(_, elapsed) => elapsed >= 0.0
  }

  /** The thread's phase after its trip through the acquire section. */
  function AfterPass(r: PassResult, deadline: real): Phase {
    match r.outcome
    case RaiseClosed => Outside
    case RaiseTimeout => Outside
    case WaitFor(_) => Waiting(deadline, r.stale)
    case Reuse(conn, idled) => GotIdle(r.stale, conn, idled)
    case CreateNew => GotSlot(r.stale)
  }

  /** An acquire that raises drops its list of stale connections. */
  function Dropped(r: PassResult): seq<Conn> {
    if r.outcome.RaiseClosed? || r.outcome.RaiseTimeout? then r.stale else []
  }

  /** Close the first connection of the thread's list. */
  function CloseFirst(ph: Phase): (Phase, Conn)
    requires ph.Woken? || ph.TimedOut? || ph.GotIdle? || ph.GotSlot? ==> ph.stale != []
    requires ph.Closing? ==> ph.toClose != []
    requires ph.Woken? || ph.TimedOut? || ph.GotIdle? || ph.GotSlot? || ph.Closing?
  {
    match ph
    case Closing(toClose) => (Closing(toClose[1..]), toClose[0])
    case Woken(deadline, stale) => (Woken(deadline, stale[1..]), stale[0])
    case TimedOut(deadline, stale) => (TimedOut(deadline, stale[1..]), stale[0])
    case GotIdle(stale, conn, idled) => (GotIdle(stale[1..], conn, idled), stale[0])
    case GotSlot(stale) => (GotSlot(stale[1..]), stale[0])
  }

  function Apply(cfg: Settings, w: World, step: Step): World
    requires Enabled(cfg, w, step)
  {
    var t := step.t;
    var ph := w.threads[t];
    match step
    case Enter(_) =>
      w.(threads := w.threads[t := AtLock(w.clock + cfg.acquireTimeout)])
    case Pass(_) =>
      var r := AcquirePass(cfg, w.shared, w.clock, ph.deadline);
      w.(shared := r.shared, threads := w.threads[t := AfterPass(r, ph.deadline)],
         abandoned := Dropped(r) + w.abandoned)
    case TimeOut(_) =>
      w.(threads := w.threads[t := TimedOut(ph.deadline, ph.stale)])
    case CloseStale(_) =>
      var (ph', c) := CloseFirst(ph);
      w.(threads := w.threads[t := ph'], closed := [c] + w.closed)
    case Proceed(_) =>
      if ph.GotIdle? then w.(threads := w.threads[t := Holding(ph.conn, ph.idled)])
      else if ph.Closing? then w.(threads := w.threads[t := Outside])
      else if cfg.validates then w.(threads := w.threads[t := Connecting])
      else w.(threads := w.threads[t := Outside], leaked := w.leaked + 1)
    case ConnectOk(_) =>
      w.(threads := w.threads[t := Holding(w.issued, 0.0)], issued := w.issued + 1)
    case ConnectFails(_) =>
      w.(threads := w.threads[t := ConnectFailed])
    case GiveBack(_, woken) =>
      var (shared, wake) := GiveBackSlot(w.shared);
      w.(shared := shared, threads := WakeUp(w.threads, wake, woken)[t := Outside])
    case EndUse(_, broken) =>
      w.(threads := w.threads[t := Releasing(ph.conn, broken)])
    case ReleaseConn(_, woken) =>
      var (shared, wake, mustClose) := Release(w.shared, ph.conn, ph.broken, w.clock);
      var next := Closing(if mustClose then [ph.conn] else []);
      w.(shared := shared, threads := WakeUp(w.threads, wake, woken)[t := next])
    case CallClose(_) =>
      var (shared, wake, toClose) := ClosePool(w.shared);
      w.(shared := shared, threads := WakeUp(w.threads, wake, t)[t := Closing(toClose)])
    case Tick(_, elapsed) =>
      w.(clock := w.clock + elapsed)
  }

  predicate IsRun(cfg: Settings, w: World, steps: seq<Step>)
    decreases |steps|
  {
    steps == [] || (Enabled(cfg, w, steps[0]) && IsRun(cfg, Apply(cfg, w, steps[0]), steps[1..]))
  }

  function Final(cfg: Settings, w: World, steps: seq<Step>): World
    requires IsRun(cfg, w, steps)
    decreases |steps|
  {
    if steps == [] then w else Final(cfg, Apply(cfg, w, steps[0]), steps[1..])
  }

  /** A fresh client used by `n` threads. */
  function Start(n: nat, clock: real): World {
    World(Shared([], 0, false), seq(n, _ => Outside), clock, 0, [], [], 0)
  }

  ghost predicate Reachable(cfg: Settings, w: World) {
    exists n: nat, clock: real, steps: seq<Step> ::
      IsRun(cfg, Start(n, clock), steps) && Final(cfg, Start(n, clock), steps) == w
  }

  // ----- The invariant -----

  /** Every counted slot belongs to an idle connection, a caller, an acquire in progress, or a leak. */
  predicate Conservation(cfg: Settings, w: World) {
    && w.shared.total ==
         |w.shared.available| + Population(w.threads, InUse) + Population(w.threads, BeingCreated) + w.leaked
    && w.shared.total <= cfg.maxSize
    && (cfg.validates ==> w.leaked == 0)
  }

  /** The notified threads, not those that merely timed out, cover all that a waiter could take. */
  predicate NoLostWakeup(cfg: Settings, w: World) {
    Population(w.threads, IsWaiting) > 0 ==>
      |w.shared.available| + UnusedSlots(cfg, w) <= Population(w.threads, IsWoken)
  }

  predicate ClosedIsDrained(w: World) {
    w.shared.closed ==> w.shared.available == [] && Population(w.threads, IsWaiting) == 0
  }

  ghost predicate OnePlaceEach(w: World) {
    forall c: Conn :: Places(w, c) == Indicator(c < w.issued)
  }

  /** A thread's own part of the invariant: no stale list while waiting, no over-idle connection. */
  predicate PhaseOk(cfg: Settings, ph: Phase) {
    && (ph.Waiting? || ph.Woken? || ph.TimedOut? ==> ph.stale == [])
    && (ph.GotIdle? || ph.Holding? ==> cfg.idleTtl > 0.0 ==> ph.idled < cfg.idleTtl)
  }

  ghost predicate Inv(cfg: Settings, w: World) {
    && Conservation(cfg, w)
    && NoLostWakeup(cfg, w)
    && ClosedIsDrained(w)
    && OnePlaceEach(w)
    && w.abandoned == []
    && (forall t :: 0 <= t < |w.threads| ==> PhaseOk(cfg, w.threads[t]))
  }

  // ----- Populations and ownership when one thread moves -----

  lemma {:induction false} PopulationMove(threads: seq<Phase>, t: nat, ph: Phase, p: Phase -> bool)
    requires t < |threads|
    ensures Population(threads[t := ph], p) + Indicator(p(threads[t])) == Population(threads, p) + Indicator(p(ph))
  {
    var moved := threads[t := ph];
    if t == 0 {
      assert moved[1..] == threads[1..];
    } else {
      assert moved[1..] == threads[1..][t - 1 := ph];
      PopulationMove(threads[1..], t - 1, ph, p);
    }
  }

  lemma {:induction false} OwnedMove(threads: seq<Phase>, t: nat, ph: Phase, c: Conn)
    requires t < |threads|
    ensures OwnedByAll(threads[t := ph], c) + Owned(threads[t], c) == OwnedByAll(threads, c) + Owned(ph, c)
  {
    var moved := threads[t := ph];
    if t == 0 {
      assert moved[1..] == threads[1..];
    } else {
      assert moved[1..] == threads[1..][t - 1 := ph];
      OwnedMove(threads[1..], t - 1, ph, c);
    }
  }

  lemma Move(threads: seq<Phase>, t: nat, ph: Phase)
    requires t < |threads|
    ensures
      var moved, was := threads[t := ph], threads[t];
      && Population(moved, InUse) + Indicator(InUse(was)) == Population(threads, InUse) + Indicator(InUse(ph))
      && Population(moved, BeingCreated) + Indicator(BeingCreated(was)) ==
           Population(threads, BeingCreated) + Indicator(BeingCreated(ph))
      && Population(moved, IsWaiting) + Indicator(IsWaiting(was)) ==
           Population(threads, IsWaiting) + Indicator(IsWaiting(ph))
      && Population(moved, IsWoken) + Indicator(IsWoken(was)) == Population(threads, IsWoken) + Indicator(IsWoken(ph))
  {
    PopulationMove(threads, t, ph, InUse);
    PopulationMove(threads, t, ph, BeingCreated);
    PopulationMove(threads, t, ph, IsWaiting);
    PopulationMove(threads, t, ph, IsWoken);
  }

  lemma {:induction false} PopulationPositive(threads: seq<Phase>, t: nat, p: Phase -> bool)
    requires t < |threads|
    ensures p(threads[t]) ==> Population(threads, p) > 0
  {
    if t > 0 {
      PopulationPositive(threads[1..], t - 1, p);
    }
  }

  /** notify(): one waiter, if any, becomes woken; nothing else changes. */
  lemma WakeOneEffect(threads: seq<Phase>, woken: nat)
    requires CanWake(threads, woken)
    ensures
      var after := WakeUp(threads, WakeOne, woken);
      && |after| == |threads|
      && Population(after, InUse) == Population(threads, InUse)
      && Population(after, BeingCreated) == Population(threads, BeingCreated)
      && Population(after, IsWaiting) == Max0(Population(threads, IsWaiting) - 1)
      && Population(after, IsWoken) == Population(threads, IsWoken) + Min(1, Population(threads, IsWaiting))
  {
    if woken < |threads| && threads[woken].Waiting? {
      PopulationPositive(threads, woken, IsWaiting);
      Move(threads, woken, Rouse(threads[woken]));
    } else if woken < |threads| {
      assert threads[woken := Rouse(threads[woken])] == threads;
    }
  }

  /** notify_all(): every waiter becomes woken. */
  lemma {:induction false} WakeEverybodyEffect(threads: seq<Phase>, t: nat)
    ensures
      var after := WakeUp(threads, WakeEverybody, t);
      && |after| == |threads|
      && Population(after, InUse) == Population(threads, InUse)
      && Population(after, BeingCreated) == Population(threads, BeingCreated)
      && Population(after, IsWaiting) == 0
      && Population(after, IsWoken) == Population(threads, IsWoken) + Population(threads, IsWaiting)
  {
    if threads != [] {
      WakeEverybodyEffect(threads[1..], t);
      assert WakeUp(threads, WakeEverybody, t)[1..] == WakeUp(threads[1..], WakeEverybody, t);
    }
  }

  /** Waking threads up moves no connection. */
  lemma {:induction false} WakeOwned(threads: seq<Phase>, wake: Wake, woken: nat, c: Conn)
    ensures OwnedByAll(WakeUp(threads, wake, woken), c) == OwnedByAll(threads, c)
  {
    if wake.WakeOne? && woken < |threads| {
      OwnedMove(threads, woken, Rouse(threads[woken]), c);
    } else if wake.WakeEverybody? && threads != [] {
      WakeOwned(threads[1..], wake, woken, c);
      assert WakeUp(threads, wake, woken)[1..] == WakeUp(threads[1..], wake, woken);
    }
  }
}
