/**
 What every interleaving of the connection pool keeps: conservation of slots, no lost wake-up,
 and one place for each connection. The invariant is proved step by step, then over whole runs.
*/
module PoolSafety {
  import opened Common
  import opened Pool
  import opened PoolProtocol

  // ----- Collecting expired connections -----

  lemma IdleCountCons(first: Idle, rest: seq<Idle>, c: Conn)
    ensures IdleCount([first] + rest, c) == Indicator(first.conn == c) + IdleCount(rest, c)
  {
    assert ([first] + rest)[1..] == rest;
  }

  /** Collecting splits the idle list: nothing lost, nothing doubled, only expired ones taken. */
  lemma {:induction false} PartitionIdle(cfg: Settings, now: real, idles: seq<Idle>, c: Conn)
    ensures |StaleOf(cfg, now, idles)| + |ActiveOf(cfg, now, idles)| == |idles|
    ensures IdleCount(StaleOf(cfg, now, idles), c) + IdleCount(ActiveOf(cfg, now, idles), c) == IdleCount(idles, c)
    ensures forall i <- ActiveOf(cfg, now, idles) :: i in idles && !Expired(cfg, now, i)
    ensures forall i <- StaleOf(cfg, now, idles) :: i in idles && Expired(cfg, now, i)
  {
    if idles != [] {
      PartitionIdle(cfg, now, idles[1..], c);
      var head, tail := idles[0], idles[1..];
      assert StaleOf(cfg, now, idles) ==
        if Expired(cfg, now, head) then [head] + StaleOf(cfg, now, tail) else StaleOf(cfg, now, tail);
      assert ActiveOf(cfg, now, idles) ==
        if Expired(cfg, now, head) then ActiveOf(cfg, now, tail) else [head] + ActiveOf(cfg, now, tail);
      IdleCountCons(idles[0], StaleOf(cfg, now, idles[1..]), c);
      IdleCountCons(idles[0], ActiveOf(cfg, now, idles[1..]), c);
    }
  }

  lemma {:induction false} IdleCountAsCopies(idles: seq<Idle>, c: Conn)
    ensures Copies(Conns(idles), c) == IdleCount(idles, c)
  {
    if idles != [] {
      IdleCountAsCopies(idles[1..], c);
      assert Conns(idles) == [idles[0].conn] + Conns(idles[1..]);
    }
  }

  lemma {:induction false} IdleCountAppend(idles: seq<Idle>, last: Idle, c: Conn)
    ensures IdleCount(idles + [last], c) == IdleCount(idles, c) + Indicator(last.conn == c)
  {
    if idles != [] {
      assert (idles + [last])[1..] == idles[1..] + [last];
      IdleCountAppend(idles[1..], last, c);
    }
  }

  /** The clamp in the collector is idle while the total covers the idle list. */
  lemma CollectEffect(cfg: Settings, sh: Shared, now: real, c: Conn)
    requires sh.total >= |sh.available|
    ensures
      var (after, stale) := Collect(cfg, sh, now);
      && |after.available| + |stale| == |sh.available|
      && after.total == sh.total - |stale|
      && after.closed == sh.closed
      && IdleCount(after.available, c) + Copies(stale, c) == IdleCount(sh.available, c)
      && (cfg.idleTtl > 0.0 ==> forall i <- after.available :: !Expired(cfg, now, i))
  {
    PartitionIdle(cfg, now, sh.available, c);
    IdleCountAsCopies(StaleOf(cfg, now, sh.available), c);
    var stale, active := StaleOf(cfg, now, sh.available), ActiveOf(cfg, now, sh.available);
    if stale == [] {
      FilterIn(sh.available, IsStale(cfg, now));
    }
  }

  /** One trip through the acquire section, in terms of what it takes from the pool. */
  lemma PassEffect(cfg: Settings, sh: Shared, now: real, deadline: real, c: Conn)
    requires |sh.available| <= sh.total <= cfg.maxSize
    ensures
      var r := AcquirePass(cfg, sh, now, deadline);
      && r.shared.closed == sh.closed
      && r.outcome.RaiseClosed? == sh.closed
      && (sh.closed ==> r == PassResult(sh, RaiseClosed, []))
      && r.shared.total <= cfg.maxSize
      // a pass that waits or times out found nothing to take and nothing expired
      && (r.outcome.WaitFor? || r.outcome.RaiseTimeout? ==>
            r.shared == sh && sh.available == [] && sh.total == cfg.maxSize && r.stale == [])
      // otherwise exactly one idle connection or one unused slot is taken
      && (r.outcome.Reuse? ==>
            r.shared.total == sh.total - |r.stale| && |r.shared.available| == |sh.available| - |r.stale| - 1)
      && (r.outcome.CreateNew? ==>
            r.shared.total == sh.total - |r.stale| + 1 && |r.shared.available| == |sh.available| - |r.stale|)
      && IdleCount(r.shared.available, c) + Copies(r.stale, c)
           + (if r.outcome.Reuse? then Indicator(r.outcome.conn == c) else 0) == IdleCount(sh.available, c)
      && (r.outcome.Reuse? && cfg.idleTtl > 0.0 ==> r.outcome.idled < cfg.idleTtl)
  {
    CollectEffect(cfg, sh, now, c);
    var (after, _) := Collect(cfg, sh, now);
    if !sh.closed && after.available != [] {
      var last := after.available[|after.available| - 1];
      assert after.available == after.available[..|after.available| - 1] + [last];
      assert last in after.available;
      IdleCountAppend(after.available[..|after.available| - 1], last, c);
    }
  }

  // ----- Each step keeps the counting part -----

  predicate Counts(cfg: Settings, w: World) {
    Conservation(cfg, w) && NoLostWakeup(cfg, w) && ClosedIsDrained(w)
  }

  lemma CountsPass(cfg: Settings, w: World, step: Step)
    requires cfg.Valid() && Counts(cfg, w) && step.Pass? && Enabled(cfg, w, step)
    ensures Counts(cfg, Apply(cfg, w, step))
  {
    hide AcquirePass, Collect, WakeUp;
    var t, deadline := step.t, w.threads[step.t].deadline;
    var r := AcquirePass(cfg, w.shared, w.clock, deadline);
    PassEffect(cfg, w.shared, w.clock, deadline, 0);
    Move(w.threads, t, AfterPass(r, deadline));
  }

  /** A notify, and the notifying thread moving on. */
  lemma NotifyAndMove(threads: seq<Phase>, woken: nat, t: nat, ph: Phase)
    requires t < |threads| && CanWake(threads, woken) && !threads[t].Waiting? && !threads[t].Woken?
    requires !IsWaiting(ph) && !IsWoken(ph)
    ensures
      var after := WakeUp(threads, WakeOne, woken)[t := ph];
      && Population(after, InUse) + Indicator(InUse(threads[t])) == Population(threads, InUse) + Indicator(InUse(ph))
      && Population(after, BeingCreated) + Indicator(BeingCreated(threads[t]))
           == Population(threads, BeingCreated) + Indicator(BeingCreated(ph))
      && Population(after, IsWaiting) == Max0(Population(threads, IsWaiting) - 1)
      && Population(after, IsWoken) == Population(threads, IsWoken) + Min(1, Population(threads, IsWaiting))
  {
    hide Population;
    WakeOneEffect(threads, woken);
    var awake := WakeUp(threads, WakeOne, woken);
    assert awake[t] == threads[t];
    Move(awake, t, ph);
  }

  /** Giving back the slot of a failed connect keeps the counts and wakes a waiter for it. */
  lemma CountsGiveBack(cfg: Settings, w: World, step: Step)
    requires cfg.Valid() && Counts(cfg, w) && step.GiveBack? && Enabled(cfg, w, step)
    ensures Counts(cfg, Apply(cfg, w, step)) && Apply(cfg, w, step).shared.total == w.shared.total - 1
    ensures Population(Apply(cfg, w, step).threads, IsWaiting) == Max0(Population(w.threads, IsWaiting) - 1)
  {
    var t := step.t;
    PopulationPositive(w.threads, t, BeingCreated);
    NotifyAndMove(w.threads, step.woken, t, Outside);
  }

  /** So does releasing a connection, whether it goes back to the idle list or is closed. */
  lemma CountsRelease(cfg: Settings, w: World, step: Step)
    requires cfg.Valid() && Counts(cfg, w) && step.ReleaseConn? && Enabled(cfg, w, step)
    ensures Counts(cfg, Apply(cfg, w, step))
    ensures var after, ph := Apply(cfg, w, step), w.threads[step.t];
      // the released connection is either idle and last or about to be closed and no longer counted
      if ph.broken || w.shared.closed then
        && after.threads[step.t] == Closing([ph.conn])
        && after.shared.available == w.shared.available && after.shared.total == w.shared.total - 1
      else
        && after.threads[step.t] == Closing([])
        && after.shared.available == w.shared.available + [Idle(w.clock, ph.conn)]
        && after.shared.total == w.shared.total
    ensures Population(Apply(cfg, w, step).threads, IsWaiting) == Max0(Population(w.threads, IsWaiting) - 1)
  {
    var t := step.t;
    PopulationPositive(w.threads, t, InUse);
    NotifyAndMove(w.threads, step.woken, t, Apply(cfg, w, step).threads[t]);
  }

  /** A close hands every idle connection to its caller, uncounts them, and leaves nobody waiting. */
  lemma CountsCallClose(cfg: Settings, w: World, step: Step)
    requires cfg.Valid() && Counts(cfg, w) && step.CallClose? && Enabled(cfg, w, step)
    ensures Counts(cfg, Apply(cfg, w, step))
    ensures var after := Apply(cfg, w, step);
      && after.shared.closed && after.shared.available == []
      && after.shared.total == w.shared.total - |w.shared.available|
      && after.threads[step.t] == Closing(Conns(w.shared.available))
      && Population(after.threads, IsWaiting) == 0
  {
    var t := step.t;
    WakeEverybodyEffect(w.threads, t);
    var awake := WakeUp(w.threads, WakeEverybody, t);
    assert awake[t] == w.threads[t];
    Move(awake, t, Apply(cfg, w, step).threads[t]);
  }

  lemma CountsOutsideLock(cfg: Settings, w: World, step: Step)
    requires cfg.Valid() && Counts(cfg, w) && Enabled(cfg, w, step)
    requires !step.Pass? && !step.GiveBack? && !step.ReleaseConn? && !step.CallClose?
    ensures Counts(cfg, Apply(cfg, w, step))
  {
    if !step.Tick? {
      Move(w.threads, step.t, Apply(cfg, w, step).threads[step.t]);
    }
  }

  // ----- Each step keeps every connection in one place -----

  /** A step opens at most one connection, the next identity, and otherwise only moves them. */
  lemma PlacesStep(cfg: Settings, w: World, step: Step, c: Conn)
    requires cfg.Valid() && Conservation(cfg, w) && Enabled(cfg, w, step)
    ensures Places(Apply(cfg, w, step), c) == Places(w, c) + Indicator(step.ConnectOk? && c == w.issued)
  {
    hide Apply, Places, Conservation, Enabled;
    if step.Pass? {
      PlacesPass(cfg, w, step, c);
    } else if step.GiveBack? || step.ReleaseConn? || step.CallClose? {
      PlacesNotify(cfg, w, step, c);
    } else if step.CloseStale? {
      PlacesCloseStale(cfg, w, step, c);
    } else {
      PlacesAlone(cfg, w, step, c);
    }
  }

  lemma PlacesCloseStale(cfg: Settings, w: World, step: Step, c: Conn)
    requires step.CloseStale? && Enabled(cfg, w, step)
    ensures Places(Apply(cfg, w, step), c) == Places(w, c)
  {
    OwnedMove(w.threads, step.t, Apply(cfg, w, step).threads[step.t], c);
    CloseFirstEffect(w.threads[step.t], c);
  }

  /** A step that touches neither the shared fields nor a list of connections. */
  lemma PlacesAlone(cfg: Settings, w: World, step: Step, c: Conn)
    requires !step.Pass? && !step.GiveBack? && !step.ReleaseConn? && !step.CallClose? && !step.CloseStale?
    requires Enabled(cfg, w, step)
    ensures Places(Apply(cfg, w, step), c) == Places(w, c) + Indicator(step.ConnectOk? && c == w.issued)
  {
    hide Copies, IdleCount, Owned;
    if !step.Tick? {
      OwnedAlone(cfg, w, step, c);
      OwnedMove(w.threads, step.t, Apply(cfg, w, step).threads[step.t], c);
    }
  }

  lemma OwnedAlone(cfg: Settings, w: World, step: Step, c: Conn)
    requires !step.Pass? && !step.GiveBack? && !step.ReleaseConn? && !step.CallClose?
    requires !step.CloseStale? && !step.Tick?
    requires Enabled(cfg, w, step)
    ensures Owned(Apply(cfg, w, step).threads[step.t], c)
      == Owned(w.threads[step.t], c) + Indicator(step.ConnectOk? && c == w.issued)
  {
  }

  lemma PlacesNotify(cfg: Settings, w: World, step: Step, c: Conn)
    requires (step.GiveBack? || step.ReleaseConn? || step.CallClose?) && Enabled(cfg, w, step)
    ensures Places(Apply(cfg, w, step), c) == Places(w, c)
  {
    var t := step.t;
    if step.CallClose? {
      PlacesWake(w.threads, WakeEverybody, t, t, Apply(cfg, w, step).threads[t], c);
      IdleCountAsCopies(w.shared.available, c);
    } else if step.GiveBack? {
      PlacesWake(w.threads, WakeOne, step.woken, t, Outside, c);
    } else {
      PlacesRelease(cfg, w, step, c);
    }
  }

  lemma PlacesRelease(cfg: Settings, w: World, step: Step, c: Conn)
    requires step.ReleaseConn? && Enabled(cfg, w, step)
    ensures Places(Apply(cfg, w, step), c) == Places(w, c)
  {
    var t := step.t;
    var conn := w.threads[t].conn;
    PlacesWake(w.threads, WakeOne, step.woken, t, Apply(cfg, w, step).threads[t], c);
    IdleCountAppend(w.shared.available, Idle(w.clock, conn), c);
    assert Copies([conn], c) == Indicator(conn == c);
  }

  lemma OwnedAcrossPass(was: Phase, r: PassResult, deadline: real, c: Conn)
    requires was.AtLock? || ((was.Woken? || was.TimedOut?) && was.stale == [])
    ensures Owned(was, c) == Copies([], c) == 0
    ensures Owned(AfterPass(r, deadline), c) + Copies(Dropped(r), c)
      == Copies(r.stale, c) + if r.outcome.Reuse? then Indicator(r.outcome.conn == c) else 0
  {
  }

  lemma PlacesPass(cfg: Settings, w: World, step: Step, c: Conn)
    requires cfg.Valid() && Conservation(cfg, w) && step.Pass? && Enabled(cfg, w, step)
    ensures Places(Apply(cfg, w, step), c) == Places(w, c)
  {
    hide AcquirePass, Collect, WakeUp, AfterPass, Owned, Population, Copies, IdleCount;
    var t, deadline := step.t, w.threads[step.t].deadline;
    var r := AcquirePass(cfg, w.shared, w.clock, deadline);
    PassEffect(cfg, w.shared, w.clock, deadline, c);
    OwnedAcrossPass(w.threads[t], r, deadline, c);
    OwnedMove(w.threads, t, AfterPass(r, deadline), c);
    assert Dropped(r) == [] && [] + w.abandoned == w.abandoned;
  }

  lemma PlacesWake(threads: seq<Phase>, wake: Wake, woken: nat, t: nat, ph: Phase, c: Conn)
    requires t < |threads| && !threads[t].Waiting?
    ensures OwnedByAll(WakeUp(threads, wake, woken)[t := ph], c) + Owned(threads[t], c)
      == OwnedByAll(threads, c) + Owned(ph, c)
  {
    WakeOwned(threads, wake, woken, c);
    OwnedMove(WakeUp(threads, wake, woken), t, ph, c);
  }

  lemma CloseFirstEffect(ph: Phase, c: Conn)
    requires ph.Woken? || ph.TimedOut? || ph.GotIdle? || ph.GotSlot? ==> ph.stale != []
    requires ph.Closing? ==> ph.toClose != []
    requires ph.Woken? || ph.TimedOut? || ph.GotIdle? || ph.GotSlot? || ph.Closing?
    ensures var (next, first) := CloseFirst(ph); Owned(next, c) + Indicator(first == c) == Owned(ph, c)
  {
  }

  // ----- The invariant over steps and runs -----

  lemma StepKeepsInv(cfg: Settings, w: World, step: Step)
    requires cfg.Valid() && Inv(cfg, w) && Enabled(cfg, w, step)
    ensures Inv(cfg, Apply(cfg, w, step))
  {
    var w' := Apply(cfg, w, step);
    match step {
      case Pass(_) => CountsPass(cfg, w, step);
      case GiveBack(_, _) => CountsGiveBack(cfg, w, step);
      case ReleaseConn(_, _) => CountsRelease(cfg, w, step);
      case CallClose(_) => CountsCallClose(cfg, w, step);
      case _ => CountsOutsideLock(cfg, w, step);
    }
    assert OnePlaceEach(w') by {
      forall c: Conn ensures Places(w', c) == Indicator(c < w'.issued) {
        PlacesStep(cfg, w, step, c);
      }
    }
    PhasesStep(cfg, w, step);
  }

  lemma PhasesStep(cfg: Settings, w: World, step: Step)
    requires cfg.Valid() && Conservation(cfg, w) && Enabled(cfg, w, step)
    requires w.abandoned == [] && forall i :: 0 <= i < |w.threads| ==> PhaseOk(cfg, w.threads[i])
    ensures var w' := Apply(cfg, w, step);
      w'.abandoned == [] && forall i :: 0 <= i < |w'.threads| ==> PhaseOk(cfg, w'.threads[i])
  {
    if step.Pass? {
      hide AcquirePass;
      PassEffect(cfg, w.shared, w.clock, w.threads[step.t].deadline, 0);
    } else if step.GiveBack? || step.ReleaseConn? || step.CallClose? {
      PhasesNotify(cfg, w, step);
    }
  }

  lemma PhasesNotify(cfg: Settings, w: World, step: Step)
    requires (step.GiveBack? || step.ReleaseConn? || step.CallClose?) && Enabled(cfg, w, step)
    requires w.abandoned == [] && forall i :: 0 <= i < |w.threads| ==> PhaseOk(cfg, w.threads[i])
    ensures var w' := Apply(cfg, w, step);
      w'.abandoned == [] && forall i :: 0 <= i < |w'.threads| ==> PhaseOk(cfg, w'.threads[i])
  {
    hide Conservation, Population;
  }

  lemma {:induction false} StartInv(cfg: Settings, n: nat, clock: real)
    requires cfg.Valid()
    ensures Inv(cfg, Start(n, clock))
  {
    NobodyOutside(Start(n, clock).threads);
  }

  lemma {:induction false} NobodyOutside(threads: seq<Phase>)
    requires forall i :: 0 <= i < |threads| ==> threads[i].Outside?
    ensures Population(threads, InUse) == Population(threads, BeingCreated) == Population(threads, IsWaiting) == 0
    ensures forall c: Conn :: OwnedByAll(threads, c) == 0
  {
    if threads != [] {
      NobodyOutside(threads[1..]);
    }
  }

  lemma {:induction false} RunKeepsInv(cfg: Settings, w: World, steps: seq<Step>)
    requires cfg.Valid() && Inv(cfg, w) && IsRun(cfg, w, steps)
    ensures Inv(cfg, Final(cfg, w, steps))
    decreases |steps|
  {
    if steps != [] {
      StepKeepsInv(cfg, w, steps[0]);
      RunKeepsInv(cfg, Apply(cfg, w, steps[0]), steps[1..]);
    }
  }

  lemma ReachableInv(cfg: Settings, w: World)
    requires cfg.Valid() && Reachable(cfg, w)
    ensures Inv(cfg, w)
  {
    var n: nat, clock: real, steps: seq<Step> :|
      IsRun(cfg, Start(n, clock), steps) && Final(cfg, Start(n, clock), steps) == w;
    StartInv(cfg, n, clock);
    RunKeepsInv(cfg, Start(n, clock), steps);
  }

  // ----- What the invariant means -----

  /**
   No lost wake-up: while some thread still waits un-notified, every connection or slot it could
   take is already spoken for by a notified thread that has yet to run.
  */
  lemma NoWakeupIsLost(cfg: Settings, w: World, t: nat)
    requires cfg.Valid() && Reachable(cfg, w)
    requires t < |w.threads| && w.threads[t].Waiting?
    ensures |w.shared.available| + (cfg.maxSize - w.shared.total) <= Population(w.threads, IsWoken)
    ensures !w.shared.closed
  {
    ReachableInv(cfg, w);
    PopulationPositive(w.threads, t, IsWaiting);
  }

  lemma {:induction false} SomeMember(threads: seq<Phase>, p: Phase -> bool) returns (t: nat)
    requires Population(threads, p) > 0
    ensures t < |threads| && p(threads[t])
  {
    if p(threads[0]) {
      t := 0;
    } else {
      t := SomeMember(threads[1..], p);
      t := t + 1;
    }
  }

  /** A waiting thread is never stranded: somebody was notified and has yet to run, or still owes a notify(). */
  lemma WaiterIsNotStranded(cfg: Settings, w: World, t: nat) returns (other: nat)
    requires cfg.Valid() && cfg.validates && Reachable(cfg, w)
    requires t < |w.threads| && w.threads[t].Waiting?
    ensures other < |w.threads|
    ensures IsWoken(w.threads[other]) || InUse(w.threads[other]) || BeingCreated(w.threads[other])
  {
    NoWakeupIsLost(cfg, w, t);
    ReachableInv(cfg, w);
    if Population(w.threads, IsWoken) > 0 {
      other := SomeMember(w.threads, IsWoken);
    } else if Population(w.threads, InUse) > 0 {
      other := SomeMember(w.threads, InUse);
    } else {
      other := SomeMember(w.threads, BeingCreated);
    }
  }

  ghost predicate SlotsBalance(cfg: Settings, w: World) {
    && w.shared.total == |w.shared.available| + Population(w.threads, InUse) + Population(w.threads, BeingCreated)
    && 0 <= w.shared.total <= cfg.maxSize
  }

  /** Slots are conserved in every reachable state exactly when the configuration validates. */
  lemma SlotsConservedIffConfigValidates(cfg: Settings)
    requires cfg.Valid()
    ensures (forall w: World :: Reachable(cfg, w) ==> SlotsBalance(cfg, w)) <==> cfg.validates
  {
    forall w: World | Reachable(cfg, w) && cfg.validates
      ensures SlotsBalance(cfg, w)
    {
      ReachableInv(cfg, w);
    }
    if !cfg.validates {
      var w := LeakOne(cfg);
      NobodyOutside(w.threads);
      assert Reachable(cfg, w) && !SlotsBalance(cfg, w);
    }
  }

  /** One acquire with a configuration that does not validate counts a slot nobody ever returns. */
  lemma LeakOne(cfg: Settings) returns (w: World)
    requires cfg.Valid() && !cfg.validates
    ensures Reachable(cfg, w) && w.shared.total == 1 && w.leaked == 1
    ensures w.threads == [Outside] && w.shared.available == []
  {
    var start := Start(1, 0.0);
    var entered := Apply(cfg, start, Enter(0));
    var passed := Apply(cfg, entered, Pass(0));
    assert Enabled(cfg, passed, Proceed(0)) by {
      assert Collect(cfg, start.shared, 0.0) == (start.shared, []);
    }
    w := Apply(cfg, passed, Proceed(0));
    var steps := [Enter(0), Pass(0), Proceed(0)];
    assert steps[1..] == [Pass(0), Proceed(0)] && steps[1..][1..] == [Proceed(0)];
    assert IsRun(cfg, passed, [Proceed(0)]) && Final(cfg, passed, [Proceed(0)]) == w;
    assert IsRun(cfg, entered, [Pass(0), Proceed(0)]) && Final(cfg, entered, [Pass(0), Proceed(0)]) == w;
    assert IsRun(cfg, start, steps) && Final(cfg, start, steps) == w;
  }

  /** None of the `max(0, ...)` clamps on the total ever changes a value. */
  lemma ClampsNeverBite(cfg: Settings, w: World, step: Step)
    requires cfg.Valid() && Reachable(cfg, w) && Enabled(cfg, w, step)
    ensures step.GiveBack? || step.ReleaseConn? ==> w.shared.total >= 1
    ensures step.GiveBack? ==> Apply(cfg, w, step).shared.total == w.shared.total - 1
    ensures step.Pass? && !w.shared.closed ==>
      var (after, stale) := Collect(cfg, w.shared, w.clock);
      after.total == w.shared.total - |stale| >= 0
    ensures step.CallClose? ==>
      Apply(cfg, w, step).shared.total == w.shared.total - |w.shared.available| >= 0
  {
    ReachableInv(cfg, w);
    PopulationPositive(w.threads, step.t, InUse);
    PopulationPositive(w.threads, step.t, BeingCreated);
    CollectEffect(cfg, w.shared, w.clock, 0);
  }

  lemma {:induction false} CopiesPositive(list: seq<Conn>, c: Conn)
    ensures c in list <==> Copies(list, c) > 0
  {
    if list != [] {
      CopiesPositive(list[1..], c);
      assert list == [list[0]] + list[1..];
    }
  }

  lemma {:induction false} IdlePositive(idles: seq<Idle>, c: Conn)
    ensures (exists i :: 0 <= i < |idles| && idles[i].conn == c) <==> IdleCount(idles, c) > 0
  {
    if idles != [] {
      IdlePositive(idles[1..], c);
      if i :| 0 <= i < |idles| && idles[i].conn == c {
        if i > 0 { assert idles[1..][i - 1].conn == c; }
      }
      if j :| 0 <= j < |idles[1..]| && idles[1..][j].conn == c {
        assert idles[j + 1].conn == c;
      }
    }
  }

  lemma {:induction false} OwnedBound(threads: seq<Phase>, i: nat, c: Conn)
    requires i < |threads|
    ensures Owned(threads[i], c) <= OwnedByAll(threads, c)
  {
    if i > 0 {
      OwnedBound(threads[1..], i - 1, c);
    }
  }

  lemma {:induction false} OwnedPairBound(threads: seq<Phase>, i: nat, j: nat, c: Conn)
    requires i < j < |threads|
    ensures Owned(threads[i], c) + Owned(threads[j], c) <= OwnedByAll(threads, c)
  {
    if i == 0 {
      OwnedBound(threads[1..], j - 1, c);
    } else {
      OwnedPairBound(threads[1..], i - 1, j - 1, c);
    }
  }

  lemma {:induction false} SomeOwner(threads: seq<Phase>, c: Conn) returns (t: nat)
    requires OwnedByAll(threads, c) > 0
    ensures t < |threads| && Owned(threads[t], c) > 0
  {
    if Owned(threads[0], c) > 0 {
      t := 0;
    } else {
      t := SomeOwner(threads[1..], c);
      t := t + 1;
    }
  }

  /**
   An opened connection is in exactly one place: idle, in the hands of one thread (which uses it
   or is about to close it), or closed; closed at most once, and never dropped without a close.
  */
  lemma ExactlyOnePlace(cfg: Settings, w: World, c: Conn)
    requires cfg.Valid() && Reachable(cfg, w)
    ensures w.abandoned == []
    ensures c < w.issued ==>
      IdleCount(w.shared.available, c) + OwnedByAll(w.threads, c) + Copies(w.closed, c) == 1
    ensures c >= w.issued ==>
      IdleCount(w.shared.available, c) == OwnedByAll(w.threads, c) == Copies(w.closed, c) == 0
    ensures forall i, j :: 0 <= i < j < |w.threads| ==> Owned(w.threads[i], c) == 0 || Owned(w.threads[j], c) == 0
  {
    ReachableInv(cfg, w);
    assert Places(w, c) == Indicator(c < w.issued);
    forall i, j | 0 <= i < j < |w.threads|
      ensures Owned(w.threads[i], c) == 0 || Owned(w.threads[j], c) == 0
    {
      OwnedPairBound(w.threads, i, j, c);
    }
  }

  /** A caller's connection is open, is nobody else's, and had not idled for the idle limit. */
  lemma HeldConnectionIsUsable(cfg: Settings, w: World, t: nat)
    requires cfg.Valid() && Reachable(cfg, w)
    requires t < |w.threads| && (w.threads[t].Holding? || w.threads[t].GotIdle?)
    ensures
      var c := w.threads[t].conn;
      && c < w.issued
      && c !in w.closed
      && (forall i :: 0 <= i < |w.shared.available| ==> w.shared.available[i].conn != c)
      && (forall i :: 0 <= i < |w.threads| && i != t ==> Owned(w.threads[i], c) == 0)
    ensures cfg.idleTtl > 0.0 ==> w.threads[t].idled < cfg.idleTtl
  {
    var c := w.threads[t].conn;
    ReachableInv(cfg, w);
    assert Places(w, c) == Indicator(c < w.issued);
    OwnedBound(w.threads, t, c);
    CopiesPositive(w.closed, c);
    IdlePositive(w.shared.available, c);
    forall i | 0 <= i < |w.threads| && i != t
      ensures Owned(w.threads[i], c) == 0
    {
      OwnedPairBound(w.threads, if i < t then i else t, if i < t then t else i, c);
    }
  }

  /** A thread that waits, was woken, or timed out holds no uncollected connection. */
  lemma WaitersHoldNothing(cfg: Settings, w: World, step: Step)
    requires cfg.Valid() && Reachable(cfg, w) && Enabled(cfg, w, step) && step.Pass?
    ensures
      var r := AcquirePass(cfg, w.shared, w.clock, w.threads[step.t].deadline);
      r.outcome.WaitFor? || r.outcome.RaiseTimeout? || r.outcome.RaiseClosed? ==> r.stale == []
    ensures forall i :: 0 <= i < |w.threads| && w.threads[i].Waiting? ==> w.threads[i].stale == []
  {
    ReachableInv(cfg, w);
    PassEffect(cfg, w.shared, w.clock, w.threads[step.t].deadline, 0);
  }

  /** After close() nothing is idle and nobody waits, for the rest of the run. */
  lemma {:induction false} ClosedForGood(cfg: Settings, w: World, steps: seq<Step>)
    requires cfg.Valid() && Inv(cfg, w) && w.shared.closed && IsRun(cfg, w, steps)
    ensures
      var last := Final(cfg, w, steps);
      && last.shared.closed && last.shared.available == []
      && Population(last.threads, IsWaiting) == 0
      && Inv(cfg, last)
    decreases |steps|
  {
    if steps != [] {
      StepKeepsInv(cfg, w, steps[0]);
      ClosedForGood(cfg, Apply(cfg, w, steps[0]), steps[1..]);
    }
  }

  /** Once every block has exited after close(), no slot is counted and every connection is closed. */
  lemma ClosedAndQuiet(cfg: Settings, w: World)
    requires cfg.Valid() && cfg.validates && Reachable(cfg, w)
    requires w.shared.closed && forall t :: 0 <= t < |w.threads| ==> w.threads[t].Outside?
    ensures w.shared.total == 0 && w.shared.available == []
    ensures forall c: Conn :: c in w.closed <==> c < w.issued
    ensures forall c: Conn :: Copies(w.closed, c) <= 1
  {
    ReachableInv(cfg, w);
    NobodyOutside(w.threads);
    forall c: Conn ensures (c in w.closed <==> c < w.issued) && Copies(w.closed, c) <= 1 {
      CopiesPositive(w.closed, c);
      assert Places(w, c) == Indicator(c < w.issued);
    }
  }
}
