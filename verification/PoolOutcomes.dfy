/**
 Which outcome an acquire has, in terms of the pool as it stands: the last usable idle connection,
 else a new one while there is room, else a wait until the deadline, and a timeout only after it.
*/
module PoolOutcomes {
  import opened Common
  import opened Pool
  import opened PoolProtocol
  import opened PoolSafety

  /** An idle connection that may still be handed out. */
  predicate Usable(cfg: Settings, now: real, i: Idle) {
    cfg.idleTtl <= 0.0 || now - i.releasedAt < cfg.idleTtl
  }

  /** How many idle connections are past the idle limit. */
  function TooOld(cfg: Settings, now: real, idles: seq<Idle>): nat {
    if idles == [] then 0 else (if Usable(cfg, now, idles[0]) then 0 else 1) + TooOld(cfg, now, idles[1..])
  }

  /** The usable ones, in order. */
  function UsableOnes(cfg: Settings, now: real, idles: seq<Idle>): seq<Idle> {
    if idles == [] then [] else
    (if Usable(cfg, now, idles[0]) then [idles[0]] else []) + UsableOnes(cfg, now, idles[1..])
  }

  /** The connections past the limit, in order. */
  function OldOnes(cfg: Settings, now: real, idles: seq<Idle>): seq<Conn> {
    if idles == [] then [] else
    (if Usable(cfg, now, idles[0]) then [] else [idles[0].conn]) + OldOnes(cfg, now, idles[1..])
  }

  lemma {:induction false} Partition(cfg: Settings, now: real, idles: seq<Idle>)
    requires cfg.idleTtl > 0.0
    ensures ActiveOf(cfg, now, idles) == UsableOnes(cfg, now, idles)
    ensures Conns(StaleOf(cfg, now, idles)) == OldOnes(cfg, now, idles)
  {
    if idles != [] {
      Partition(cfg, now, idles[1..]);
      var stale := StaleOf(cfg, now, idles[1..]);
      if !Usable(cfg, now, idles[0]) {
        assert StaleOf(cfg, now, idles) == [idles[0]] + stale;
        assert Conns([idles[0]] + stale) == [idles[0].conn] + Conns(stale);
      } else {
        assert StaleOf(cfg, now, idles) == stale;
      }
    }
  }

  lemma {:induction false} AllUsable(cfg: Settings, now: real, idles: seq<Idle>)
    requires cfg.idleTtl <= 0.0
    ensures UsableOnes(cfg, now, idles) == idles && OldOnes(cfg, now, idles) == []
  {
    if idles != [] {
      AllUsable(cfg, now, idles[1..]);
    }
  }

  lemma {:induction false} Sizes(cfg: Settings, now: real, idles: seq<Idle>)
    ensures |OldOnes(cfg, now, idles)| == TooOld(cfg, now, idles) <= |idles|
    ensures |UsableOnes(cfg, now, idles)| == |idles| - TooOld(cfg, now, idles)
  {
    if idles != [] {
      Sizes(cfg, now, idles[1..]);
    }
  }

  /** Collecting removes exactly the connections past the limit, hands them over in order, and uncounts them. */
  lemma CollectIs(cfg: Settings, sh: Shared, now: real)
    requires cfg.idleTtl >= 0.0 && |sh.available| <= sh.total
    ensures
      var (after, stale) := Collect(cfg, sh, now);
      && after.available == UsableOnes(cfg, now, sh.available)
      && stale == OldOnes(cfg, now, sh.available)
      && after.total == sh.total - TooOld(cfg, now, sh.available)
      && after.closed == sh.closed
  {
    Sizes(cfg, now, sh.available);
    if cfg.idleTtl > 0.0 {
      Partition(cfg, now, sh.available);
      if StaleOf(cfg, now, sh.available) == [] {
        assert Conns([]) == [];
        KeepAll(cfg, now, sh.available);
      }
    } else {
      AllUsable(cfg, now, sh.available);
    }
  }

  lemma {:induction false} KeepAll(cfg: Settings, now: real, idles: seq<Idle>)
    requires TooOld(cfg, now, idles) == 0
    ensures UsableOnes(cfg, now, idles) == idles
  {
    if idles != [] {
      KeepAll(cfg, now, idles[1..]);
    }
  }

  predicate AnyUsable(cfg: Settings, now: real, idles: seq<Idle>) {
    exists k :: 0 <= k < |idles| && Usable(cfg, now, idles[k])
  }

  /** The last of the usable ones, and where it stands among all. */
  lemma {:induction false} LastUsable(cfg: Settings, now: real, idles: seq<Idle>) returns (k: nat)
    requires UsableOnes(cfg, now, idles) != []
    ensures k < |idles| && Usable(cfg, now, idles[k])
    ensures idles[k] == UsableOnes(cfg, now, idles)[|UsableOnes(cfg, now, idles)| - 1]
    ensures forall j :: k < j < |idles| ==> !Usable(cfg, now, idles[j])
  {
    if UsableOnes(cfg, now, idles[1..]) != [] {
      k := LastUsable(cfg, now, idles[1..]);
      k := k + 1;
      assert idles[k] == idles[1..][k - 1];
      forall j | k < j < |idles| ensures !Usable(cfg, now, idles[j]) {
        assert idles[j] == idles[1..][j - 1];
      }
    } else {
      k := 0;
      NoneUsable(cfg, now, idles[1..]);
      forall j | 0 < j < |idles| ensures !Usable(cfg, now, idles[j]) {
        assert idles[j] == idles[1..][j - 1];
      }
    }
  }

  lemma {:induction false} NoneUsable(cfg: Settings, now: real, idles: seq<Idle>)
    ensures UsableOnes(cfg, now, idles) == [] <==> !AnyUsable(cfg, now, idles)
  {
    if idles != [] {
      NoneUsable(cfg, now, idles[1..]);
      assert forall j :: 1 <= j < |idles| ==> idles[j] == idles[1..][j - 1];
      if k :| 0 <= k < |idles[1..]| && Usable(cfg, now, idles[1..][k]) {
        assert Usable(cfg, now, idles[k + 1]);
      }
    }
  }

  /** The idle connection k is the last one that may still be handed out. */
  predicate IsLastUsable(cfg: Settings, now: real, idles: seq<Idle>, k: nat) {
    k < |idles| && Usable(cfg, now, idles[k]) && forall j :: k < j < |idles| ==> !Usable(cfg, now, idles[j])
  }

  lemma UniqueLast(cfg: Settings, now: real, idles: seq<Idle>, i: nat, k: nat)
    requires IsLastUsable(cfg, now, idles, i) && IsLastUsable(cfg, now, idles, k)
    ensures i == k
  {
  }

  /**
   The outcome of one trip through the acquire section of an open pool: the last usable idle
   connection; with none, a new one exactly when there is room; with none and no room, a wait for the
   time left, and a timeout exactly when no time is left.
  */
  lemma OutcomeIs(cfg: Settings, sh: Shared, now: real, deadline: real)
    requires cfg.idleTtl >= 0.0 && !sh.closed && |sh.available| <= sh.total <= cfg.maxSize
    ensures
      var r := AcquirePass(cfg, sh, now, deadline);
      var room := sh.total - TooOld(cfg, now, sh.available) < cfg.maxSize;
      && (r.outcome.Reuse? <==> AnyUsable(cfg, now, sh.available))
      && (forall k: nat :: IsLastUsable(cfg, now, sh.available, k) ==>
            r.outcome == Reuse(sh.available[k].conn, now - sh.available[k].releasedAt))
      && (!AnyUsable(cfg, now, sh.available) && room ==> r.outcome == CreateNew)
      && (!AnyUsable(cfg, now, sh.available) && !room && deadline <= now ==> r.outcome == RaiseTimeout)
      && (!AnyUsable(cfg, now, sh.available) && !room && deadline > now ==> r.outcome == WaitFor(deadline - now))
      && r.stale == OldOnes(cfg, now, sh.available)
      && (var left := UsableOnes(cfg, now, sh.available);
          r.shared.available == if left != [] then left[..|left| - 1] else [])
      && r.shared.total == sh.total - |r.stale| + if r.outcome.CreateNew? then 1 else 0
  {
    hide Collect, UsableOnes, OldOnes, TooOld;
    CollectIs(cfg, sh, now);
    Sizes(cfg, now, sh.available);
    NoneUsable(cfg, now, sh.available);
    if UsableOnes(cfg, now, sh.available) != [] {
      var i := LastUsable(cfg, now, sh.available);
      forall k: nat | IsLastUsable(cfg, now, sh.available, k) ensures k == i {
        UniqueLast(cfg, now, sh.available, i, k);
      }
    }
  }

  // ----- The outcome in the protocol -----

  /** The deadline of a thread that is acquiring. */
  predicate Acquiring(ph: Phase) { ph.AtLock? || ph.Waiting? || ph.Woken? || ph.TimedOut? }

  /** An acquire that starts has the whole acquire timeout before it. */
  lemma EnterStarts(cfg: Settings, w: World, t: nat)
    requires Enabled(cfg, w, Enter(t))
    ensures var ph := Apply(cfg, w, Enter(t)).threads[t];
      Acquiring(ph) && ph.deadline - w.clock == cfg.acquireTimeout
  {
  }

  /** Until it gets past the acquire section, a thread keeps the deadline it started with. */
  lemma StepKeepsDeadline(cfg: Settings, w: World, step: Step, t: nat)
    requires Enabled(cfg, w, step) && t < |w.threads| && Acquiring(w.threads[t])
    requires var after := Apply(cfg, w, step); t < |after.threads| && Acquiring(after.threads[t])
    ensures Apply(cfg, w, step).threads[t].deadline == w.threads[t].deadline
  {
  }

  predicate KeepsAcquiring(cfg: Settings, w: World, steps: seq<Step>, t: nat)
    requires IsRun(cfg, w, steps)
    decreases |steps|
  {
    && t < |w.threads| && Acquiring(w.threads[t])
    && (steps != [] ==> KeepsAcquiring(cfg, Apply(cfg, w, steps[0]), steps[1..], t))
  }

  lemma {:induction false} RunKeepsDeadline(cfg: Settings, w: World, steps: seq<Step>, t: nat)
    requires IsRun(cfg, w, steps) && KeepsAcquiring(cfg, w, steps, t)
    ensures var last := Final(cfg, w, steps);
      t < |last.threads| && Acquiring(last.threads[t]) && last.threads[t].deadline == w.threads[t].deadline
    decreases |steps|
  {
    hide Apply, Enabled;
    if steps != [] {
      RunKeepsDeadline(cfg, Apply(cfg, w, steps[0]), steps[1..], t);
      StepKeepsDeadline(cfg, w, steps[0], t);
    }
  }

  lemma ReachesMore(cfg: Settings, w: World, step: Step)
    requires cfg.Valid() && Reachable(cfg, w) && Enabled(cfg, w, step)
    ensures Reachable(cfg, Apply(cfg, w, step))
  {
    var n: nat, clock: real, steps: seq<Step> :|
      IsRun(cfg, Start(n, clock), steps) && Final(cfg, Start(n, clock), steps) == w;
    RunThenStep(cfg, Start(n, clock), steps, step);
  }

  lemma {:induction false} RunThenStep(cfg: Settings, w: World, steps: seq<Step>, step: Step)
    requires IsRun(cfg, w, steps) && Enabled(cfg, Final(cfg, w, steps), step)
    ensures IsRun(cfg, w, steps + [step])
    ensures Final(cfg, w, steps + [step]) == Apply(cfg, Final(cfg, w, steps), step)
    decreases |steps|
  {
    hide Apply, Enabled;
    if steps == [] {
      assert [step][1..] == [] && [] + [step] == [step];
    } else {
      assert (steps + [step])[0] == steps[0] && (steps + [step])[1..] == steps[1..] + [step];
      RunThenStep(cfg, Apply(cfg, w, steps[0]), steps[1..], step);
    }
  }

  lemma {:induction false} ReachesFinal(cfg: Settings, w: World, steps: seq<Step>)
    requires cfg.Valid() && Reachable(cfg, w) && IsRun(cfg, w, steps)
    ensures Reachable(cfg, Final(cfg, w, steps))
    decreases |steps|
  {
    hide Apply, Enabled, Reachable;
    if steps != [] {
      ReachesMore(cfg, w, steps[0]);
      ReachesFinal(cfg, Apply(cfg, w, steps[0]), steps[1..]);
    }
  }

  /** What a thread does when its acquire section runs in a reachable state of an open pool. */
  lemma ReachableOutcome(cfg: Settings, w: World, t: nat)
    requires cfg.Valid() && Reachable(cfg, w) && Enabled(cfg, w, Pass(t)) && !w.shared.closed
    ensures
      var after := Apply(cfg, w, Pass(t)).threads[t];
      var deadline := w.threads[t].deadline;
      var room := w.shared.total - TooOld(cfg, w.clock, w.shared.available) < cfg.maxSize;
      if AnyUsable(cfg, w.clock, w.shared.available) then after.GotIdle?
      else if room then after.GotSlot?
      else if deadline <= w.clock then after == Outside
      else after == Waiting(deadline, [])
  {
    hide AcquirePass, Reachable, TooOld;
    ReachableInv(cfg, w);
    OutcomeIs(cfg, w.shared, w.clock, w.threads[t].deadline);
    PassEffect(cfg, w.shared, w.clock, w.threads[t].deadline, 0);
  }

  /**
   No acquire fails early: from the moment a thread enters, through any steps of any threads, as long
   as less than the acquire timeout has passed and the pool is open, its acquire section hands it a
   connection or a slot or leaves it waiting.
  */
  lemma NoEarlyTimeout(cfg: Settings, w: World, t: nat, steps: seq<Step>)
    requires cfg.Valid() && Reachable(cfg, w) && Enabled(cfg, w, Enter(t))
    requires IsRun(cfg, Apply(cfg, w, Enter(t)), steps)
    requires KeepsAcquiring(cfg, Apply(cfg, w, Enter(t)), steps, t)
    requires var last := Final(cfg, Apply(cfg, w, Enter(t)), steps);
      !last.shared.closed && last.clock < w.clock + cfg.acquireTimeout && Enabled(cfg, last, Pass(t))
    ensures var after := Apply(cfg, Final(cfg, Apply(cfg, w, Enter(t)), steps), Pass(t)).threads[t];
      after.GotIdle? || after.GotSlot? || after.Waiting?
  {
    hide Reachable, Apply, Enabled, KeepsAcquiring, IsRun, Final;
    var entered := Apply(cfg, w, Enter(t));
    EnterStarts(cfg, w, t);
    ReachesMore(cfg, w, Enter(t));
    ReachesFinal(cfg, entered, steps);
    RunKeepsDeadline(cfg, entered, steps, t);
    ReachableOutcome(cfg, Final(cfg, entered, steps), t);
  }

  // ----- A state in which a thread waits -----

  /** The first i threads have a connection each, and the others have not started. */
  function InUseBy(n: nat, i: nat): World
    requires i <= n
  {
    World(Shared([], i, false), seq(n, j requires 0 <= j < n => if j < i then Holding(j, 0.0) else Outside),
          0.0, i, [], [], 0)
  }

  /** One more thread that has entered, and what its acquire section does. */
  function InUseAnd(n: nat, i: nat, ph: Phase, total: nat): World
    requires i < n
  {
    var w := InUseBy(n, i);
    w.(threads := w.threads[i := ph], shared := w.shared.(total := total))
  }

  lemma NothingCollected(cfg: Settings, sh: Shared, now: real)
    requires sh.available == []
    ensures Collect(cfg, sh, now) == (sh, [])
  {
  }

  lemma Enters(cfg: Settings, n: nat, i: nat)
    requires i < n
    ensures Enabled(cfg, InUseBy(n, i), Enter(i))
    ensures Apply(cfg, InUseBy(n, i), Enter(i)) == InUseAnd(n, i, AtLock(cfg.acquireTimeout), i)
  {
  }

  lemma Passes(cfg: Settings, n: nat, i: nat)
    requires cfg.Valid() && i < n && i <= cfg.maxSize
    ensures var w := InUseAnd(n, i, AtLock(cfg.acquireTimeout), i);
      && Enabled(cfg, w, Pass(i))
      && Apply(cfg, w, Pass(i)) ==
           if i < cfg.maxSize then InUseAnd(n, i, GotSlot([]), i + 1)
           else InUseAnd(n, i, Waiting(cfg.acquireTimeout, []), i)
  {
    var w := InUseAnd(n, i, AtLock(cfg.acquireTimeout), i);
    NothingCollected(cfg, w.shared, 0.0);
    assert [] + w.abandoned == w.abandoned;
  }

  lemma Connects(cfg: Settings, n: nat, i: nat)
    requires cfg.Valid() && cfg.validates && i < n
    ensures var w := InUseAnd(n, i, GotSlot([]), i + 1);
      && Enabled(cfg, w, Proceed(i)) && Enabled(cfg, Apply(cfg, w, Proceed(i)), ConnectOk(i))
      && Apply(cfg, Apply(cfg, w, Proceed(i)), ConnectOk(i)) == InUseBy(n, i + 1)
  {
    var w := InUseAnd(n, i, GotSlot([]), i + 1);
    assert Apply(cfg, w, Proceed(i)) == InUseAnd(n, i, Connecting, i + 1);
    assert InUseAnd(n, i, Connecting, i + 1).threads[i := Holding(i, 0.0)] == InUseBy(n, i + 1).threads;
  }

  lemma ReachesSlot(cfg: Settings, n: nat, i: nat)
    requires cfg.Valid() && i < n && i <= cfg.maxSize && Reachable(cfg, InUseBy(n, i))
    ensures Reachable(cfg, if i < cfg.maxSize then InUseAnd(n, i, GotSlot([]), i + 1)
                           else InUseAnd(n, i, Waiting(cfg.acquireTimeout, []), i))
  {
    hide Reachable, Apply, Enabled, InUseBy, InUseAnd;
    Enters(cfg, n, i);
    ReachesMore(cfg, InUseBy(n, i), Enter(i));
    Passes(cfg, n, i);
    ReachesMore(cfg, InUseAnd(n, i, AtLock(cfg.acquireTimeout), i), Pass(i));
  }

  lemma ReachesHolding(cfg: Settings, n: nat, i: nat)
    requires cfg.Valid() && cfg.validates && i < n && Reachable(cfg, InUseAnd(n, i, GotSlot([]), i + 1))
    ensures Reachable(cfg, InUseBy(n, i + 1))
  {
    hide Reachable, Apply, Enabled, InUseBy, InUseAnd;
    Connects(cfg, n, i);
    var w := InUseAnd(n, i, GotSlot([]), i + 1);
    ReachesMore(cfg, w, Proceed(i));
    ReachesMore(cfg, Apply(cfg, w, Proceed(i)), ConnectOk(i));
  }

  lemma {:induction false} ReachesInUse(cfg: Settings, n: nat, i: nat)
    requires cfg.Valid() && cfg.validates && i <= n && i <= cfg.maxSize
    ensures Reachable(cfg, InUseBy(n, i))
  {
    if i == 0 {
      var w := Start(n, 0.0);
      assert w.threads == InUseBy(n, 0).threads;
      assert IsRun(cfg, w, []) && Final(cfg, w, []) == w;
    } else {
      ReachesInUse(cfg, n, i - 1);
      ReachesSlot(cfg, n, i - 1);
      ReachesHolding(cfg, n, i - 1);
    }
  }

  /** Threads do wait: with every connection of the pool in use, the next thread waits the time it asked for. */
  lemma SomebodyWaits(cfg: Settings) returns (w: World)
    requires cfg.Valid() && cfg.validates
    ensures Reachable(cfg, w) && !w.shared.closed && w.shared.total == cfg.maxSize
    ensures |w.threads| == cfg.maxSize + 1 && w.threads[cfg.maxSize..] == [Waiting(cfg.acquireTimeout, [])]
  {
    hide Reachable;
    var n := cfg.maxSize + 1;
    ReachesInUse(cfg, n, cfg.maxSize);
    ReachesSlot(cfg, n, cfg.maxSize);
    w := InUseAnd(n, cfg.maxSize, Waiting(cfg.acquireTimeout, []), cfg.maxSize);
  }
}
