/**
 The rate of a key that the overflow loop may forget: each time it does, the key starts again, and
 can be accepted once more up to the limit. This bound holds for every key and is reached.
*/
module RateDrops {
  import opened Common
  import opened RateLimiter
  import opened RateLimiterTheorems

  /** The calls, at times selected by `p`, whose overflow loop forgets the key. */
  function Drops(l: Limits, b: Book, calls: seq<Call>, key: Key, p: real -> bool): nat
    requires l.Valid()
    decreases |calls|
  {
    if calls == [] then 0 else
    (if key in Overflowed(l, b.tables, calls[0].key, calls[0].now) && p(calls[0].now) then 1 else 0)
    + Drops(l, Serve(l, b, calls[0]), calls[1..], key, p)
  }

  /** What a key that is forgotten that often can be accepted. */
  function Allowance(l: Limits, drops: nat): int {
    l.maxRequests * (1 + drops)
  }

  lemma AllowanceGrows(l: Limits, drops: nat)
    requires l.Valid()
    ensures Allowance(l, drops + 1) == Allowance(l, drops) + l.maxRequests
    ensures Allowance(l, drops) >= l.maxRequests
  {
    assert l.maxRequests * (2 + drops) == l.maxRequests * (1 + drops) + l.maxRequests;
    if drops > 0 {
      AllowanceGrows(l, drops - 1);
    }
  }

  /** A stretch of time shorter than the window. */
  ghost predicate Stretch(l: Limits, p: real -> bool) {
    && (forall x, y, z :: p(x) && p(z) && x <= y <= z ==> p(y))
    && (forall x, y :: p(x) && p(y) ==> y - x < l.window as real)
  }

  function AcceptedNow(l: Limits, b: Book, c: Call, key: Key): seq<real>
    requires l.Valid()
  {
    if c.key == key && Allow(l, b.tables, c.key, c.now).allowed then [c.now] else []
  }

  /** A call extends the history of the key, or forgets it while serving another. */
  lemma HistoryStep(l: Limits, b: Book, c: Call, key: Key)
    requires l.Valid() && l.enabled && BookOk(l, b, c.now)
    ensures var next := Serve(l, b, c).history;
      if key in Overflowed(l, b.tables, c.key, c.now) then c.key != key && History(next, key) == []
      else History(next, key) == History(b.history, key) + AcceptedNow(l, b, c, key)
  {
    hide Allow, Overflowed, Refines, TablesOk, BookOk;
    BookTablesOk(l, b, c.now);
    OverflowEffect(l, b.tables, c.key, c.now);
  }

  lemma {:induction false} AcceptedLater(l: Limits, b: Book, calls: seq<Call>, key: Key, clock: real)
    requires l.Valid() && ClockAdvances(clock, calls)
    ensures forall x <- AcceptedTimes(l, b, calls, key) :: x >= clock
    decreases |calls|
  {
    hide Allow, Serve;
    if calls != [] {
      AcceptedLater(l, Serve(l, b, calls[0]), calls[1..], key, calls[0].now);
    }
  }

  lemma HistoryBound(l: Limits, b: Book, key: Key, p: real -> bool, clock: real)
    requires l.Valid() && BookOk(l, b, clock) && Stretch(l, p)
    ensures |Filter(History(b.history, key), p)| <= l.maxRequests
    ensures forall x <- History(b.history, key) :: x <= clock
  {
    var h := History(b.history, key);
    assert HistoryOk(l, h, clock);
    WindowBound(l, h, p);
  }

  /** A time outside a stretch has the stretch on one side. */
  lemma OneSide(l: Limits, p: real -> bool, before: seq<real>, after: seq<real>, now: real)
    requires Stretch(l, p) && !p(now)
    requires (forall x <- before :: x <= now) && (forall x <- after :: x >= now)
    ensures Filter(before, p) == [] || Filter(after, p) == []
  {
    if exists x <- before :: p(x) {
      var x :| x in before && p(x);
      forall z <- after ensures !p(z) {
        assert x <= now <= z;
      }
      FilterNone(after, p);
    } else {
      FilterNone(before, p);
    }
  }

  /** What was accepted before a drop, and what after it. */
  lemma AcrossDrop(l: Limits, p: real -> bool, before: seq<real>, after: seq<real>, now: real, drops: nat)
    requires l.Valid() && Stretch(l, p) && (forall x <- before :: x <= now) && (forall x <- after :: x >= now)
    requires |Filter(before, p)| <= l.maxRequests && |Filter(after, p)| <= Allowance(l, drops)
    ensures |Filter(before + after, p)| <= Allowance(l, drops + if p(now) then 1 else 0)
  {
    hide Stretch, Allowance;
    FilterAppend(before, after, p);
    AllowanceGrows(l, drops);
    if !p(now) {
      OneSide(l, p, before, after, now);
    }
  }

  lemma {:induction false} RunBound(
      l: Limits, b: Book, calls: seq<Call>, key: Key, p: real -> bool, clock: real)
    requires l.Valid() && l.enabled && BookOk(l, b, clock) && ClockAdvances(clock, calls) && Stretch(l, p)
    ensures |Filter(History(b.history, key) + AcceptedTimes(l, b, calls, key), p)|
      <= Allowance(l, Drops(l, b, calls, key, p))
    decreases |calls|
  {
    hide Serve, Allow, Overflowed, BookOk, Stretch, Allowance, Filter, History;
    var h := History(b.history, key);
    HistoryBound(l, b, key, p, clock);
    AllowanceGrows(l, 0);
    if calls == [] {
      assert h + [] == h;
      AllowanceGrows(l, Drops(l, b, calls, key, p));
    } else {
      var c, next := calls[0], Serve(l, b, calls[0]);
      LaterOk(l, b, clock, c.now);
      ServeOk(l, b, c);
      HistoryStep(l, b, c, key);
      RunBound(l, next, calls[1..], key, p, c.now);
      var first, rest := AcceptedNow(l, b, c, key), AcceptedTimes(l, next, calls[1..], key);
      if key in Overflowed(l, b.tables, c.key, c.now) {
        assert [] + rest == rest;
        AcceptedLater(l, next, calls[1..], key, c.now);
        AcrossDrop(l, p, h, rest, c.now, Drops(l, next, calls[1..], key, p));
      } else {
        assert h + (first + rest) == (h + first) + rest;
      }
    }
  }

  function Opened(from: real, window: int): real -> bool {
    x => from < x <= from + window as real
  }

  function Closed(from: real, window: int): real -> bool {
    x => from <= x < from + window as real
  }

  lemma WindowsAreStretches(l: Limits, from: real)
    ensures Stretch(l, Opened(from, l.window)) && Stretch(l, Closed(from, l.window))
  {
  }

  /**
   In every half-open window of the limiter's length, any key is accepted at most `maxRequests` times
   for each time it is forgotten inside the window, and `maxRequests` times more.
  */
  lemma RateIsBoundedByDrops(l: Limits, calls: seq<Call>, key: Key, from: real, clock: real)
    requires l.Valid() && l.enabled && ClockAdvances(clock, calls)
    ensures
      var accepted := AcceptedTimes(l, FRESH, calls, key);
      && |Filter(accepted, Opened(from, l.window))|
           <= l.maxRequests * (1 + Drops(l, FRESH, calls, key, Opened(from, l.window)))
      && |Filter(accepted, Closed(from, l.window))|
           <= l.maxRequests * (1 + Drops(l, FRESH, calls, key, Closed(from, l.window)))
  {
    hide BookOk, Stretch, AcceptedTimes, Drops, Filter, ClockAdvances;
    FreshOk(l, clock);
    WindowsAreStretches(l, from);
    var accepted := AcceptedTimes(l, FRESH, calls, key);
    assert History(FRESH.history, key) + accepted == accepted;
    RunBound(l, FRESH, calls, key, Opened(from, l.window), clock);
    RunBound(l, FRESH, calls, key, Closed(from, l.window), clock);
  }

  // ----- The bound is reached -----

  lemma {:induction false} RunsAppend(
      l: Limits, b: Book, first: seq<Call>, rest: seq<Call>, key: Key, p: real -> bool)
    requires l.Valid()
    ensures var mid := ServeAll(l, b, first);
      && ServeAll(l, b, first + rest) == ServeAll(l, mid, rest)
      && AcceptedTimes(l, b, first + rest, key) == AcceptedTimes(l, b, first, key) + AcceptedTimes(l, mid, rest, key)
      && Drops(l, b, first + rest, key, p) == Drops(l, b, first, key, p) + Drops(l, mid, rest, key, p)
    decreases |first|
  {
    hide Serve, Allow, Overflowed;
    if first == [] {
      assert first + rest == rest;
    } else {
      assert (first + rest)[0] == first[0] && (first + rest)[1..] == first[1..] + rest;
      RunsAppend(l, Serve(l, b, first[0]), first[1..], rest, key, p);
    }
  }

  function Zeros(n: nat): seq<real> {
    seq(n, _ => 0.0)
  }

  /** A burst within the limit is accepted, and never forgets its own key. */
  lemma {:induction false} BurstIsAccepted(l: Limits, b: Book, key: Key, more: nat, p: real -> bool)
    requires l.Valid() && l.enabled && BookOk(l, b, 0.0) && |History(b.history, key)| + more <= l.maxRequests
    ensures AcceptedTimes(l, b, Burst(key, more), key) == Zeros(more)
    ensures Drops(l, b, Burst(key, more), key, p) == 0
    ensures BookOk(l, ServeAll(l, b, Burst(key, more)), 0.0)
    decreases more
  {
    hide Allow, Overflowed, BookOk, Serve;
    if more > 0 {
      var c := Call(key, 0.0);
      assert Burst(key, more)[0] == c && Burst(key, more)[1..] == Burst(key, more - 1);
      NextIsAccepted(l, b, key);
      BurstIsAccepted(l, Serve(l, b, c), key, more - 1, p);
      assert Zeros(more) == [0.0] + Zeros(more - 1);
    }
  }

  lemma NextIsAccepted(l: Limits, b: Book, key: Key)
    requires l.Valid() && l.enabled && BookOk(l, b, 0.0) && |History(b.history, key)| < l.maxRequests
    ensures var c := Call(key, 0.0);
      && Allow(l, b.tables, key, 0.0).allowed && key !in Overflowed(l, b.tables, key, 0.0)
      && BookOk(l, Serve(l, b, c), 0.0)
      && |History(Serve(l, b, c).history, key)| == |History(b.history, key)| + 1
  {
    hide Allow, Overflowed, BookOk, Recent, Serve, Refines, TablesOk;
    BookTablesOk(l, b, 0.0);
    DecisionIsReference(l, b.tables, b.history, key, 0.0);
    RecentIsLess(History(b.history, key), 0.0 - l.window as real);
    HistoryStep(l, b, Call(key, 0.0), key);
    OverflowEffect(l, b.tables, key, 0.0);
    ServeOk(l, b, Call(key, 0.0));
  }

  lemma RecentIsLess(h: seq<real>, cutoff: real)
    ensures |Recent(h, cutoff)| <= |h|
  {
  }

  /** All at time 0, and the key is the first in line to be forgotten. */
  predicate Crowded(l: Limits, t: Tables, key: Key) {
    && TablesOk(l, t, 0.0)
    && (forall k <- t.events :: t.events[k] != [] && forall x <- t.events[k] :: x == 0.0)
    && t.lastSeen != [] && t.lastSeen[0].key == key
    && (forall s <- t.lastSeen :: s.at == 0.0)
  }

  /** Nothing of such tables is swept. */
  lemma NothingSwept(t: Tables, cutoff: real)
    requires cutoff < 0.0 && forall k <- t.events :: t.events[k] != [] && forall x <- t.events[k] :: x == 0.0
    ensures Sweep(t, cutoff) == t
  {
    forall k <- t.events ensures Prune(t.events[k], cutoff) == t.events[k] {
      assert t.events[k][0] in t.events[k];
    }
    assert StaleKeys(t.events, cutoff) == {};
    FilterAll(t.lastSeen, KeyNotIn({}));
  }

  /** A key never seen is accepted and comes last. */
  lemma Newcomer(l: Limits, t: Tables, key: Key, o: Key)
    requires l.Valid() && Crowded(l, t, key) && o !in t.events
    ensures var u := Updated(l, t, o, 0.0);
      && u == Tables(t.events[o := [0.0]], t.lastSeen + [Seen(o, 0.0)])
      && |u.events| == |t.events| + 1
      && (forall k <- u.events :: u.events[k] != [] && forall x <- u.events[k] :: x == 0.0)
      && (forall s <- u.lastSeen :: s.at == 0.0)
  {
    hide Updated, Touch, DequesOk, DistinctSeen, SeenKeys;
    TouchEffect(t.lastSeen, o, 0.0);
    NewSample(l, t, o);
    NewKeyCount(t.events, o, [0.0]);
  }

  lemma NewSample(l: Limits, t: Tables, o: Key)
    requires l.Valid() && o !in t.events
    ensures Updated(l, t, o, 0.0) == Tables(t.events[o := [0.0]], Touch(t.lastSeen, o, 0.0))
  {
    assert [] + [0.0] == [0.0];
  }

  lemma NewKeyCount(events: map<Key, seq<real>>, o: Key, samples: seq<real>)
    requires o !in events
    ensures |events[o := samples]| == |events| + 1
  {
    assert events[o := samples].Keys == events.Keys + {o};
  }

  lemma NewcomerFits(l: Limits, t: Tables, key: Key, o: Key)
    requires l.Valid() && l.enabled && Crowded(l, t, key) && o !in t.events && |t.events| < l.maxKeys
    ensures var next := Allow(l, t, o, 0.0).tables;
      && Crowded(l, next, key) && next.events.Keys == t.events.Keys + {o} && |next.events| == |t.events| + 1
      && Overflowed(l, t, o, 0.0) == {}
  {
    hide Allow, TablesOk;
    Newcomer(l, t, key, o);
    AllowKeepsTables(l, t, o, 0.0);
    AllowIsTrimmedUpdate(l, t, o, 0.0);
  }

  lemma {:induction false} FirstIsOldest(seen: seq<Seen>)
    requires seen != [] && forall s <- seen :: s.at == 0.0
    ensures Oldest(seen) == seen[0]
  {
    if |seen| > 1 {
      OldestIn(seen[1..]);
    }
  }

  lemma NewcomerDrops(l: Limits, t: Tables, key: Key, o: Key)
    requires l.Valid() && l.enabled && Crowded(l, t, key) && o !in t.events && |t.events| == l.maxKeys
    ensures Overflowed(l, t, o, 0.0) == {key}
  {
    hide TablesOk, DropOverflow, Sweep, Overflowed, Drop;
    Newcomer(l, t, key, o);
    var u := Updated(l, t, o, 0.0);
    NothingSwept(u, 0.0 - l.window as real);
    OverflowingTrim(l, t, o, 0.0);
    var others := SweptTables(l, t, o, 0.0);
    FirstIsOldest(u.lastSeen);
    DropOne(u, others, Seen(o, 0.0), l.maxKeys);
  }

  /** Keys other than `key` and than each other. */
  function Other(key: Key, i: nat): Key {
    seq(|key| + 1 + i, _ => 'x')
  }

  function Others(key: Key, from: nat, n: nat): seq<Call> {
    seq(n, j requires 0 <= j < n => Call(Other(key, from + j), 0.0))
  }

  /** Filling the tables with other keys forgets the key once, at the last of them. */
  lemma {:induction false} OthersDrop(l: Limits, b: Book, key: Key, i: nat, p: real -> bool)
    requires l.Valid() && l.enabled && BookOk(l, b, 0.0) && p(0.0)
    requires i < l.maxKeys && Crowded(l, b.tables, key) && |b.tables.events| == i + 1
    requires forall j: nat :: j >= i ==> Other(key, j) !in b.tables.events
    ensures var run := Others(key, i, l.maxKeys - i);
      && AcceptedTimes(l, b, run, key) == [] && Drops(l, b, run, key, p) == 1
      && BookOk(l, ServeAll(l, b, run), 0.0) && History(ServeAll(l, b, run).history, key) == []
    decreases l.maxKeys - i
  {
    hide Allow, Overflowed, BookOk, Crowded;
    var o := Other(key, i);
    var c, run := Call(o, 0.0), Others(key, i, l.maxKeys - i);
    var next := Serve(l, b, c);
    assert run[0] == c && run[1..] == Others(key, i + 1, l.maxKeys - i - 1);
    ServeOk(l, b, c);
    HistoryStep(l, b, c, key);
    if i == l.maxKeys - 1 {
      NewcomerDrops(l, b.tables, key, o);
      assert run[1..] == [];
    } else {
      NewcomerFits(l, b.tables, key, o);
      forall j: nat | j >= i + 1 ensures Other(key, j) !in next.tables.events {
        assert |Other(key, j)| != |o|;
      }
      OthersDrop(l, next, key, i + 1, p);
    }
  }

  /** A full burst, enough other keys to be forgotten, and the burst again. */
  function RunPastLimit(l: Limits, key: Key): seq<Call>
    requires l.Valid()
  {
    Burst(key, l.maxRequests) + (Others(key, 0, l.maxKeys) + Burst(key, l.maxRequests))
  }

  lemma OneKeyIsCrowded(l: Limits, key: Key)
    requires l.Valid()
    ensures Crowded(l, OneKey(key, l.maxRequests), key) && |OneKey(key, l.maxRequests).events| == 1
    ensures OneKey(key, l.maxRequests).events.Keys == {key}
  {
    var t := OneKey(key, l.maxRequests);
    assert t.events.Keys == {key} && |t.events| == 1;
    assert SeenKeys([Seen(key, 0.0)]) == {key} && [Seen(key, 0.0)][1..] == [];
    ZerosOk(l);
    assert t.events[key] == Zeros(l.maxRequests);
    assert SameKeys(t);
    assert DequesOk(l, t.events, 0.0);
    assert SeenBy(t.lastSeen, 0.0);
  }

  lemma ZerosOk(l: Limits)
    requires l.Valid()
    ensures var s := Zeros(l.maxRequests); s != [] && DequeOk(l, s, 0.0) && forall x <- s :: x == 0.0
  {
  }

  /**
   The bound is reached by every limiter: a key is accepted twice its limit at one instant, because
   it is forgotten in between, once.
  */
  lemma BoundIsReached(l: Limits, key: Key)
    requires l.Valid() && l.enabled
    ensures
      var p := Closed(0.0, l.window);
      && ClockAdvances(0.0, RunPastLimit(l, key))
      && |Filter(AcceptedTimes(l, FRESH, RunPastLimit(l, key), key), p)| == 2 * l.maxRequests
      && Drops(l, FRESH, RunPastLimit(l, key), key, p) == 1
  {
    hide BookOk, Crowded, ServeAll, AcceptedTimes, Drops;
    var p, m := Closed(0.0, l.window), l.maxRequests;
    var burst, others := Burst(key, m), Others(key, 0, l.maxKeys);
    FreshOk(l, 0.0);
    BurstIsAccepted(l, FRESH, key, m, p);
    BurstFills(l, FRESH, key, 0, m);
    var b := ServeAll(l, FRESH, burst);
    OneKeyIsCrowded(l, key);
    OthersDrop(l, b, key, 0, p);
    BurstIsAccepted(l, ServeAll(l, b, others), key, m, p);
    RunsAppend(l, FRESH, burst, others + burst, key, p);
    RunsAppend(l, b, others, burst, key, p);
    assert Zeros(m) + ([] + Zeros(m)) == Zeros(2 * m);
    FilterAll(Zeros(2 * m), p);
    AllAtZero(RunPastLimit(l, key));
  }

  lemma {:induction false} AllAtZero(calls: seq<Call>)
    requires forall c <- calls :: c.now == 0.0
    ensures ClockAdvances(0.0, calls)
  {
    if calls != [] {
      AllAtZero(calls[1..]);
    }
  }
}
