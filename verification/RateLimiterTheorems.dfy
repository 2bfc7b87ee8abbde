/**
 The rate limiter against one that keeps every key's whole accepted history, over any run of calls
 whose clock does not go backwards, and the bounds of its tables.
*/
module RateLimiterTheorems {
  import opened Common
  import opened RateLimiter

  predicate Ascending(s: seq<real>) {
    forall i, j :: 0 <= i < j < |s| ==> s[i] <= s[j]
  }

  function Newer(cutoff: real): real -> bool {
    x => x > cutoff
  }

  /** The samples strictly after the cutoff. */
  function Recent(s: seq<real>, cutoff: real): seq<real> {
    Filter(s, Newer(cutoff))
  }

  function History(hist: map<Key, seq<real>>, key: Key): seq<real> {
    if key in hist then hist[key] else []
  }

  // ----- What the tables keep -----

  predicate DistinctSeen(seen: seq<Seen>) {
    seen == [] || (seen[0].key !in SeenKeys(seen[1..]) && DistinctSeen(seen[1..]))
  }

  predicate SameKeys(t: Tables) {
    t.events.Keys == SeenKeys(t.lastSeen) && DistinctSeen(t.lastSeen)
  }

  predicate DequeOk(l: Limits, samples: seq<real>, clock: real) {
    Ascending(samples) && |samples| <= l.maxRequests && forall x <- samples :: x <= clock
  }

  predicate DequesOk(l: Limits, events: map<Key, seq<real>>, clock: real) {
    forall k <- events :: DequeOk(l, events[k], clock)
  }

  predicate SeenBy(seen: seq<Seen>, clock: real) {
    forall s <- seen :: s.at <= clock
  }

  predicate TablesOk(l: Limits, t: Tables, clock: real) {
    SameKeys(t) && |t.events| <= l.maxKeys && DequesOk(l, t.events, clock) && SeenBy(t.lastSeen, clock)
  }

  /** The tables keep every sample of the history that can still matter at `clock` or later. */
  ghost predicate Refines(l: Limits, t: Tables, hist: map<Key, seq<real>>, clock: real) {
    forall key: Key, cutoff: real :: cutoff >= clock - l.window as real ==>
      Recent(Samples(t, key), cutoff) == Recent(History(hist, key), cutoff)
  }

  // ----- Pruning -----

  lemma {:induction false} PruneIsRecent(s: seq<real>, cutoff: real)
    requires Ascending(s)
    ensures Prune(s, cutoff) == Recent(s, cutoff)
  {
    if s != [] {
      if s[0] > cutoff {
        FilterAll(s, Newer(cutoff));
      } else {
        PruneIsRecent(s[1..], cutoff);
      }
    }
  }

  lemma {:induction false} PruneKeepsRecent(s: seq<real>, cutoff: real, later: real)
    requires cutoff <= later
    ensures Recent(Prune(s, cutoff), later) == Recent(s, later)
  {
    if s != [] && s[0] <= cutoff {
      PruneKeepsRecent(s[1..], cutoff, later);
    }
  }

  lemma {:induction false} PruneSuffix(s: seq<real>, cutoff: real)
    ensures var p := Prune(s, cutoff);
      |p| <= |s| && p == s[|s| - |p|..] && (p != [] ==> p[0] > cutoff)
  {
    if s != [] && s[0] <= cutoff {
      PruneSuffix(s[1..], cutoff);
    }
  }

  // ----- Keys of the two tables -----

  lemma {:induction false} SeenHasKey(seen: seq<Seen>, s: Seen)
    requires s in seen
    ensures s.key in SeenKeys(seen)
  {
    if seen[0] != s {
      SeenHasKey(seen[1..], s);
    }
  }

  lemma {:induction false} TouchEffect(seen: seq<Seen>, key: Key, now: real)
    requires DistinctSeen(seen) && SeenBy(seen, now)
    ensures var after := Touch(seen, key, now);
      && SeenKeys(after) == SeenKeys(seen) + {key}
      && DistinctSeen(after) && SeenBy(after, now)
      && (key !in SeenKeys(seen) ==> after == seen + [Seen(key, now)])
  {
    if seen != [] && seen[0].key != key {
      TouchEffect(seen[1..], key, now);
      assert Touch(seen, key, now)[1..] == Touch(seen[1..], key, now);
    } else if seen != [] {
      assert Touch(seen, key, now)[1..] == seen[1..];
    }
  }

  lemma {:induction false} FilterSeen(seen: seq<Seen>, gone: set<Key>)
    requires DistinctSeen(seen)
    ensures var after := Filter(seen, KeyNotIn(gone));
      SeenKeys(after) == SeenKeys(seen) - gone && DistinctSeen(after)
  {
    if seen != [] {
      FilterSeen(seen[1..], gone);
      var rest := Filter(seen[1..], KeyNotIn(gone));
      if seen[0].key in gone {
        assert Filter(seen, KeyNotIn(gone)) == rest;
      } else {
        assert Filter(seen, KeyNotIn(gone)) == [seen[0]] + rest && ([seen[0]] + rest)[1..] == rest;
      }
    }
  }

  lemma FilterSeenBy(seen: seq<Seen>, gone: set<Key>, clock: real)
    requires SeenBy(seen, clock)
    ensures SeenBy(Filter(seen, KeyNotIn(gone)), clock)
  {
    FilterIn(seen, KeyNotIn(gone));
  }

  lemma SweepSameKeys(t: Tables, cutoff: real)
    requires SameKeys(t)
    ensures SameKeys(Sweep(t, cutoff))
    ensures Sweep(t, cutoff).events.Keys == t.events.Keys - StaleKeys(t.events, cutoff)
    ensures |Sweep(t, cutoff).events| <= |t.events|
  {
    FilterSeen(t.lastSeen, StaleKeys(t.events, cutoff));
    SubsetSize(Sweep(t, cutoff).events.Keys, t.events.Keys);
  }

  lemma SweepKeeps(t: Tables, cutoff: real)
    requires SameKeys(t)
    ensures SameKeys(Sweep(t, cutoff)) && |Sweep(t, cutoff).events| <= |t.events|
  {
    hide SameKeys, Sweep;
    SweepSameKeys(t, cutoff);
  }

  lemma DropSameKeys(t: Tables, key: Key)
    requires SameKeys(t)
    ensures SameKeys(Drop(t, key)) && Drop(t, key).events.Keys == t.events.Keys - {key}
  {
    FilterSeen(t.lastSeen, {key});
  }

  /** The overflow loop always gets down to the limit; its `break` is never reached with keys left. */
  lemma {:induction false} DropOverflowFits(t: Tables, maxKeys: int)
    requires SameKeys(t) && maxKeys >= 0
    ensures SameKeys(DropOverflow(t, maxKeys)) && |DropOverflow(t, maxKeys).events| <= maxKeys
    decreases |t.lastSeen|
  {
    if t.lastSeen == [] {
      assert t.events.Keys == {};
    } else if |t.events| > maxKeys {
      var victim := Oldest(t.lastSeen);
      OldestIn(t.lastSeen);
      FilterDrops(t.lastSeen, KeyNotIn({victim.key}), victim);
      DropSameKeys(t, victim.key);
      DropOverflowFits(Drop(t, victim.key), maxKeys);
    }
  }

  /** When everyone else was seen no later, the minimum, taken in insertion order, is not the last key. */
  lemma {:induction false} OldestIsNotLast(seen: seq<Seen>, last: Seen)
    requires seen != [] && forall s <- seen :: s.at <= last.at
    ensures Oldest(seen + [last]) in seen
  {
    assert (seen + [last])[1..] == seen[1..] + [last];
    if |seen| > 1 {
      OldestIsNotLast(seen[1..], last);
      assert seen == [seen[0]] + seen[1..];
    }
  }

  // ----- One call -----

  /** The tables just before trimming, which an allowed or refused call has updated. */
  function Updated(l: Limits, t: Tables, key: Key, now: real): Tables
    requires l.Valid()
  {
    var samples := Prune(Samples(t, key), now - l.window as real);
    Tables(t.events[key := if |samples| >= l.maxRequests then samples else samples + [now]],
           Touch(t.lastSeen, key, now))
  }

  /** The keys that this call's overflow loop forgets. */
  function Overflowed(l: Limits, t: Tables, key: Key, now: real): set<Key>
    requires l.Valid()
  {
    var u := Updated(l, t, key, now);
    if |u.events| <= l.maxKeys then {} else
    Sweep(u, now - l.window as real).events.Keys - DropOverflow(Sweep(u, now - l.window as real), l.maxKeys).events.Keys
  }

  lemma UpdatedOk(l: Limits, t: Tables, key: Key, now: real)
    requires l.Valid() && TablesOk(l, t, now)
    ensures var u := Updated(l, t, key, now);
      && SameKeys(u) && SeenBy(u.lastSeen, now)
      && |u.events| <= l.maxKeys + 1
      && (key in t.events ==> |u.events| <= l.maxKeys)
  {
    TouchEffect(t.lastSeen, key, now);
    var u := Updated(l, t, key, now);
    assert u.events.Keys == t.events.Keys + {key};
    if key in t.events {
      assert u.events.Keys == t.events.Keys;
    }
  }

  lemma AppendAscending(h: seq<real>, now: real)
    requires Ascending(h) && forall x <- h :: x <= now
    ensures Ascending(h + [now])
  {
    forall i, j | 0 <= i < j < |h + [now]| ensures (h + [now])[i] <= (h + [now])[j] {
      if j == |h| {
        assert h[i] in h;
      }
    }
  }

  lemma PrunedDequeOk(l: Limits, samples: seq<real>, cutoff: real, clock: real)
    requires DequeOk(l, samples, clock)
    ensures DequeOk(l, Prune(samples, cutoff), clock)
  {
    PruneSuffix(samples, cutoff);
    assert forall x <- Prune(samples, cutoff) :: x in samples;
  }

  lemma UpdatedDequesOk(l: Limits, t: Tables, key: Key, now: real)
    requires l.Valid() && DequesOk(l, t.events, now)
    ensures DequesOk(l, Updated(l, t, key, now).events, now)
  {
    assert DequeOk(l, Samples(t, key), now);
    PrunedDequeOk(l, Samples(t, key), now - l.window as real, now);
    var samples := Prune(Samples(t, key), now - l.window as real);
    if |samples| < l.maxRequests {
      AppendAscending(samples, now);
    }
  }

  lemma SweptDequesOk(l: Limits, t: Tables, cutoff: real, clock: real)
    requires DequesOk(l, t.events, clock)
    ensures DequesOk(l, Sweep(t, cutoff).events, clock)
  {
    forall k <- Sweep(t, cutoff).events ensures DequeOk(l, Sweep(t, cutoff).events[k], clock) {
      PrunedDequeOk(l, t.events[k], cutoff, clock);
    }
  }

  /** Only a new key can overflow the tables, and then it is the last one seen. */
  lemma NewKeyComesLast(l: Limits, t: Tables, key: Key, now: real) returns (others: seq<Seen>)
    requires l.Valid() && TablesOk(l, t, now) && |Updated(l, t, key, now).events| > l.maxKeys
    ensures var swept := Sweep(Updated(l, t, key, now), now - l.window as real);
      && swept.lastSeen == others + [Seen(key, now)] && SeenBy(others, now)
      && key in swept.events && key !in SeenKeys(others)
  {
    UpdatedOk(l, t, key, now);
    var u := Updated(l, t, key, now);
    var stale := StaleKeys(u.events, now - l.window as real);
    assert Samples(t, key) == [] && u.events[key] == [now];
    assert key !in stale;
    TouchEffect(t.lastSeen, key, now);
    others := Filter(t.lastSeen, KeyNotIn(stale));
    FilterAppend(t.lastSeen, [Seen(key, now)], KeyNotIn(stale));
    assert Filter([Seen(key, now)], KeyNotIn(stale)) == [Seen(key, now)];
    FilterSeenBy(t.lastSeen, stale, now);
    FilterSeen(t.lastSeen, stale);
  }

  /** Tables one key over the limit lose exactly one key, and not the last one seen. */
  lemma DropOne(t: Tables, others: seq<Seen>, last: Seen, maxKeys: int)
    requires SameKeys(t) && t.lastSeen == others + [last] && SeenBy(others, last.at) && last.key !in SeenKeys(others)
    requires |t.events| == maxKeys + 1 && maxKeys >= 1
    ensures var victim := Oldest(t.lastSeen).key;
      && victim != last.key && victim in t.events
      && DropOverflow(t, maxKeys) == Drop(t, victim)
      && Drop(t, victim).events == t.events - {victim}
      && SameKeys(Drop(t, victim)) && |Drop(t, victim).events| == maxKeys
      && t.events.Keys - Drop(t, victim).events.Keys == {victim}
  {
    assert others != [] by {
      assert SeenKeys([last]) == {last.key};
      assert |t.events.Keys| > 1;
    }
    OldestIsNotLast(others, last);
    var victim := Oldest(t.lastSeen);
    SeenHasKey(others, victim);
    OldestIn(t.lastSeen);
    SeenHasKey(t.lastSeen, victim);
    DropSameKeys(t, victim.key);
    assert Drop(t, victim.key).events.Keys == t.events.Keys - {victim.key};
    assert |t.events.Keys - {victim.key}| == maxKeys;
  }

  /** The tables as the overflow loop finds them: bounded by one more key, the served key last. */
  lemma {:induction false} SweptTables(l: Limits, t: Tables, key: Key, now: real) returns (others: seq<Seen>)
    requires l.Valid() && TablesOk(l, t, now) && |Updated(l, t, key, now).events| > l.maxKeys
    ensures var swept := Sweep(Updated(l, t, key, now), now - l.window as real);
      && Trim(l, Updated(l, t, key, now), now) == DropOverflow(swept, l.maxKeys)
      && SameKeys(swept) && |swept.events| <= l.maxKeys + 1 && key in swept.events
      && swept.lastSeen == others + [Seen(key, now)] && SeenBy(others, now) && key !in SeenKeys(others)
  {
    hide TablesOk, Updated, Sweep, DropOverflow, SameKeys, SeenBy, SeenKeys, Trim, Overflowed, DistinctSeen;
    UpdatedOk(l, t, key, now);
    SweepKeeps(Updated(l, t, key, now), now - l.window as real);
    OverflowingTrim(l, t, key, now);
    others := NewKeyComesLast(l, t, key, now);
  }

  lemma OverflowingTrim(l: Limits, t: Tables, key: Key, now: real)
    requires l.Valid() && |Updated(l, t, key, now).events| > l.maxKeys
    ensures var swept := Sweep(Updated(l, t, key, now), now - l.window as real);
      && Trim(l, Updated(l, t, key, now), now) == DropOverflow(swept, l.maxKeys)
      && Overflowed(l, t, key, now) == swept.events.Keys - DropOverflow(swept, l.maxKeys).events.Keys
  {
    hide Updated, Sweep, DropOverflow;
  }

  /** The tables fit after trimming and still hold the key just served. */
  lemma TrimFits(l: Limits, t: Tables, key: Key, now: real)
    requires l.Valid() && TablesOk(l, t, now)
    ensures var after := Trim(l, Updated(l, t, key, now), now);
      SameKeys(after) && |after.events| <= l.maxKeys && key in after.events
  {
    hide TablesOk, Updated, Sweep, DropOverflow, SameKeys, SeenBy, SeenKeys, Overflowed, Oldest, Drop;
    UpdatedHasKey(l, t, key, now);
    UpdatedOk(l, t, key, now);
    if |Updated(l, t, key, now).events| > l.maxKeys {
      var others := SweptTables(l, t, key, now);
      var swept := Sweep(Updated(l, t, key, now), now - l.window as real);
      if |swept.events| > l.maxKeys {
        DropOne(swept, others, Seen(key, now), l.maxKeys);
      } else {
        NoOverflow(swept, l.maxKeys);
      }
    }
  }

  /** At most one key overflows, and it is never the key just served. */
  lemma OverflowEffect(l: Limits, t: Tables, key: Key, now: real)
    requires l.Valid() && TablesOk(l, t, now)
    ensures |Overflowed(l, t, key, now)| <= 1 && key !in Overflowed(l, t, key, now)
    ensures |Updated(l, t, key, now).events| > l.maxKeys ==>
      Trim(l, Updated(l, t, key, now), now).events ==
        Sweep(Updated(l, t, key, now), now - l.window as real).events - Overflowed(l, t, key, now)
  {
    if |Updated(l, t, key, now).events| > l.maxKeys {
      OverflowingDrops(l, t, key, now);
    }
  }

  lemma OverflowingDrops(l: Limits, t: Tables, key: Key, now: real)
    requires l.Valid() && TablesOk(l, t, now) && |Updated(l, t, key, now).events| > l.maxKeys
    ensures |Overflowed(l, t, key, now)| <= 1 && key !in Overflowed(l, t, key, now)
    ensures
      Trim(l, Updated(l, t, key, now), now).events ==
        Sweep(Updated(l, t, key, now), now - l.window as real).events - Overflowed(l, t, key, now)
  {
    hide TablesOk, Updated, Sweep, DropOverflow, SameKeys, SeenBy, SeenKeys, Overflowed, Oldest, Drop, Trim;
    var others := SweptTables(l, t, key, now);
    var swept := Sweep(Updated(l, t, key, now), now - l.window as real);
    OverflowingTrim(l, t, key, now);
    if |swept.events| > l.maxKeys {
      DropOne(swept, others, Seen(key, now), l.maxKeys);
    } else {
      NoOverflow(swept, l.maxKeys);
      assert swept.events - {} == swept.events;
    }
  }

  lemma NoOverflow(t: Tables, maxKeys: int)
    requires |t.events| <= maxKeys
    ensures DropOverflow(t, maxKeys) == t
  {
  }

  /** Tables stay well formed and bounded, and hold the key just served. */
  lemma AllowKeepsTables(l: Limits, t: Tables, key: Key, now: real)
    requires l.Valid() && l.enabled && TablesOk(l, t, now)
    ensures var v := Allow(l, t, key, now);
      TablesOk(l, v.tables, now) && key in v.tables.events
  {
    AllowIsTrimmedUpdate(l, t, key, now);
    UpdatedOk(l, t, key, now);
    UpdatedDequesOk(l, t, key, now);
    UpdatedHasKey(l, t, key, now);
    TrimKeepsTables(l, t, key, now);
  }

  lemma AllowIsTrimmedUpdate(l: Limits, t: Tables, key: Key, now: real)
    requires l.Valid() && l.enabled
    ensures Allow(l, t, key, now).tables == Trim(l, Updated(l, t, key, now), now)
  {
  }

  lemma UpdatedHasKey(l: Limits, t: Tables, key: Key, now: real)
    requires l.Valid()
    ensures key in Updated(l, t, key, now).events
  {
  }

  lemma TrimKeepsTables(l: Limits, t: Tables, key: Key, now: real)
    requires l.Valid() && TablesOk(l, t, now)
    ensures var after := Trim(l, Updated(l, t, key, now), now);
      TablesOk(l, after, now) && key in after.events
  {
    hide Updated, Sweep, DropOverflow, DequesOk, DequeOk, SeenBy, SeenKeys, SameKeys, Overflowed, Prune, Ascending;
    TrimFits(l, t, key, now);
    UpdatedOk(l, t, key, now);
    UpdatedDequesOk(l, t, key, now);
    var u := Updated(l, t, key, now);
    if |u.events| > l.maxKeys {
      SweptFits(l, u, now);
      DropOverflowFitsDeques(l, Sweep(u, now - l.window as real), now);
    }
  }

  lemma SweptFits(l: Limits, u: Tables, now: real)
    requires DequesOk(l, u.events, now) && SeenBy(u.lastSeen, now)
    ensures var swept := Sweep(u, now - l.window as real);
      DequesOk(l, swept.events, now) && SeenBy(swept.lastSeen, now)
  {
    SweptDequesOk(l, u, now - l.window as real, now);
    FilterSeenBy(u.lastSeen, StaleKeys(u.events, now - l.window as real), now);
  }

  lemma {:induction false} DropOverflowFitsDeques(l: Limits, t: Tables, now: real)
    requires DequesOk(l, t.events, now) && SeenBy(t.lastSeen, now)
    ensures var after := DropOverflow(t, l.maxKeys);
      DequesOk(l, after.events, now) && SeenBy(after.lastSeen, now)
    decreases |t.lastSeen|
  {
    if |t.events| > l.maxKeys && t.lastSeen != [] {
      var victim := Oldest(t.lastSeen);
      OldestIn(t.lastSeen);
      FilterDrops(t.lastSeen, KeyNotIn({victim.key}), victim);
      FilterSeenBy(t.lastSeen, {victim.key}, now);
      DropOverflowFitsDeques(l, Drop(t, victim.key), now);
    }
  }

  // ----- Refinement of the full history -----

  /** The accepted history after a call; a key dropped by overflow starts again. */
  function HistoryAfter(l: Limits, t: Tables, hist: map<Key, seq<real>>, key: Key, now: real): map<Key, seq<real>>
    requires l.Valid()
  {
    var grown := if Allow(l, t, key, now).allowed then hist[key := History(hist, key) + [now]] else hist;
    grown - Overflowed(l, t, key, now)
  }

  /** Sweeping stale keys and pruning every deque is invisible from then on. */
  lemma SweepInvisible(l: Limits, t: Tables, hist: map<Key, seq<real>>, clock: real)
    requires Refines(l, t, hist, clock)
    ensures Refines(l, Sweep(t, clock - l.window as real), hist, clock)
  {
    var cutoff := clock - l.window as real;
    var swept := Sweep(t, cutoff);
    forall key: Key, later: real | later >= cutoff
      ensures Recent(Samples(swept, key), later) == Recent(History(hist, key), later)
    {
      PruneKeepsRecent(Samples(t, key), cutoff, later);
      assert Recent(Samples(t, key), later) == Recent(History(hist, key), later);
    }
  }

  /** A call that finds the same recent samples decides the same way. */
  lemma DecisionIsReference(l: Limits, t: Tables, hist: map<Key, seq<real>>, key: Key, now: real)
    requires l.Valid() && l.enabled && TablesOk(l, t, now) && Refines(l, t, hist, now)
    ensures var cutoff := now - l.window as real;
      && Allow(l, t, key, now).allowed == (|Recent(History(hist, key), cutoff)| < l.maxRequests)
      && Prune(Samples(t, key), cutoff) == Recent(History(hist, key), cutoff)
  {
    hide Allow, Prune, Recent, TablesOk, Ascending;
    var cutoff := now - l.window as real;
    Answers(l, t, key, now);
    SamplesAscend(l, t, key, now);
    PruneIsRecent(Samples(t, key), cutoff);
    assert Recent(Samples(t, key), cutoff) == Recent(History(hist, key), cutoff);
  }

  /** The served key's samples and history grow alike. */
  lemma ServedKeyRefines(l: Limits, t: Tables, hist: map<Key, seq<real>>, key: Key, now: real, later: real)
    requires l.Valid() && l.enabled && Ascending(Samples(t, key)) && later >= now - l.window as real
    requires Recent(Samples(t, key), later) == Recent(History(hist, key), later)
    ensures
      var grown := if Allow(l, t, key, now).allowed then hist[key := History(hist, key) + [now]] else hist;
      Recent(Samples(Updated(l, t, key, now), key), later) == Recent(History(grown, key), later)
  {
    hide Trim, Touch;
    var cutoff := now - l.window as real;
    PruneKeepsRecent(Samples(t, key), cutoff, later);
    FilterAppend(Prune(Samples(t, key), cutoff), [now], Newer(later));
    FilterAppend(History(hist, key), [now], Newer(later));
  }

  lemma SamplesAscend(l: Limits, t: Tables, key: Key, clock: real)
    requires TablesOk(l, t, clock)
    ensures Ascending(Samples(t, key))
  {
  }

  lemma UpdatedRefines(l: Limits, t: Tables, hist: map<Key, seq<real>>, key: Key, now: real)
    requires l.Valid() && l.enabled && TablesOk(l, t, now) && Refines(l, t, hist, now)
    ensures
      var grown := if Allow(l, t, key, now).allowed then hist[key := History(hist, key) + [now]] else hist;
      Refines(l, Updated(l, t, key, now), grown, now)
  {
    hide Allow, Prune, Touch, Recent, TablesOk, Ascending;
    SamplesAscend(l, t, key, now);
    var grown := if Allow(l, t, key, now).allowed then hist[key := History(hist, key) + [now]] else hist;
    var u := Updated(l, t, key, now);
    forall k: Key, later: real | later >= now - l.window as real
      ensures Recent(Samples(u, k), later) == Recent(History(grown, k), later)
    {
      assert Recent(Samples(t, k), later) == Recent(History(hist, k), later);
      if k == key {
        ServedKeyRefines(l, t, hist, key, now, later);
      } else {
        assert Samples(u, k) == Samples(t, k) && History(grown, k) == History(hist, k);
      }
    }
  }

  lemma {:induction false} AllowRefines(l: Limits, t: Tables, hist: map<Key, seq<real>>, key: Key, now: real)
    requires l.Valid() && l.enabled && TablesOk(l, t, now) && Refines(l, t, hist, now)
    ensures Refines(l, Allow(l, t, key, now).tables, HistoryAfter(l, t, hist, key, now), now)
  {
    UpdatedRefines(l, t, hist, key, now);
    AllowIsTrimmedUpdate(l, t, key, now);
    var u := Updated(l, t, key, now);
    var grown := if Allow(l, t, key, now).allowed then hist[key := History(hist, key) + [now]] else hist;
    assert HistoryAfter(l, t, hist, key, now) == grown - Overflowed(l, t, key, now);
    TrimRefines(l, t, key, now, grown);
  }

  lemma TrimRefines(l: Limits, t: Tables, key: Key, now: real, grown: map<Key, seq<real>>)
    requires l.Valid() && TablesOk(l, t, now) && Refines(l, Updated(l, t, key, now), grown, now)
    ensures Refines(l, Trim(l, Updated(l, t, key, now), now), grown - Overflowed(l, t, key, now), now)
  {
    hide Refines, Updated, TablesOk, Sweep, DropOverflow;
    OverflowEffect(l, t, key, now);
    var u := Updated(l, t, key, now);
    if |u.events| > l.maxKeys {
      var swept := Sweep(u, now - l.window as real);
      SweepInvisible(l, u, grown, now);
      ForgettingRefines(l, swept, grown, Trim(l, u, now), Overflowed(l, t, key, now), now);
    } else {
      assert u.events - {} == u.events;
      ForgettingRefines(l, u, grown, u, {}, now);
    }
  }

  /** Forgetting keys in the tables and in the history together. */
  lemma ForgettingRefines(l: Limits, t: Tables, hist: map<Key, seq<real>>, after: Tables, gone: set<Key>, clock: real)
    requires Refines(l, t, hist, clock)
    requires after.events == t.events - gone
    ensures Refines(l, after, hist - gone, clock)
  {
    forall key: Key, cutoff: real | cutoff >= clock - l.window as real
      ensures Recent(Samples(after, key), cutoff) == Recent(History(hist - gone, key), cutoff)
    {
      assert Recent(Samples(t, key), cutoff) == Recent(History(hist, key), cutoff);
    }
  }

  // ----- The rate bound -----

  /** Acceptances `maxRequests` apart are at least a window apart. */
  predicate Spaced(l: Limits, h: seq<real>)
    requires l.Valid()
  {
    forall j :: l.maxRequests <= j < |h| ==> h[j - l.maxRequests] <= h[j] - l.window as real
  }

  /** The samples from any recent one onwards are all recent. */
  lemma RecentCoversSuffix(h: seq<real>, i: nat, cutoff: real)
    requires Ascending(h) && i < |h| && h[i] > cutoff
    ensures |Recent(h, cutoff)| >= |h| - i
  {
    var front, back := h[..i], h[i..];
    assert h == front + back;
    FilterAppend(front, back, Newer(cutoff));
    FilterAll(back, Newer(cutoff));
  }

  lemma AcceptKeepsSpaced(l: Limits, h: seq<real>, now: real)
    requires l.Valid() && Ascending(h) && Spaced(l, h)
    requires |Recent(h, now - l.window as real)| < l.maxRequests
    ensures Spaced(l, h + [now])
  {
    var i := |h| - l.maxRequests;
    if i >= 0 && h[i] > now - l.window as real {
      RecentCoversSuffix(h, i, now - l.window as real);
    }
  }

  /** An order-convex predicate selecting more than n samples selects two that are n places apart. */
  lemma {:induction false} SelectedApart(h: seq<real>, p: real -> bool, n: nat) returns (j: nat)
    requires Ascending(h) && n < |Filter(h, p)|
    requires forall x, y, z :: p(x) && p(z) && x <= y <= z ==> p(y)
    ensures n <= j < |h| && p(h[j - n]) && p(h[j])
  {
    if p(h[0]) && n == 0 {
      j := 0;
    } else if p(h[0]) {
      assert Filter(h, p) == [h[0]] + Filter(h[1..], p);
      j := SelectedApart(h[1..], p, n - 1);
      assert h[1..][j] == h[j + 1] && h[0] <= h[n] <= h[j + 1];
      j := n;
    } else {
      j := SelectedApart(h[1..], p, n);
      j := j + 1;
    }
  }

  /** Any window shorter than the limiter's holds at most `maxRequests` acceptances. */
  lemma WindowBound(l: Limits, h: seq<real>, p: real -> bool)
    requires l.Valid() && Ascending(h) && Spaced(l, h)
    requires forall x, y, z :: p(x) && p(z) && x <= y <= z ==> p(y)
    requires forall x, y :: p(x) && p(y) ==> y - x < l.window as real
    ensures |Filter(h, p)| <= l.maxRequests
  {
    if |Filter(h, p)| > l.maxRequests {
      var j := SelectedApart(h, p, l.maxRequests);
      assert false;
    }
  }

  // ----- Runs -----

  datatype Call = Call(key: Key, now: real)

  datatype Book = Book(tables: Tables, history: map<Key, seq<real>>)

  predicate ClockAdvances(clock: real, calls: seq<Call>)
    decreases |calls|
  {
    calls == [] || (clock <= calls[0].now && ClockAdvances(calls[0].now, calls[1..]))
  }

  function Serve(l: Limits, b: Book, c: Call): Book
    requires l.Valid()
  {
    Book(Allow(l, b.tables, c.key, c.now).tables, HistoryAfter(l, b.tables, b.history, c.key, c.now))
  }

  function ServeAll(l: Limits, b: Book, calls: seq<Call>): Book
    requires l.Valid()
    decreases |calls|
  {
    if calls == [] then b else ServeAll(l, Serve(l, b, calls[0]), calls[1..])
  }

  /** The times at which the limiter really accepted `key`. */
  function AcceptedTimes(l: Limits, b: Book, calls: seq<Call>, key: Key): seq<real>
    requires l.Valid()
    decreases |calls|
  {
    if calls == [] then [] else
    var c := calls[0];
    (if c.key == key && Allow(l, b.tables, c.key, c.now).allowed then [c.now] else [])
    + AcceptedTimes(l, Serve(l, b, c), calls[1..], key)
  }

  predicate NeverDropped(l: Limits, b: Book, calls: seq<Call>, key: Key)
    requires l.Valid()
    decreases |calls|
  {
    calls == [] ||
    (key !in Overflowed(l, b.tables, calls[0].key, calls[0].now)
     && NeverDropped(l, Serve(l, b, calls[0]), calls[1..], key))
  }

  predicate HistoryOk(l: Limits, h: seq<real>, clock: real)
    requires l.Valid()
  {
    Ascending(h) && Spaced(l, h) && forall x <- h :: x <= clock
  }

  ghost predicate BookOk(l: Limits, b: Book, clock: real)
    requires l.Valid()
  {
    && TablesOk(l, b.tables, clock)
    && Refines(l, b.tables, b.history, clock)
    && (forall k <- b.history :: HistoryOk(l, b.history[k], clock))
  }

  const FRESH := Book(Tables(map[], []), map[])

  lemma FreshOk(l: Limits, clock: real)
    requires l.Valid()
    ensures BookOk(l, FRESH, clock)
  {
  }

  lemma LaterOk(l: Limits, b: Book, clock: real, now: real)
    requires l.Valid() && BookOk(l, b, clock) && clock <= now
    ensures BookOk(l, b, now)
  {
    forall key: Key, cutoff: real | cutoff >= now - l.window as real
      ensures Recent(Samples(b.tables, key), cutoff) == Recent(History(b.history, key), cutoff)
    {
    }
  }

  lemma ServeOk(l: Limits, b: Book, c: Call)
    requires l.Valid() && l.enabled && BookOk(l, b, c.now)
    ensures BookOk(l, Serve(l, b, c), c.now)
  {
    hide Allow, Overflowed, Refines, TablesOk, Ascending, Spaced;
    AllowKeepsTables(l, b.tables, c.key, c.now);
    AllowRefines(l, b.tables, b.history, c.key, c.now);
    DecisionIsReference(l, b.tables, b.history, c.key, c.now);
    if Allow(l, b.tables, c.key, c.now).allowed {
      AppendAscending(History(b.history, c.key), c.now);
      AcceptKeepsSpaced(l, History(b.history, c.key), c.now);
    }
  }

  lemma {:induction false} ServeAllOk(l: Limits, b: Book, calls: seq<Call>, clock: real) returns (end: real)
    requires l.Valid() && l.enabled && BookOk(l, b, clock) && ClockAdvances(clock, calls)
    ensures BookOk(l, ServeAll(l, b, calls), end)
    ensures end == if calls == [] then clock else calls[|calls| - 1].now
    decreases |calls|
  {
    hide BookOk, Serve, Allow;
    if calls == [] {
      end := clock;
    } else {
      LaterOk(l, b, clock, calls[0].now);
      ServeOk(l, b, calls[0]);
      end := ServeAllOk(l, Serve(l, b, calls[0]), calls[1..], calls[0].now);
    }
  }

  /** For a key never dropped, the history kept is the list of its acceptances. */
  lemma {:induction false} HistoryIsAccepted(l: Limits, b: Book, calls: seq<Call>, key: Key)
    requires l.Valid() && NeverDropped(l, b, calls, key)
    ensures History(ServeAll(l, b, calls).history, key) == History(b.history, key) + AcceptedTimes(l, b, calls, key)
    decreases |calls|
  {
    hide Allow, Overflowed;
    if calls != [] {
      HistoryIsAccepted(l, Serve(l, b, calls[0]), calls[1..], key);
    }
  }

  /**
   Refinement: after any run, the next call on a key that was never dropped is accepted exactly when
   fewer than `maxRequests` of all its past acceptances fall in the last window.
  */
  lemma AllowMatchesFullHistory(l: Limits, calls: seq<Call>, next: Call, clock: real)
    requires l.Valid() && l.enabled && ClockAdvances(clock, calls)
    requires clock <= next.now && (calls != [] ==> calls[|calls| - 1].now <= next.now)
    requires NeverDropped(l, FRESH, calls, next.key)
    ensures
      var recent := Recent(AcceptedTimes(l, FRESH, calls, next.key), next.now - l.window as real);
      var v := Allow(l, ServeAll(l, FRESH, calls).tables, next.key, next.now);
      && v.allowed == (|recent| < l.maxRequests)
      && (!v.allowed ==> 1 <= v.retryAfter <= l.window)
  {
    hide *;
    FreshOk(l, clock);
    var end := ServeAllOk(l, FRESH, calls, clock);
    var b := ServeAll(l, FRESH, calls);
    LaterOk(l, b, end, next.now);
    FreshHistory(l, calls, next.key);
    BookTablesOk(l, b, next.now);
    DecisionIsReference(l, b.tables, b.history, next.key, next.now);
    RetryAfterBounds(l, b.tables, next.key, next.now);
  }

  lemma FreshHistory(l: Limits, calls: seq<Call>, key: Key)
    requires l.Valid() && NeverDropped(l, FRESH, calls, key)
    ensures History(ServeAll(l, FRESH, calls).history, key) == AcceptedTimes(l, FRESH, calls, key)
  {
    HistoryIsAccepted(l, FRESH, calls, key);
    hide Serve, ServeAll, AcceptedTimes, NeverDropped;
    assert History(FRESH.history, key) + AcceptedTimes(l, FRESH, calls, key) == AcceptedTimes(l, FRESH, calls, key);
  }

  lemma BookTablesOk(l: Limits, b: Book, clock: real)
    requires l.Valid() && BookOk(l, b, clock)
    ensures TablesOk(l, b.tables, clock) && Refines(l, b.tables, b.history, clock)
  {
  }

  /** The wait advertised for a remaining time: truncated to whole seconds, at least one. */
  function Wait(remaining: real): int {
    var wait := Truncate(remaining);
    if wait < 1 then 1 else wait
  }

  /** What a call answers, in terms of the samples still in the window. */
  lemma Answers(l: Limits, t: Tables, key: Key, now: real)
    requires l.Valid() && l.enabled
    ensures var samples := Prune(Samples(t, key), now - l.window as real);
      var v := Allow(l, t, key, now);
      && (v.allowed <==> |samples| < l.maxRequests)
      && (!v.allowed ==> v.retryAfter == Wait(samples[0] + l.window as real - now))
  {
    hide Trim, Touch;
  }

  lemma WaitBounds(remaining: real, window: int)
    requires remaining <= window as real && window >= 1
    ensures 1 <= Wait(remaining) <= window
  {
  }

  lemma WaitSufficesIff(remaining: real)
    requires remaining > 0.0
    ensures remaining <= Wait(remaining) as real <==> remaining <= 1.0 || remaining == remaining.Floor as real
  {
  }

  lemma PruneShrinksIff(s: seq<real>, cutoff: real)
    requires s != []
    ensures |Prune(s, cutoff)| < |s| <==> s[0] <= cutoff
  {
    PruneSuffix(s[1..], cutoff);
  }

  /** The samples still in the window were stored, and are not in the future. */
  lemma PrunedWithin(l: Limits, t: Tables, key: Key, now: real)
    requires l.Valid() && TablesOk(l, t, now)
    ensures var samples := Prune(Samples(t, key), now - l.window as real);
      samples != [] ==> key in t.events && |samples| <= l.maxRequests && now - l.window as real < samples[0] <= now
  {
    hide TablesOk, DequeOk, Ascending, Prune;
    SamplesFit(l, t, key, now);
    if key !in t.events {
      assert Samples(t, key) == [];
      PruneSuffix(Samples(t, key), now - l.window as real);
    }
    FirstPruned(l, Samples(t, key), now - l.window as real, now);
  }

  lemma SamplesFit(l: Limits, t: Tables, key: Key, clock: real)
    requires l.Valid() && TablesOk(l, t, clock)
    ensures DequeOk(l, Samples(t, key), clock)
  {
  }

  lemma FirstPruned(l: Limits, s: seq<real>, cutoff: real, clock: real)
    requires DequeOk(l, s, clock)
    ensures var p := Prune(s, cutoff); |p| <= l.maxRequests && (p != [] ==> cutoff < p[0] <= clock)
  {
    PruneSuffix(s, cutoff);
    var p := Prune(s, cutoff);
    if p != [] {
      assert p[0] == s[|s| - |p|] && p[0] in s;
    }
  }

  /** A refusal asks the caller to wait between one second and a whole window. */
  lemma RetryAfterBounds(l: Limits, t: Tables, key: Key, now: real)
    requires l.Valid() && l.enabled && TablesOk(l, t, now)
    ensures var v := Allow(l, t, key, now); !v.allowed ==> 1 <= v.retryAfter <= l.window
  {
    hide Allow, Wait, Prune, TablesOk;
    Answers(l, t, key, now);
    PrunedWithin(l, t, key, now);
    if !Allow(l, t, key, now).allowed {
      WaitBounds(Prune(Samples(t, key), now - l.window as real)[0] + l.window as real - now, l.window);
    }
  }

  /**
   The advertised wait is enough exactly when the true remaining time is at most one second or a
   whole number of seconds: the value is truncated.
  */
  lemma RetryAfterSufficesIff(l: Limits, t: Tables, key: Key, now: real)
    requires l.Valid() && l.enabled && TablesOk(l, t, now) && !Allow(l, t, key, now).allowed
    ensures
      var v := Allow(l, t, key, now);
      var remaining := Prune(Samples(t, key), now - l.window as real)[0] + l.window as real - now;
      var retried := Allow(l, v.tables, key, now + v.retryAfter as real);
      retried.allowed <==> (remaining <= 1.0 || remaining == remaining.Floor as real)
  {
    hide Allow, Wait, Prune, TablesOk, Samples;
    Answers(l, t, key, now);
    PrunedWithin(l, t, key, now);
    RefusalKeepsSamples(l, t, key, now);
    var samples := Prune(Samples(t, key), now - l.window as real);
    var v := Allow(l, t, key, now);
    var remaining := samples[0] + l.window as real - now;
    var again := now + v.retryAfter as real;
    Answers(l, v.tables, key, again);
    PruneShrinksIff(samples, again - l.window as real);
    WaitSufficesIff(remaining);
    assert samples[0] <= again - l.window as real <==> remaining <= Wait(remaining) as real;
  }

  /** A refusal stores the pruned deque, which is full, and drops nobody. */
  lemma RefusalKeepsSamples(l: Limits, t: Tables, key: Key, now: real)
    requires l.Valid() && l.enabled && TablesOk(l, t, now) && !Allow(l, t, key, now).allowed
    ensures var samples := Prune(Samples(t, key), now - l.window as real);
      && |samples| == l.maxRequests
      && Samples(Allow(l, t, key, now).tables, key) == samples
      && samples[0] > now - l.window as real
  {
    hide Allow, Sweep, DropOverflow, Touch, TablesOk, Prune;
    Answers(l, t, key, now);
    PrunedWithin(l, t, key, now);
    AllowIsTrimmedUpdate(l, t, key, now);
    UpdatedOk(l, t, key, now);
    assert Trim(l, Updated(l, t, key, now), now) == Updated(l, t, key, now);
  }

  // ----- When the advertised wait fails in a real run -----

  /** One key with n acceptances at time 0. */
  function OneKey(key: Key, n: nat): Tables {
    Tables(map[key := seq(n, _ => 0.0)], [Seen(key, 0.0)])
  }

  function Burst(key: Key, n: nat): seq<Call> {
    seq(n, _ => Call(key, 0.0))
  }

  lemma AcceptAtZero(l: Limits, t: Tables, key: Key, n: nat)
    requires l.Valid() && l.enabled && n < l.maxRequests
    requires t == if n == 0 then FRESH.tables else OneKey(key, n)
    ensures Allow(l, t, key, 0.0).tables == OneKey(key, n + 1)
  {
    AllowIsTrimmedUpdate(l, t, key, 0.0);
    var zeros := seq(n, _ => 0.0);
    assert Samples(t, key) == zeros && Prune(zeros, 0.0 - l.window as real) == zeros;
    assert zeros + [0.0] == seq(n + 1, _ => 0.0);
    assert t.events[key := seq(n + 1, _ => 0.0)] == OneKey(key, n + 1).events;
    assert Touch(t.lastSeen, key, 0.0) == [Seen(key, 0.0)];
    assert OneKey(key, n + 1).events.Keys == {key} && |OneKey(key, n + 1).events| == 1;
  }

  lemma {:induction false} BurstFills(l: Limits, b: Book, key: Key, n: nat, more: nat)
    requires l.Valid() && l.enabled && n + more <= l.maxRequests
    requires b.tables == if n == 0 then FRESH.tables else OneKey(key, n)
    ensures ServeAll(l, b, Burst(key, more)).tables == if n + more == 0 then FRESH.tables else OneKey(key, n + more)
    decreases more
  {
    hide Allow, HistoryAfter;
    if more > 0 {
      AcceptAtZero(l, b.tables, key, n);
      assert Burst(key, more)[1..] == Burst(key, more - 1);
      BurstFills(l, Serve(l, b, Burst(key, more)[0]), key, n + 1, more - 1);
    }
  }

  lemma FullAtZero(l: Limits, key: Key)
    requires l.Valid() && l.enabled
    ensures TablesOk(l, OneKey(key, l.maxRequests), 0.5)
    ensures Prune(Samples(OneKey(key, l.maxRequests), key), 0.5 - l.window as real) == seq(l.maxRequests, _ => 0.0)
  {
    var t := OneKey(key, l.maxRequests);
    assert t.events.Keys == {key} == SeenKeys(t.lastSeen) && |t.events| == 1;
  }

  /**
   A run in which the advertised wait fails, for every limiter with a window of two seconds or more:
   fill the key at time 0, be refused half a second later, come back when told to, be refused again.
  */
  lemma AdvertisedWaitFails(l: Limits, key: Key)
    requires l.Valid() && l.enabled && l.window >= 2
    ensures var t := ServeAll(l, FRESH, Burst(key, l.maxRequests)).tables;
      var v := Allow(l, t, key, 0.5);
      && !v.allowed && v.retryAfter == l.window - 1
      && !Allow(l, v.tables, key, 0.5 + v.retryAfter as real).allowed
  {
    hide Allow, ServeAll, TablesOk, Prune;
    BurstFills(l, FRESH, key, 0, l.maxRequests);
    var t := OneKey(key, l.maxRequests);
    FullAtZero(l, key);
    Answers(l, t, key, 0.5);
    RetryAfterSufficesIff(l, t, key, 0.5);
    assert (l.window as real - 0.5).Floor == l.window - 1;
  }

  /** A key is refused at `now`, after a run of calls. */
  predicate Refused(l: Limits, clock: real, calls: seq<Call>, key: Key, now: real)
    requires l.Valid()
  {
    && ClockAdvances(clock, calls) && (calls != [] ==> calls[|calls| - 1].now <= now) && clock <= now
    && !Allow(l, ServeAll(l, FRESH, calls).tables, key, now).allowed
  }

  /** Coming back after the advertised wait succeeds. */
  predicate WaitSuffices(l: Limits, calls: seq<Call>, key: Key, now: real)
    requires l.Valid()
  {
    var v := Allow(l, ServeAll(l, FRESH, calls).tables, key, now);
    Allow(l, v.tables, key, now + v.retryAfter as real).allowed
  }

  /** The advertised wait is enough in every run exactly when the window is one second. */
  lemma AdvertisedWaitSufficesIff(l: Limits, key: Key)
    requires l.Valid() && l.enabled
    ensures
      (forall clock: real, calls: seq<Call>, now: real :: Refused(l, clock, calls, key, now) ==>
        WaitSuffices(l, calls, key, now))
      <==> l.window == 1
  {
    hide Allow, ServeAll;
    if l.window >= 2 {
      AdvertisedWaitFails(l, key);
      BurstAdvances(key, l.maxRequests);
      assert Refused(l, 0.0, Burst(key, l.maxRequests), key, 0.5);
      assert !WaitSuffices(l, Burst(key, l.maxRequests), key, 0.5);
    } else {
      forall clock: real, calls: seq<Call>, now: real | Refused(l, clock, calls, key, now)
        ensures WaitSuffices(l, calls, key, now)
      {
        ShortWaitSuffices(l, clock, calls, key, now);
      }
    }
  }

  lemma {:induction false} BurstAdvances(key: Key, n: nat)
    ensures ClockAdvances(0.0, Burst(key, n))
  {
    if n > 0 {
      assert Burst(key, n)[1..] == Burst(key, n - 1);
      BurstAdvances(key, n - 1);
    }
  }

  lemma ShortWaitSuffices(l: Limits, clock: real, calls: seq<Call>, key: Key, now: real)
    requires l.Valid() && l.enabled && l.window == 1 && Refused(l, clock, calls, key, now)
    ensures WaitSuffices(l, calls, key, now)
  {
    hide Allow, ServeAll, Prune, TablesOk, BookOk;
    FreshOk(l, clock);
    var end := ServeAllOk(l, FRESH, calls, clock);
    var b := ServeAll(l, FRESH, calls);
    LaterOk(l, b, end, now);
    BookTablesOk(l, b, now);
    PrunedWithin(l, b.tables, key, now);
    Answers(l, b.tables, key, now);
    RetryAfterSufficesIff(l, b.tables, key, now);
  }

  /** Every half-open window of the limiter's length holds at most `maxRequests` acceptances of a key. */
  lemma RateIsBounded(l: Limits, calls: seq<Call>, key: Key, from: real, clock: real)
    requires l.Valid() && l.enabled && ClockAdvances(clock, calls)
    requires NeverDropped(l, FRESH, calls, key)
    ensures
      var accepted := AcceptedTimes(l, FRESH, calls, key);
      && |Filter(accepted, (x: real) => from < x <= from + l.window as real)| <= l.maxRequests
      && |Filter(accepted, (x: real) => from <= x < from + l.window as real)| <= l.maxRequests
  {
    FreshOk(l, clock);
    var end := ServeAllOk(l, FRESH, calls, clock);
    HistoryIsAccepted(l, FRESH, calls, key);
    var accepted := AcceptedTimes(l, FRESH, calls, key);
    assert [] + accepted == accepted;
    assert History(ServeAll(l, FRESH, calls).history, key) == accepted;
    WindowBound(l, accepted, (x: real) => from < x <= from + l.window as real);
    WindowBound(l, accepted, (x: real) => from <= x < from + l.window as real);
  }

  /** After every run the two tables have the same keys, at most `maxKeys` of them. */
  lemma {:induction false} TablesStayBounded(l: Limits, calls: seq<Call>, next: Call, clock: real)
    requires l.Valid() && l.enabled && ClockAdvances(clock, calls)
    requires clock <= next.now && (calls != [] ==> calls[|calls| - 1].now <= next.now)
    ensures
      var before := ServeAll(l, FRESH, calls).tables;
      var after := Allow(l, before, next.key, next.now).tables;
      && after.events.Keys == SeenKeys(after.lastSeen) && DistinctSeen(after.lastSeen)
      && |after.events| <= l.maxKeys
      && next.key in after.events
      && |Overflowed(l, before, next.key, next.now)| <= 1
  {
    FreshOk(l, clock);
    var end := ServeAllOk(l, FRESH, calls, clock);
    LaterOk(l, ServeAll(l, FRESH, calls), end, next.now);
    var before := ServeAll(l, FRESH, calls).tables;
    AllowKeepsTables(l, before, next.key, next.now);
    OverflowEffect(l, before, next.key, next.now);
  }
}
