/**
 `SlidingWindowRateLimiter`: per-key deques of accepted times, pruned as the window slides, in
 tables bounded by a stale sweep and by dropping the least recently seen keys.
*/
module RateLimiter {
  import opened Common

  type Key = string

  /** The constructor's clamped settings; the window is in seconds. */
  datatype Limits = Limits(enabled: bool, maxRequests: int, window: int, maxKeys: int) {
    predicate Valid() {
      maxRequests >= 1 && window >= 1 && maxKeys >= 128
    }
  }

  datatype Seen = Seen(key: Key, at: real)

  /** `_events` and `_last_seen`; the latter is a dictionary, so its insertion order is kept. */
  datatype Tables = Tables(events: map<Key, seq<real>>, lastSeen: seq<Seen>)

  datatype Verdict = Verdict(tables: Tables, allowed: bool, retryAfter: int)

  // ----- Dictionary and deque operations -----

  /** Assigning a key keeps its place in the dictionary, or adds it at the end. */
  function Touch(seen: seq<Seen>, key: Key, now: real): seq<Seen> {
    if seen == [] then [Seen(key, now)] else
    if seen[0].key == key then [Seen(key, now)] + seen[1..] else [seen[0]] + Touch(seen[1..], key, now)
  }

  function KeyNotIn(keys: set<Key>): Seen -> bool {
    (s: Seen) => s.key !in keys
  }

  /** `min(last_seen, key=last_seen.get)`: the first of the smallest times. */
  function Oldest(seen: seq<Seen>): Seen
    requires seen != []
  {
    if |seen| == 1 then seen[0] else
    var later := Oldest(seen[1..]);
    if seen[0].at <= later.at then seen[0] else later
  }

  function SeenKeys(seen: seq<Seen>): set<Key> {
    if seen == [] then {} else {seen[0].key} + SeenKeys(seen[1..])
  }

  function Samples(t: Tables, key: Key): seq<real> {
    if key in t.events then t.events[key] else []
  }

  /** Pop from the left while the sample is at or before the cutoff. */
  function Prune(samples: seq<real>, cutoff: real): seq<real> {
    if samples == [] || samples[0] > cutoff then samples else Prune(samples[1..], cutoff)
  }

  // ----- The operations on the tables -----

  function StaleKeys(events: map<Key, seq<real>>, cutoff: real): set<Key> {
    set k <- events | Prune(events[k], cutoff) == []
  }

  function Sweep(t: Tables, cutoff: real): Tables {
    var stale := StaleKeys(t.events, cutoff);
    Tables(map k | k in t.events && k !in stale :: Prune(t.events[k], cutoff), Filter(t.lastSeen, KeyNotIn(stale)))
  }

  function Drop(t: Tables, key: Key): Tables {
    Tables(t.events - {key}, Filter(t.lastSeen, KeyNotIn({key})))
  }

  /** The overflow loop; it stops early, by its `break`, when `_last_seen` runs out. */
  function DropOverflow(t: Tables, maxKeys: int): Tables
    decreases |t.lastSeen|
  {
    if |t.events| <= maxKeys || t.lastSeen == [] then t else
    var victim := Oldest(t.lastSeen);
    OldestIn(t.lastSeen);
    FilterDrops(t.lastSeen, KeyNotIn({victim.key}), victim);
    DropOverflow(Drop(t, victim.key), maxKeys)
  }

  /** One turn of the overflow loop. */
  lemma DropNext(t: Tables, maxKeys: int)
    requires |t.events| > maxKeys && t.lastSeen != []
    ensures var next := Drop(t, Oldest(t.lastSeen).key);
      DropOverflow(t, maxKeys) == DropOverflow(next, maxKeys) && |next.lastSeen| < |t.lastSeen|
  {
    OldestIn(t.lastSeen);
    FilterDrops(t.lastSeen, KeyNotIn({Oldest(t.lastSeen).key}), Oldest(t.lastSeen));
  }

  lemma DropEnd(t: Tables, maxKeys: int)
    requires |t.events| <= maxKeys || t.lastSeen == []
    ensures DropOverflow(t, maxKeys) == t
  {
  }

  function Trim(l: Limits, t: Tables, now: real): Tables {
    if |t.events| <= l.maxKeys then t else DropOverflow(Sweep(t, now - l.window as real), l.maxKeys)
  }

  function Truncate(x: real): int {
    if x >= 0.0 then x.Floor else -((-x).Floor)
  }

  function Allow(l: Limits, t: Tables, key: Key, now: real): Verdict
    requires l.Valid()
  {
    if !l.enabled then Verdict(t, true, 0) else
    var samples := Prune(Samples(t, key), now - l.window as real);
    var seen := Touch(t.lastSeen, key, now);
    if |samples| >= l.maxRequests then
      var wait := Truncate(samples[0] + l.window as real - now);
      Verdict(Trim(l, Tables(t.events[key := samples], seen), now), false, if wait < 1 then 1 else wait)
    else
      Verdict(Trim(l, Tables(t.events[key := samples + [now]], seen), now), true, 0)
  }

  // ----- Facts about the dictionary -----

  lemma {:induction false} OldestIn(seen: seq<Seen>)
    requires seen != []
    ensures Oldest(seen) in seen
    ensures forall s <- seen :: Oldest(seen).at <= s.at
  {
    if |seen| > 1 {
      OldestIn(seen[1..]);
      assert seen == [seen[0]] + seen[1..];
    }
  }

  lemma {:induction false} FilterDrops<T>(s: seq<T>, p: T -> bool, x: T)
    requires x in s && !p(x)
    ensures |Filter(s, p)| < |s|
  {
    if s[0] != x {
      FilterDrops(s[1..], p, x);
    }
  }

  /** A setting below its lowest value is raised to it. */
  function AtLeast(low: int, x: int): (r: int)
    ensures r >= low && (x >= low ==> r == x) && (x < low ==> r == low)
  {
    if x < low then low else x
  }

  class SlidingWindowRateLimiter {
    const limits: Limits
    var events: map<Key, seq<real>>
    var lastSeen: seq<Seen>

    function State(): Tables
      reads this
    {
      Tables(events, lastSeen)
    }

    constructor (enabled: bool, maxRequests: int, windowSeconds: int, maxKeys: int)
      ensures limits.Valid() && State() == Tables(map[], [])
      ensures limits == Limits(enabled, AtLeast(1, maxRequests), AtLeast(1, windowSeconds), AtLeast(128, maxKeys))
    {
      limits := Limits(
        enabled,
        if maxRequests < 1 then 1 else maxRequests,
        if windowSeconds < 1 then 1 else windowSeconds,
        if maxKeys < 128 then 128 else maxKeys);
      events, lastSeen := map[], [];
    }

    method AllowRequest(key: Key, now: real) returns (allowed: bool, retryAfter: int)
      requires limits.Valid()
      modifies this
      ensures Verdict(State(), allowed, retryAfter) == Allow(limits, old(State()), key, now)
    {
      hide Trim, Touch, Prune, Truncate;
      if !limits.enabled {
        return true, 0;
      }
      var cutoff := now - limits.window as real;
      var samples := if key in events then events[key] else [];
      samples := PopExpired(samples, cutoff);
      events := events[key := samples];
      if |samples| >= limits.maxRequests {
        var wait := Truncate(samples[0] + limits.window as real - now);
        retryAfter := if wait < 1 then 1 else wait;
        lastSeen := Touch(lastSeen, key, now);
        TrimLocked(now);
        return false, retryAfter;
      }
      events := events[key := samples + [now]];
      assert events == old(events)[key := samples + [now]];
      lastSeen := Touch(lastSeen, key, now);
      TrimLocked(now);
      return true, 0;
    }

    /** The popleft loop that both sections run on a deque. */
    static method PopExpired(samples: seq<real>, cutoff: real) returns (kept: seq<real>)
      ensures kept == Prune(samples, cutoff)
    {
      kept := samples;
      while kept != [] && kept[0] <= cutoff
        invariant Prune(kept, cutoff) == Prune(samples, cutoff)
      {
        kept := kept[1..];
      }
    }

    method TrimLocked(now: real)
      modifies this
      ensures State() == Trim(limits, old(State()), now)
    {
      hide Sweep, Oldest, DropOverflow;
      if |events| <= limits.maxKeys {
        return;
      }
      SweepStale(now - limits.window as real);
      ghost var goal := DropOverflow(State(), limits.maxKeys);
      while |events| > limits.maxKeys
        invariant DropOverflow(State(), limits.maxKeys) == goal
        decreases |lastSeen|
      {
        if lastSeen == [] {
          break;
        }
        DropNext(State(), limits.maxKeys);
        var victim := Oldest(lastSeen);
        events := events - {victim.key};
        lastSeen := Filter(lastSeen, KeyNotIn({victim.key}));
      }
      DropEnd(State(), limits.maxKeys);
    }

    /** Prune every deque, then forget the keys left empty. */
    method SweepStale(cutoff: real)
      modifies this
      ensures State() == Sweep(old(State()), cutoff)
    {
      hide Prune, Filter;
      var was := events;
      var todo := events.Keys;
      var stale: set<Key> := {};
      while todo != {}
        invariant todo <= was.Keys == events.Keys && lastSeen == old(lastSeen)
        invariant forall k :: k in todo ==> events[k] == was[k]
        invariant forall k :: k in was.Keys - todo ==> events[k] == Prune(was[k], cutoff)
        invariant forall k :: k in stale <==> k in was.Keys - todo && Prune(was[k], cutoff) == []
      {
        var k :| k in todo;
        var samples := events[k];
        samples := PopExpired(samples, cutoff);
        events := events[k := samples];
        if samples == [] {
          stale := stale + {k};
        }
        todo := todo - {k};
      }
      assert stale == StaleKeys(was, cutoff);
      events := events - stale;
      lastSeen := Filter(lastSeen, KeyNotIn(stale));
      assert events == Sweep(old(State()), cutoff).events;
    }
  }
}
