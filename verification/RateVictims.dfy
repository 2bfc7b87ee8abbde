/**
 Which key the overflow loop forgets: after any run each table entry carries the time of its key's
 last call, and the key that is forgotten was called no later than any that stays. A limiter that is
 switched off accepts every call and keeps nothing.
*/
module RateVictims {
  import opened Common
  import opened RateLimiter
  import opened RateLimiterTheorems

  /** The last of these calls with that key came at that time. */
  ghost predicate LastCalled(calls: seq<Call>, key: Key, at: real) {
    exists i :: 0 <= i < |calls| && calls[i] == Call(key, at) && forall j :: i < j < |calls| ==> calls[j].key != key
  }

  lemma LastCalledNow(calls: seq<Call>, c: Call)
    ensures LastCalled(calls + [c], c.key, c.now)
  {
    assert (calls + [c])[|calls|] == c;
  }

  lemma LastCalledBefore(calls: seq<Call>, c: Call, key: Key, at: real)
    requires LastCalled(calls, key, at) && key != c.key
    ensures LastCalled(calls + [c], key, at)
  {
    var i :| 0 <= i < |calls| && calls[i] == Call(key, at) && forall j :: i < j < |calls| ==> calls[j].key != key;
    assert (calls + [c])[i] == calls[i];
  }

  // ----- One call -----

  lemma {:induction false} TouchedAre(seen: seq<Seen>, key: Key, now: real, s: Seen)
    requires DistinctSeen(seen) && s in Touch(seen, key, now)
    ensures s == Seen(key, now) || (s in seen && s.key != key)
  {
    if seen != [] {
      if seen[0].key == key {
        if s != Seen(key, now) {
          SeenHasKey(seen[1..], s);
        }
      } else if s != seen[0] {
        TouchedAre(seen[1..], key, now, s);
      }
    }
  }

  lemma {:induction false} OverflowOnlyDrops(t: Tables, maxKeys: int, s: Seen)
    requires s in DropOverflow(t, maxKeys).lastSeen
    ensures s in t.lastSeen
    decreases |t.lastSeen|
  {
    if |t.events| > maxKeys && t.lastSeen != [] {
      var victim := Oldest(t.lastSeen).key;
      DropNext(t, maxKeys);
      OverflowOnlyDrops(Drop(t, victim), maxKeys, s);
      FilterIn(t.lastSeen, KeyNotIn({victim}));
    }
  }

  lemma TrimOnlyDrops(l: Limits, t: Tables, now: real, s: Seen)
    requires s in Trim(l, t, now).lastSeen
    ensures s in t.lastSeen
  {
    hide DropOverflow;
    if |t.events| > l.maxKeys {
      OverflowOnlyDrops(Sweep(t, now - l.window as real), l.maxKeys, s);
      FilterIn(t.lastSeen, KeyNotIn(StaleKeys(t.events, now - l.window as real)));
    }
  }

  /** An entry after a call is that of the call, or one of another key from before. */
  lemma SeenAfter(l: Limits, t: Tables, key: Key, now: real, s: Seen)
    requires l.Valid() && l.enabled && DistinctSeen(t.lastSeen) && s in Allow(l, t, key, now).tables.lastSeen
    ensures s == Seen(key, now) || (s in t.lastSeen && s.key != key)
  {
    AllowIsTrimmedUpdate(l, t, key, now);
    hide Allow, Trim, Touch;
    TrimOnlyDrops(l, Updated(l, t, key, now), now, s);
    TouchedAre(t.lastSeen, key, now, s);
  }

  // ----- Runs -----

  lemma {:induction false} ServeLast(l: Limits, b: Book, calls: seq<Call>, c: Call)
    requires l.Valid()
    ensures ServeAll(l, b, calls + [c]) == Serve(l, ServeAll(l, b, calls), c)
    decreases |calls|
  {
    hide Serve;
    if calls == [] {
      assert [c][1..] == [];
      assert calls + [c] == [c];
    } else {
      assert (calls + [c])[1..] == calls[1..] + [c];
      ServeLast(l, Serve(l, b, calls[0]), calls[1..], c);
    }
  }

  lemma {:induction false} ClockPrefix(clock: real, calls: seq<Call>, c: Call)
    requires ClockAdvances(clock, calls + [c])
    ensures ClockAdvances(clock, calls)
    ensures clock <= c.now && (calls != [] ==> calls[|calls| - 1].now <= c.now)
    decreases |calls|
  {
    if calls == [] {
      assert (calls + [c])[0] == c;
    } else {
      assert (calls + [c])[1..] == calls[1..] + [c];
      ClockPrefix(calls[0].now, calls[1..], c);
    }
  }

  lemma RunDistinct(l: Limits, calls: seq<Call>, clock: real)
    requires l.Valid() && l.enabled && ClockAdvances(clock, calls)
    ensures DistinctSeen(ServeAll(l, FRESH, calls).tables.lastSeen)
  {
    hide ServeAll, Serve, Refines, ClockAdvances;
    FreshOk(l, clock);
    var end := ServeAllOk(l, FRESH, calls, clock);
  }

  /** After any run every key of the tables carries the time of its last call. */
  lemma {:induction false} SeenIsLastCall(l: Limits, calls: seq<Call>, clock: real, s: Seen)
    requires l.Valid() && l.enabled && ClockAdvances(clock, calls) && s in ServeAll(l, FRESH, calls).tables.lastSeen
    ensures LastCalled(calls, s.key, s.at)
    decreases |calls|
  {
    hide Allow, LastCalled;
    if calls != [] {
      var n := |calls| - 1;
      var before, c := calls[..n], calls[n];
      assert calls == before + [c];
      ServeLast(l, FRESH, before, c);
      ClockPrefix(clock, before, c);
      RunDistinct(l, before, clock);
      var b := ServeAll(l, FRESH, before);
      SeenAfter(l, b.tables, c.key, c.now, s);
      if s == Seen(c.key, c.now) {
        LastCalledNow(before, c);
      } else {
        SeenIsLastCall(l, before, clock, s);
        LastCalledBefore(before, c, s.key, s.at);
      }
    }
  }

  // ----- What overflows -----

  /** The keys with an accepted time inside the window. */
  ghost function Active(events: map<Key, seq<real>>, cutoff: real): set<Key> {
    set k <- events | exists x <- events[k] :: x > cutoff
  }

  lemma PruneEmptyIff(s: seq<real>, cutoff: real)
    requires Ascending(s)
    ensures Prune(s, cutoff) != [] <==> exists x <- s :: x > cutoff
  {
    PruneIsRecent(s, cutoff);
    FilterIn(s, Newer(cutoff));
    if x :| x in s && x > cutoff {
      assert x in Recent(s, cutoff);
    }
    if Prune(s, cutoff) != [] {
      assert Recent(s, cutoff)[0] in Recent(s, cutoff);
    }
  }

  lemma SweptKeysAre(t: Tables, cutoff: real, k: Key)
    ensures k in Sweep(t, cutoff).events.Keys <==> k in t.events && Prune(t.events[k], cutoff) != []
  {
    hide Prune;
  }

  /** A new key comes with the time of the call; the others stay as they are. */
  lemma UpdatedNew(l: Limits, t: Tables, key: Key, now: real)
    requires l.Valid() && key !in t.events
    ensures var u := Updated(l, t, key, now).events;
      && u == t.events[key := [now]] && |u| == |t.events| + 1
      && Prune([now], now - l.window as real) == [now]
  {
    assert Samples(t, key) == [] && [] + [now] == [now];
    assert t.events[key := [now]].Keys == t.events.Keys + {key};
  }

  lemma SweptAreActive(l: Limits, t: Tables, key: Key, now: real)
    requires l.Valid() && DequesOk(l, t.events, now) && key !in t.events
    ensures var cutoff := now - l.window as real;
      Sweep(Updated(l, t, key, now), cutoff).events.Keys == Active(t.events, cutoff) + {key}
  {
    hide Updated, Sweep, Prune, Ascending;
    var cutoff := now - l.window as real;
    var u := Updated(l, t, key, now);
    UpdatedNew(l, t, key, now);
    forall k ensures k in Sweep(u, cutoff).events.Keys <==> k in Active(t.events, cutoff) + {key} {
      SweptKeysAre(u, cutoff, k);
      if k in t.events {
        PruneEmptyIff(t.events[k], cutoff);
      }
    }
  }

  lemma DropLeavesNewer(t: Tables)
    requires t.lastSeen != []
    ensures var v := Oldest(t.lastSeen);
      v in t.lastSeen && forall s <- Drop(t, v.key).lastSeen :: v.at <= s.at && s.key != v.key
  {
    OldestIn(t.lastSeen);
    FilterIn(t.lastSeen, KeyNotIn({Oldest(t.lastSeen).key}));
  }

  /** What the overflow loop finds decides whether it forgets a key: the oldest it finds, if they are too many. */
  lemma OverflowsWhen(l: Limits, t: Tables, key: Key, now: real) returns (v: Seen)
    requires l.Valid() && TablesOk(l, t, now) && |Updated(l, t, key, now).events| > l.maxKeys
    ensures var swept := Sweep(Updated(l, t, key, now), now - l.window as real);
      var after := Trim(l, Updated(l, t, key, now), now);
      if |swept.events| > l.maxKeys then
        && Overflowed(l, t, key, now) == {v.key} && v in swept.lastSeen && v.key != key
        && forall s <- after.lastSeen :: v.at <= s.at && s.key != v.key
      else Overflowed(l, t, key, now) == {}
  {
    hide TablesOk, Updated, Sweep, DropOverflow, SameKeys, SeenBy, SeenKeys, Overflowed, Oldest, Drop, Trim;
    var swept := Sweep(Updated(l, t, key, now), now - l.window as real);
    var others := SweptTables(l, t, key, now);
    v := Oldest(swept.lastSeen);
    OverflowingTrim(l, t, key, now);
    if |swept.events| > l.maxKeys {
      DropOne(swept, others, Seen(key, now), l.maxKeys);
      DropLeavesNewer(swept);
    } else {
      NoOverflow(swept, l.maxKeys);
    }
  }

  /** A key is forgotten just when a new key arrives while as many keys as the limit are active. */
  lemma OverflowsIff(l: Limits, t: Tables, key: Key, now: real)
    requires l.Valid() && TablesOk(l, t, now)
    ensures Overflowed(l, t, key, now) != {} <==>
      key !in t.events && |Active(t.events, now - l.window as real)| >= l.maxKeys
  {
    hide Updated, Sweep, DropOverflow, SameKeys, SeenBy, DequesOk;
    UpdatedOk(l, t, key, now);
    if key !in t.events {
      var active := Active(t.events, now - l.window as real);
      SweptAreActive(l, t, key, now);
      UpdatedNew(l, t, key, now);
      SubsetSize(active, t.events.Keys);
      assert |active + {key}| == |active| + 1;
      if |Updated(l, t, key, now).events| > l.maxKeys {
        var v := OverflowsWhen(l, t, key, now);
      }
    }
  }

  lemma SweptFromBefore(l: Limits, t: Tables, key: Key, now: real, s: Seen)
    requires l.Valid() && DistinctSeen(t.lastSeen) && s.key != key
    requires s in Sweep(Updated(l, t, key, now), now - l.window as real).lastSeen
    ensures s in t.lastSeen
  {
    hide Touch;
    var u := Updated(l, t, key, now);
    FilterIn(u.lastSeen, KeyNotIn(StaleKeys(u.events, now - l.window as real)));
    TouchedAre(t.lastSeen, key, now, s);
  }

  lemma NoneOverflow(l: Limits, t: Tables, key: Key, now: real)
    requires l.Valid() && |Updated(l, t, key, now).events| <= l.maxKeys
    ensures Overflowed(l, t, key, now) == {}
  {
  }

  /** The forgotten key's entry is from before the call, and no entry that stays is older. */
  lemma VictimIsOldest(l: Limits, t: Tables, key: Key, now: real, gone: Key) returns (v: Seen)
    requires l.Valid() && l.enabled && TablesOk(l, t, now) && gone in Overflowed(l, t, key, now)
    ensures v in t.lastSeen && v.key == gone && gone != key
    ensures forall s <- Allow(l, t, key, now).tables.lastSeen :: v.at <= s.at && s.key != gone
  {
    hide Updated, Allow, Sweep, Trim, SeenBy, SeenKeys, DequesOk, Overflowed;
    if |Updated(l, t, key, now).events| <= l.maxKeys {
      NoneOverflow(l, t, key, now);
    }
    v := OverflowsWhen(l, t, key, now);
    SweptFromBefore(l, t, key, now, v);
    AllowIsTrimmedUpdate(l, t, key, now);
  }

  lemma RunTablesOk(l: Limits, calls: seq<Call>, now: real, clock: real)
    requires l.Valid() && l.enabled && ClockAdvances(clock, calls)
    requires clock <= now && (calls != [] ==> calls[|calls| - 1].now <= now)
    ensures TablesOk(l, ServeAll(l, FRESH, calls).tables, now)
  {
    hide *;
    FreshOk(l, clock);
    var end := ServeAllOk(l, FRESH, calls, clock);
    LaterOk(l, ServeAll(l, FRESH, calls), end, now);
    BookTablesOk(l, ServeAll(l, FRESH, calls), now);
  }

  /** After any run, a key is forgotten just when a new key is called while the limit of keys is active. */
  lemma ForgetsIff(l: Limits, calls: seq<Call>, next: Call, clock: real)
    requires l.Valid() && l.enabled && ClockAdvances(clock, calls + [next])
    ensures var before := ServeAll(l, FRESH, calls).tables;
      Overflowed(l, before, next.key, next.now) != {} <==>
        next.key !in before.events && |Active(before.events, next.now - l.window as real)| >= l.maxKeys
  {
    hide *;
    ClockPrefix(clock, calls, next);
    RunTablesOk(l, calls, next.now, clock);
    OverflowsIff(l, ServeAll(l, FRESH, calls).tables, next.key, next.now);
  }

  /** A key that the call after a run forgets was last called no later than any key that stays. */
  lemma ForgottenIsLeastRecent(l: Limits, calls: seq<Call>, next: Call, clock: real, gone: Key)
    returns (at: real)
    requires l.Valid() && l.enabled && ClockAdvances(clock, calls + [next])
    requires gone in Overflowed(l, ServeAll(l, FRESH, calls).tables, next.key, next.now)
    ensures gone != next.key && LastCalled(calls, gone, at)
    ensures forall s <- ServeAll(l, FRESH, calls + [next]).tables.lastSeen ::
      s.key != gone && LastCalled(calls + [next], s.key, s.at) && at <= s.at
  {
    hide Allow, Overflowed, TablesOk, ServeAll, LastCalled, ClockAdvances, History;
    var before := ServeAll(l, FRESH, calls).tables;
    ClockPrefix(clock, calls, next);
    RunTablesOk(l, calls, next.now, clock);
    var v := VictimIsOldest(l, before, next.key, next.now, gone);
    SeenIsLastCall(l, calls, clock, v);
    at := v.at;
    ServeLast(l, FRESH, calls, next);
    forall s <- ServeAll(l, FRESH, calls + [next]).tables.lastSeen ensures LastCalled(calls + [next], s.key, s.at) {
      SeenIsLastCall(l, calls + [next], clock, s);
    }
  }

  // ----- Switched off -----

  /** A limiter that is switched off accepts whatever comes and its tables stay as they are. */
  lemma {:induction false} SwitchedOff(l: Limits, b: Book, calls: seq<Call>, key: Key, now: real)
    requires l.Valid() && !l.enabled
    ensures ServeAll(l, b, calls).tables == b.tables
    ensures Allow(l, ServeAll(l, b, calls).tables, key, now) == Verdict(b.tables, true, 0)
    decreases |calls|
  {
    if calls != [] {
      SwitchedOff(l, Serve(l, b, calls[0]), calls[1..], key, now);
    }
  }
}
