/**
 Theorems about whole traces of `LruTtlCache` operations: what a hit returns, how large the cache
 grows, how long a key survives, and that a larger cache always contains a smaller one.
*/
module LruTheorems {
  import opened Common
  import opened LruCache

  datatype Op<K, V> =
    | Get(key: K, now: real)
    | Set(key: K, value: V, now: real, ttl: Option<int>)
    | Clear

  function Step<K(==), V>(l: Limits, s: seq<Entry<K, V>>, op: Op<K, V>): seq<Entry<K, V>>
    requires l.Valid()
  {
    match op
    case Get(key, now) => GetEntries(l, s, now, key)
    case Set(key, value, now, ttl) => SetEntries(l, s, now, key, value, ttl)
    case Clear => []
  }

  function Run<K(==), V>(l: Limits, s: seq<Entry<K, V>>, ops: seq<Op<K, V>>): seq<Entry<K, V>>
    requires l.Valid()
    decreases |ops|
  {
    if ops == [] then s else Run(l, Step(l, s, ops[0]), ops[1..])
  }

  predicate WellKept<K(==), V>(l: Limits, s: seq<Entry<K, V>>) {
    DistinctKeys(s) && |s| <= l.maxEntries
  }

  // ----- Lookup and removal under distinct keys -----

  lemma {:induction false} LookupFinds<K, V>(s: seq<Entry<K, V>>, e: Entry<K, V>)
    requires DistinctKeys(s) && e in s
    ensures Lookup(s, e.key) == Some(e)
  {
    if s[0] != e {
      var i :| 0 <= i < |s| && s[i] == e;
      assert s[1..][i - 1] == e;
      LookupFinds(s[1..], e);
    }
  }

  lemma {:induction false} WithoutPresent<K, V>(s: seq<Entry<K, V>>, e: Entry<K, V>)
    requires DistinctKeys(s) && e in s
    ensures |Without(s, e.key)| == |s| - 1
  {
    if s[0] == e {
      FilterAll(s[1..], NotKey(e.key));
    } else {
      var i :| 0 <= i < |s| && s[i] == e;
      assert s[1..][i - 1] == e;
      WithoutPresent(s[1..], e);
    }
  }

  lemma WithoutAbsent<K, V>(s: seq<Entry<K, V>>, key: K)
    requires forall e <- s :: e.key != key
    ensures Without(s, key) == s
  {
    FilterAll(s, NotKey(key));
  }

  lemma StepWellKept<K, V>(l: Limits, s: seq<Entry<K, V>>, op: Op<K, V>)
    requires l.Valid() && WellKept(l, s)
    ensures WellKept(l, Step(l, s, op))
  {
    if !op.Clear? {
      var live := Live(s, op.now);
      FilterKeepsDistinct(s, IsLive(op.now));
      if op.Get? {
        var found := Lookup(live, op.key);
        if found.Some? {
          ReplaceKeepsDistinct(live, found.value);
          WithoutPresent(live, found.value);
        }
      } else {
        ReplaceKeepsDistinct(live, Entry(op.key, op.now + EffectiveTtl(l, op.ttl) as real, op.value));
      }
    }
  }

  /** Over any trace the cache never exceeds its limit and never holds a key twice. */
  lemma {:induction false} RunWellKept<K, V>(l: Limits, s: seq<Entry<K, V>>, ops: seq<Op<K, V>>)
    requires l.Valid() && WellKept(l, s)
    ensures WellKept(l, Run(l, s, ops))
    decreases |ops|
  {
    if ops != [] {
      StepWellKept(l, s, ops[0]);
      RunWellKept(l, Step(l, s, ops[0]), ops[1..]);
    }
  }

  // ----- A hit returns the latest value -----

  /** The entry a cache without eviction or expiry would hold for `key` after one operation. */
  function LatestAfter<K(==), V>(l: Limits, key: K, before: Option<Entry<K, V>>, op: Op<K, V>): Option<Entry<K, V>> {
    match op
    case Clear => None
    case Get(_, _) => before
    case Set(k, value, now, ttl) =>
      if k == key && l.enabled && EffectiveTtl(l, ttl) > 0
      then Some(Entry(key, now + EffectiveTtl(l, ttl) as real, value)) else before
  }

  function Latest<K(==), V>(l: Limits, key: K, before: Option<Entry<K, V>>, ops: seq<Op<K, V>>): Option<Entry<K, V>>
    decreases |ops|
  {
    if ops == [] then before else Latest(l, key, LatestAfter(l, key, before, ops[0]), ops[1..])
  }

  /** Where an entry held after an operation comes from. */
  lemma StepSource<K, V>(l: Limits, s: seq<Entry<K, V>>, op: Op<K, V>, e: Entry<K, V>)
    requires l.Valid() && e in Step(l, s, op)
    ensures op.Get? || op.Set?
    ensures op.Get? ==> e in s
    ensures op.Set? ==>
      if l.enabled && EffectiveTtl(l, op.ttl) > 0
      then e == Entry(op.key, op.now + EffectiveTtl(l, op.ttl) as real, op.value) || (e in s && e.key != op.key)
      else e in s
  {
    if op.Get? || op.Set? {
      var live := Live(s, op.now);
      FilterIn(s, IsLive(op.now));
      FilterIn(live, NotKey(op.key));
    }
  }

  lemma StepHoldsLatest<K, V>(l: Limits, s: seq<Entry<K, V>>, op: Op<K, V>, key: K, before: Option<Entry<K, V>>)
    requires l.Valid()
    requires forall e <- s :: e.key == key ==> before == Some(e)
    ensures forall e <- Step(l, s, op) :: e.key == key ==> LatestAfter(l, key, before, op) == Some(e)
  {
    hide Step;
    forall e <- Step(l, s, op) | e.key == key ensures LatestAfter(l, key, before, op) == Some(e) {
      StepSource(l, s, op, e);
    }
  }

  /** Whatever the trace, an entry held for a key is the last effective `set` of that key since the last `clear`. */
  lemma {:induction false} HoldsLatest<K, V>(
      l: Limits, s: seq<Entry<K, V>>, ops: seq<Op<K, V>>, key: K, before: Option<Entry<K, V>>)
    requires l.Valid()
    requires forall e <- s :: e.key == key ==> before == Some(e)
    ensures forall e <- Run(l, s, ops) :: e.key == key ==> Latest(l, key, before, ops) == Some(e)
    decreases |ops|
  {
    if ops != [] {
      StepHoldsLatest(l, s, ops[0], key, before);
      HoldsLatest(l, Step(l, s, ops[0]), ops[1..], key, LatestAfter(l, key, before, ops[0]));
    }
  }

  /** A hit after any trace returns the latest unexpired value stored under the key, never another. */
  lemma HitIsLatest<K, V>(l: Limits, ops: seq<Op<K, V>>, key: K, now: real)
    requires l.Valid()
    ensures
      var hit := GetValue(l, Run(l, [], ops), now, key);
      hit.Some? ==>
        var latest := Latest(l, key, None, ops);
        latest.Some? && latest.value.value == hit.value && latest.value.expiresAt > now
  {
    HoldsLatest(l, [], ops, key, None);
    FilterIn(Run(l, [], ops), IsLive(now));
  }

  // ----- Stack inclusion -----

  ghost function Keys<K, V>(s: seq<Entry<K, V>>): set<K> {
    set e <- s :: e.key
  }

  function KeyIn<K(==), V>(keys: set<K>): Entry<K, V> -> bool {
    (e: Entry<K, V>) => e.key in keys
  }

  /** `small` is `big` restricted to some keys: same values, expiries and order. */
  ghost predicate Within<K, V>(small: seq<Entry<K, V>>, big: seq<Entry<K, V>>) {
    small == Filter(big, KeyIn(Keys(small)))
  }

  lemma Renormalize<K, V>(small: seq<Entry<K, V>>, big: seq<Entry<K, V>>, keys: set<K>)
    requires small == Filter(big, KeyIn(keys))
    ensures Within(small, big)
  {
    FilterIn(big, KeyIn(keys));
    forall e <- big ensures KeyIn(keys)(e) <==> KeyIn(Keys(small))(e) {
      if e.key in Keys(small) {
        var x :| x in small && x.key == e.key;
      }
    }
    FilterSame(big, KeyIn(keys), KeyIn(Keys(small)));
  }

  /** Dropping the same elements from both keeps the inclusion and does not widen the gap. */
  lemma {:induction false} FilterWithin<K, V>(small: seq<Entry<K, V>>, big: seq<Entry<K, V>>, p: Entry<K, V> -> bool)
    requires Within(small, big)
    ensures Within(Filter(small, p), Filter(big, p))
    ensures |Filter(big, p)| - |Filter(small, p)| <= |big| - |small|
  {
    var keys := Keys(small);
    var both := (e: Entry<K, V>) => e.key in keys && p(e);
    FilterCompose(big, KeyIn(keys), p, both);
    FilterCompose(big, p, KeyIn(keys), both);
    Renormalize(Filter(small, p), Filter(big, p), keys);
    GapShrinks(big, KeyIn(keys), p);
  }

  lemma {:induction false} GapShrinks<T>(s: seq<T>, q: T -> bool, p: T -> bool)
    ensures |Filter(s, p)| - |Filter(Filter(s, q), p)| <= |s| - |Filter(s, q)|
  {
    if s != [] {
      GapShrinks(s[1..], q, p);
      var rest := Filter(s[1..], q);
      if q(s[0]) {
        assert Filter(s, q) == [s[0]] + rest;
        assert ([s[0]] + rest)[1..] == rest;
      } else {
        assert Filter(s, q) == rest;
      }
    }
  }

  lemma AppendWithin<K, V>(small: seq<Entry<K, V>>, big: seq<Entry<K, V>>, e: Entry<K, V>)
    requires Within(small, big) && forall x <- big :: x.key != e.key
    ensures Within(small + [e], big + [e])
  {
    var keys := Keys(small) + {e.key};
    FilterSame(big, KeyIn(Keys(small)), KeyIn(keys));
    FilterAppend(big, [e], KeyIn(keys));
    Renormalize(small + [e], big + [e], keys);
  }

  /** Moving an entry the smaller cache lacks to the end of the larger one. */
  lemma MoveOutsideWithin<K, V>(small: seq<Entry<K, V>>, big: seq<Entry<K, V>>, e: Entry<K, V>)
    requires Within(small, big) && DistinctKeys(big) && e in big && e.key !in Keys(small)
    ensures Within(small, Without(big, e.key) + [e])
  {
    var keys := Keys(small);
    WithoutAbsent(small, e.key);
    FilterWithin(small, big, NotKey(e.key));
    FilterAppend(Without(big, e.key), [e], KeyIn(keys));
    assert small + [] == small;
  }

  /** The larger cache's entry order is the smaller one's, so evicting the oldest drops a prefix of it. */
  lemma {:induction false} DropOldest<K, V>(big: seq<Entry<K, V>>, keys: set<K>)
    requires DistinctKeys(big) && Filter(big, KeyIn(keys)) != []
    ensures
      var small := Filter(big, KeyIn(keys));
      small[1..] == Filter(big, KeyIn(keys - {small[0].key}))
  {
    var small := Filter(big, KeyIn(keys));
    var rest := Filter(big[1..], KeyIn(keys));
    var fewer := keys - {small[0].key};
    if big[0].key in keys {
      assert small == [big[0]] + rest;
      FilterSame(big[1..], KeyIn(keys), KeyIn(fewer));
    } else {
      assert small == rest;
      DropOldest(big[1..], keys);
      assert Filter(big, KeyIn(fewer)) == Filter(big[1..], KeyIn(fewer));
    }
  }

  /** Trimming both caches after one insertion keeps the inclusion and the gap bound. */
  lemma TrimWithin<K, V>(small: seq<Entry<K, V>>, big: seq<Entry<K, V>>, m: int, n: int)
    requires 1 <= m <= n && Within(small, big) && DistinctKeys(big)
    requires |small| <= m + 1 && |big| <= n + 1 && |big| - |small| <= n - m
    ensures Within(Trim(small, m), Trim(big, n))
    ensures |Trim(big, n)| - |Trim(small, m)| <= n - m
  {
    var keys := Keys(small);
    if |small| == m + 1 {
      DropOldest(big, keys);
      var fewer := keys - {small[0].key};
      if |big| <= n {
        Renormalize(small[1..], big, fewer);
      } else {
        var rest := Filter(big[1..], KeyIn(keys));
        if big[0].key in keys {
          assert small == [big[0]] + rest;
          Renormalize(small[1..], big[1..], keys);
        } else {
          assert Filter(big, KeyIn(fewer)) == Filter(big[1..], KeyIn(fewer));
          Renormalize(small[1..], big[1..], fewer);
        }
      }
    }
  }

  /** The relation kept between two caches that differ only in `maxEntries`. */
  ghost predicate Stacked<K, V>(m: Limits, n: Limits, small: seq<Entry<K, V>>, big: seq<Entry<K, V>>) {
    && Within(small, big)
    && WellKept(m, small) && WellKept(n, big)
    && |big| - |small| <= n.maxEntries - m.maxEntries
  }

  lemma LookupWithin<K, V>(small: seq<Entry<K, V>>, big: seq<Entry<K, V>>, key: K)
    requires Within(small, big) && DistinctKeys(big)
    ensures Lookup(small, key).Some? ==> Lookup(big, key) == Lookup(small, key)
    ensures Lookup(small, key).None? ==> key !in Keys(small)
  {
    FilterIn(big, KeyIn(Keys(small)));
    if Lookup(small, key).Some? {
      LookupFinds(big, Lookup(small, key).value);
    }
  }

  lemma GetStacked<K, V>(m: Limits, n: Limits, small: seq<Entry<K, V>>, big: seq<Entry<K, V>>, key: K, now: real)
    requires m.Valid() && n == m.(maxEntries := n.maxEntries) && m.maxEntries <= n.maxEntries
    requires Stacked(m, n, small, big)
    ensures Within(GetEntries(m, small, now, key), GetEntries(n, big, now, key))
    ensures |GetEntries(n, big, now, key)| - |GetEntries(m, small, now, key)| <= n.maxEntries - m.maxEntries
  {
    if m.enabled && m.ttl > 0 {
      var s, b := Live(small, now), Live(big, now);
      FilterWithin(small, big, IsLive(now));
      FilterKeepsDistinct(big, IsLive(now));
      FilterKeepsDistinct(small, IsLive(now));
      LookupWithin(s, b, key);
      var found := Lookup(b, key);
      if Lookup(s, key).Some? {
        FilterWithin(s, b, NotKey(key));
        FilterIn(b, NotKey(key));
        AppendWithin(Without(s, key), Without(b, key), found.value);
        WithoutPresent(s, found.value);
        WithoutPresent(b, found.value);
      } else if found.Some? {
        MoveOutsideWithin(s, b, found.value);
        WithoutPresent(b, found.value);
      }
    }
  }

  /** Dropping expired entries and inserting one keeps the inclusion and does not widen the gap. */
  lemma InsertWithin<K, V>(small: seq<Entry<K, V>>, big: seq<Entry<K, V>>, now: real, e: Entry<K, V>)
    requires Within(small, big) && DistinctKeys(big)
    ensures
      var s, b := Without(Live(small, now), e.key) + [e], Without(Live(big, now), e.key) + [e];
      && Within(s, b) && DistinctKeys(b)
      && |b| - |s| <= |big| - |small| && |s| <= |small| + 1 && |b| <= |big| + 1
  {
    var s, b := Live(small, now), Live(big, now);
    FilterWithin(small, big, IsLive(now));
    FilterKeepsDistinct(big, IsLive(now));
    FilterWithin(s, b, NotKey(e.key));
    FilterIn(b, NotKey(e.key));
    AppendWithin(Without(s, e.key), Without(b, e.key), e);
    ReplaceKeepsDistinct(b, e);
  }

  lemma SetStacked<K, V>(
      m: Limits, n: Limits, small: seq<Entry<K, V>>, big: seq<Entry<K, V>>,
      key: K, value: V, now: real, ttl: Option<int>)
    requires m.Valid() && n == m.(maxEntries := n.maxEntries) && m.maxEntries <= n.maxEntries
    requires Stacked(m, n, small, big)
    ensures Within(SetEntries(m, small, now, key, value, ttl), SetEntries(n, big, now, key, value, ttl))
    ensures |SetEntries(n, big, now, key, value, ttl)| - |SetEntries(m, small, now, key, value, ttl)|
      <= n.maxEntries - m.maxEntries
  {
    if m.enabled && EffectiveTtl(m, ttl) > 0 {
      var s, b := Live(small, now), Live(big, now);
      var e := Entry(key, now + EffectiveTtl(m, ttl) as real, value);
      InsertWithin(small, big, now, e);
      TrimWithin(Without(s, key) + [e], Without(b, key) + [e], m.maxEntries, n.maxEntries);
    }
  }

  lemma {:induction false} RunStacked<K, V>(
      m: Limits, n: Limits, small: seq<Entry<K, V>>, big: seq<Entry<K, V>>, ops: seq<Op<K, V>>)
    requires m.Valid() && n == m.(maxEntries := n.maxEntries) && m.maxEntries <= n.maxEntries
    requires Stacked(m, n, small, big)
    ensures Stacked(m, n, Run(m, small, ops), Run(n, big, ops))
    decreases |ops|
  {
    if ops != [] {
      StepWellKept(m, small, ops[0]);
      StepWellKept(n, big, ops[0]);
      match ops[0] {
        case Get(key, now) => GetStacked(m, n, small, big, key, now);
        case Set(key, value, now, ttl) => SetStacked(m, n, small, big, key, value, now, ttl);
        case Clear =>
      }
      RunStacked(m, n, Step(m, small, ops[0]), Step(n, big, ops[0]), ops[1..]);
    }
  }

  /**
   Stack inclusion: after any trace, with any expiries, everything the smaller cache holds the
   larger one holds too, with the same value and expiry and in the same order of use.
  */
  lemma StackInclusion<K, V>(m: Limits, largerMax: int, ops: seq<Op<K, V>>)
    requires m.Valid() && m.maxEntries <= largerMax
    ensures
      var small, big := Run(m, [], ops), Run(m.(maxEntries := largerMax), [], ops);
      && Within(small, big)
      && (forall e <- small :: e in big)
  {
    var n := m.(maxEntries := largerMax);
    RunStacked(m, n, [], [], ops);
    FilterIn(Run(n, [], ops), KeyIn(Keys(Run(m, [], ops))));
  }

  // ----- Retention -----

  /** The key that an operation stores or hits. */
  function TouchedBy<K(==), V>(l: Limits, s: seq<Entry<K, V>>, op: Op<K, V>): set<K> {
    match op
    case Clear => {}
    case Get(key, now) => if GetValue(l, s, now, key).Some? then {key} else {}
    case Set(key, _, _, ttl) => if l.enabled && EffectiveTtl(l, ttl) > 0 then {key} else {}
  }

  function Touched<K(==), V>(l: Limits, s: seq<Entry<K, V>>, ops: seq<Op<K, V>>): set<K>
    requires l.Valid()
    decreases |ops|
  {
    if ops == [] then {} else TouchedBy(l, s, ops[0]) + Touched(l, Step(l, s, ops[0]), ops[1..])
  }

  /** `e` is held and everything used more recently is among `recent`. */
  ghost predicate HeldBehind<K, V>(s: seq<Entry<K, V>>, e: Entry<K, V>, recent: set<K>) {
    exists i :: 0 <= i < |s| && s[i] == e && forall j :: i < j < |s| ==> s[j].key in recent
  }

  lemma {:induction false} FilterHeldBehind<K, V>(
      s: seq<Entry<K, V>>, e: Entry<K, V>, recent: set<K>, p: Entry<K, V> -> bool)
    requires HeldBehind(s, e, recent) && p(e)
    ensures HeldBehind(Filter(s, p), e, recent)
  {
    var i :| 0 <= i < |s| && s[i] == e && forall j :: i < j < |s| ==> s[j].key in recent;
    var before, after := s[..i], s[i + 1..];
    assert s == before + ([e] + after);
    FilterAppend(before, [e] + after, p);
    FilterAppend([e], after, p);
    FilterIn(after, p);
    var kept := Filter(s, p);
    var k := |Filter(before, p)|;
    assert kept == Filter(before, p) + ([e] + Filter(after, p));
    assert kept[k] == e;
    forall j | k < j < |kept| ensures kept[j].key in recent {
      assert kept[j] == Filter(after, p)[j - k - 1];
      assert kept[j] in Filter(after, p);
      assert kept[j] in after;
    }
  }

  lemma AppendHeldBehind<K, V>(s: seq<Entry<K, V>>, e: Entry<K, V>, last: Entry<K, V>, recent: set<K>)
    requires HeldBehind(s, e, recent)
    ensures HeldBehind(s + [last], e, recent + {last.key})
  {
    var i :| 0 <= i < |s| && s[i] == e && forall j :: i < j < |s| ==> s[j].key in recent;
    assert (s + [last])[i] == e;
  }

  /** With distinct keys, at most |recent| entries can follow the held one. */
  lemma {:induction false} FewFollow<K, V>(s: seq<Entry<K, V>>, recent: set<K>)
    requires DistinctKeys(s) && forall j :: 0 <= j < |s| ==> s[j].key in recent
    ensures |s| <= |recent|
  {
    if s != [] {
      FewFollow(s[1..], recent - {s[0].key});
    }
  }

  lemma TrimHeldBehind<K, V>(s: seq<Entry<K, V>>, e: Entry<K, V>, recent: set<K>, max: int)
    requires HeldBehind(s, e, recent) && DistinctKeys(s) && |recent| < max
    ensures HeldBehind(Trim(s, max), e, recent)
  {
    var i :| 0 <= i < |s| && s[i] == e && forall j :: i < j < |s| ==> s[j].key in recent;
    FewFollow(s[i + 1..], recent);
    if |s| > max {
      var d := |s| - max;
      assert Trim(s, max)[i - d] == e;
    }
  }

  lemma StepHeldBehind<K, V>(l: Limits, s: seq<Entry<K, V>>, op: Op<K, V>, e: Entry<K, V>, recent: set<K>)
    requires l.Valid() && WellKept(l, s) && HeldBehind(s, e, recent)
    requires !op.Clear? && op.key != e.key && op.now < e.expiresAt
    requires |recent + TouchedBy(l, s, op)| < l.maxEntries
    ensures HeldBehind(Step(l, s, op), e, recent + TouchedBy(l, s, op))
  {
    var live := Live(s, op.now);
    var wider := recent + TouchedBy(l, s, op);
    WidenHeldBehind(s, e, recent, wider);
    FilterKeepsDistinct(s, IsLive(op.now));
    FilterHeldBehind(s, e, wider, IsLive(op.now));
    FilterHeldBehind(live, e, wider, NotKey(op.key));
    if op.Get? {
      var found := Lookup(live, op.key);
      if l.enabled && l.ttl > 0 && found.Some? {
        AppendHeldBehind(Without(live, op.key), e, found.value, wider);
        assert wider + {op.key} == wider;
      }
    } else if l.enabled && EffectiveTtl(l, op.ttl) > 0 {
      var added := Entry(op.key, op.now + EffectiveTtl(l, op.ttl) as real, op.value);
      AppendHeldBehind(Without(live, op.key), e, added, wider);
      assert wider + {op.key} == wider;
      ReplaceKeepsDistinct(live, added);
      TrimHeldBehind(Without(live, op.key) + [added], e, wider, l.maxEntries);
    }
  }

  lemma WidenHeldBehind<K, V>(s: seq<Entry<K, V>>, e: Entry<K, V>, recent: set<K>, wider: set<K>)
    requires HeldBehind(s, e, recent) && recent <= wider
    ensures HeldBehind(s, e, wider)
  {
    var i :| 0 <= i < |s| && s[i] == e && forall j :: i < j < |s| ==> s[j].key in recent;
  }

  lemma {:induction false} RunHeldBehind<K, V>(
      l: Limits, s: seq<Entry<K, V>>, ops: seq<Op<K, V>>, e: Entry<K, V>, recent: set<K>)
    requires l.Valid() && WellKept(l, s) && HeldBehind(s, e, recent)
    requires forall op <- ops :: !op.Clear? && op.key != e.key && op.now < e.expiresAt
    requires |recent + Touched(l, s, ops)| < l.maxEntries
    ensures e in Run(l, s, ops)
    decreases |ops|
  {
    if ops != [] {
      var op, wider := ops[0], recent + TouchedBy(l, s, ops[0]);
      var after := Step(l, s, op);
      assert wider + Touched(l, after, ops[1..]) == recent + Touched(l, s, ops);
      SubsetSize(wider, recent + Touched(l, s, ops));
      assert op in ops;
      StepHeldBehind(l, s, op, e, recent);
      StepWellKept(l, s, op);
      RunHeldBehind(l, after, ops[1..], e, wider);
    }
  }

  /** The most recently used entry survives such a trace. */
  lemma LastSurvives<K, V>(l: Limits, s: seq<Entry<K, V>>, ops: seq<Op<K, V>>, e: Entry<K, V>, now: real)
    requires l.Valid() && l.enabled && l.ttl > 0 && WellKept(l, s)
    requires s != [] && s[|s| - 1] == e
    requires forall op <- ops :: !op.Clear? && op.key != e.key && op.now < e.expiresAt
    requires now < e.expiresAt
    requires |Touched(l, s, ops)| < l.maxEntries
    ensures GetValue(l, Run(l, s, ops), now, e.key) == Some(e.value)
  {
    assert {} + Touched(l, s, ops) == Touched(l, s, ops);
    RunHeldBehind(l, s, ops, e, {});
    var end := Run(l, s, ops);
    RunWellKept(l, s, ops);
    FilterIn(end, IsLive(now));
    FilterKeepsDistinct(end, IsLive(now));
    LookupFinds(Live(end, now), e);
  }
}
