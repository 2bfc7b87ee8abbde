/**
 `LruTtlCache`: an ordered dictionary with per-entry expiry and least-recently-used eviction.

 The entries are a sequence, oldest first. Each method is given as a function on that sequence,
 and the class updates its own sequence in place as the source does.
*/
module LruCache {
  import opened Common

  datatype Entry<K, V> = Entry(key: K, expiresAt: real, value: V)

  /** The constructor's clamped settings. */
  datatype Limits = Limits(enabled: bool, ttl: int, maxEntries: int) {
    predicate Valid() {
      ttl >= 0 && maxEntries >= 1
    }
  }

  function Clamp(enabled: bool, ttlSeconds: int, maxEntries: int): (l: Limits)
    ensures l.Valid()
    ensures l.enabled == enabled
    ensures l.ttl == ttlSeconds || (ttlSeconds < 0 && l.ttl == 0)
    ensures l.maxEntries == maxEntries || (maxEntries < 1 && l.maxEntries == 1)
  {
    Limits(enabled, Max0(ttlSeconds), if maxEntries < 1 then 1 else maxEntries)
  }

  function IsLive<K, V>(now: real): Entry<K, V> -> bool {
    (e: Entry<K, V>) => e.expiresAt > now
  }

  function NotKey<K(==), V>(key: K): Entry<K, V> -> bool {
    (e: Entry<K, V>) => e.key != key
  }

  function Live<K, V>(s: seq<Entry<K, V>>, now: real): seq<Entry<K, V>> {
    Filter(s, IsLive(now))
  }

  function Without<K(==), V>(s: seq<Entry<K, V>>, key: K): seq<Entry<K, V>> {
    Filter(s, NotKey(key))
  }

  /** Keep the `max` most recently used entries. */
  function Trim<K, V>(s: seq<Entry<K, V>>, max: int): seq<Entry<K, V>>
    requires max >= 0
  {
    if |s| <= max then s else s[|s| - max..]
  }

  function Lookup<K(==), V>(s: seq<Entry<K, V>>, key: K): (r: Option<Entry<K, V>>)
    ensures r.Some? ==> r.value in s && r.value.key == key
    ensures r.None? ==> forall e <- s :: e.key != key
  {
    if s == [] then None else
    if s[0].key == key then Some(s[0]) else Lookup(s[1..], key)
  }

  predicate DistinctKeys<K(==), V>(s: seq<Entry<K, V>>) {
    forall i, j :: 0 <= i < j < |s| ==> s[i].key != s[j].key
  }

  function EffectiveTtl(l: Limits, override: Option<int>): int {
    match override case None => l.ttl case Some(t) => Max0(t)
  }

  // ----- The operations on the entries -----

  function GetEntries<K(==), V>(l: Limits, s: seq<Entry<K, V>>, now: real, key: K): seq<Entry<K, V>> {
    if !l.enabled || l.ttl <= 0 then s else
    match Lookup(Live(s, now), key)
    case None => Live(s, now)
    case Some(e) => Without(Live(s, now), key) + [e]
  }

  function GetValue<K(==), V>(l: Limits, s: seq<Entry<K, V>>, now: real, key: K): Option<V> {
    if !l.enabled || l.ttl <= 0 then None else
    match Lookup(Live(s, now), key)
    case None => None
    case Some(e) => Some(e.value)
  }

  function SetEntries<K(==), V>(l: Limits, s: seq<Entry<K, V>>, now: real, key: K, value: V, override: Option<int>)
    : seq<Entry<K, V>>
    requires l.Valid()
  {
    var ttl := EffectiveTtl(l, override);
    if !l.enabled || ttl <= 0 then s else
    Trim(Without(Live(s, now), key) + [Entry(key, now + ttl as real, value)], l.maxEntries)
  }

  // ----- Keys stay distinct -----

  lemma {:induction false} FilterKeepsDistinct<K, V>(s: seq<Entry<K, V>>, p: Entry<K, V> -> bool)
    requires DistinctKeys(s)
    ensures DistinctKeys(Filter(s, p))
  {
    if s != [] {
      FilterKeepsDistinct(s[1..], p);
      var rest := Filter(s[1..], p);
      FilterIn(s[1..], p);
      forall j | 0 <= j < |rest| ensures rest[j].key != s[0].key {
        assert rest[j] in rest && rest[j] in s[1..];
        var k :| 0 <= k < |s[1..]| && s[1..][k] == rest[j];
        assert s[k + 1] == rest[j];
      }
      if p(s[0]) {
        assert Filter(s, p) == [s[0]] + rest;
      } else {
        assert Filter(s, p) == rest;
      }
    }
  }

  /** Moving or adding a key to the end keeps keys distinct. */
  lemma ReplaceKeepsDistinct<K, V>(s: seq<Entry<K, V>>, e: Entry<K, V>)
    requires DistinctKeys(s)
    ensures DistinctKeys(Without(s, e.key) + [e])
  {
    FilterKeepsDistinct(s, NotKey(e.key));
    FilterIn(s, NotKey(e.key));
    var kept := Without(s, e.key);
    forall j | 0 <= j < |kept| ensures kept[j].key != e.key {
      assert kept[j] in kept && NotKey(e.key)(kept[j]);
    }
  }

  class LruTtlCache<K(==), V> {
    const limits: Limits
    var entries: seq<Entry<K, V>>

    predicate Valid()
      reads this
    {
      limits.Valid() && DistinctKeys(entries)
    }

    constructor (enabled: bool, ttlSeconds: int, maxEntries: int)
      ensures Valid() && entries == [] && limits == Clamp(enabled, ttlSeconds, maxEntries)
    {
      limits := Clamp(enabled, ttlSeconds, maxEntries);
      entries := [];
    }

    method Clear()
      modifies this
      ensures entries == []
      ensures old(Valid()) ==> Valid()
    {
      entries := [];
    }

    /** Collects the expired keys, then pops them one by one. */
    method EvictExpired(now: real)
      requires Valid()
      modifies this
      ensures Valid() && entries == Live(old(entries), now)
    {
      var all := entries;
      var expired: seq<K> := [];
      for i := 0 to |all|
        invariant entries == all
        invariant forall j :: 0 <= j < i && all[j].expiresAt <= now ==> all[j].key in expired
        invariant forall j :: 0 <= j < |all| && all[j].expiresAt > now ==> all[j].key !in expired
      {
        if all[i].expiresAt <= now {
          expired := expired + [all[i].key];
        }
      }
      FilterAll(all, NotAmong(expired[..0]));
      for i := 0 to |expired|
        invariant Valid()
        invariant entries == Filter(all, NotAmong(expired[..i]))
      {
        FilterKeepsDistinct(entries, NotKey(expired[i]));
        FilterCompose(all, NotAmong(expired[..i]), NotKey(expired[i]), NotAmong(expired[..i + 1]));
        entries := Without(entries, expired[i]);
      }
      assert expired[..|expired|] == expired;
      forall e <- all ensures NotAmong(expired)(e) <==> IsLive(now)(e) {
        var k :| 0 <= k < |all| && all[k] == e;
      }
      FilterSame(all, NotAmong(expired), IsLive(now));
    }

    static function NotAmong(keys: seq<K>): Entry<K, V> -> bool {
      (e: Entry<K, V>) => e.key !in keys
    }

    method EvictLru()
      requires Valid()
      modifies this
      ensures Valid() && entries == Trim(old(entries), limits.maxEntries)
    {
      while |entries| > limits.maxEntries
        invariant Valid()
        invariant |entries| <= |old(entries)|
        invariant entries == old(entries)[|old(entries)| - |entries|..]
        invariant |old(entries)| > limits.maxEntries ==> |entries| >= limits.maxEntries
        invariant |old(entries)| <= limits.maxEntries ==> entries == old(entries)
      {
        entries := entries[1..];
      }
    }

    method Get(key: K, now: real) returns (value: Option<V>)
      requires Valid()
      modifies this
      ensures Valid()
      ensures entries == GetEntries(limits, old(entries), now, key)
      ensures value == GetValue(limits, old(entries), now, key)
    {
      if !limits.enabled || limits.ttl <= 0 {
        return None;
      }
      EvictExpired(now);
      var entry := Lookup(entries, key);
      if entry.None? {
        return None;
      }
      FilterIn(old(entries), IsLive(now));
      assert entry.value.expiresAt > now;
      ReplaceKeepsDistinct(entries, entry.value);
      entries := Without(entries, key) + [entry.value];
      value := Some(entry.value.value);
    }

    method Set(key: K, value: V, now: real, ttlSeconds: Option<int>)
      requires Valid()
      modifies this
      ensures Valid()
      ensures entries == SetEntries(limits, old(entries), now, key, value, ttlSeconds)
    {
      var ttl := EffectiveTtl(limits, ttlSeconds);
      if !limits.enabled || ttl <= 0 {
        return;
      }
      EvictExpired(now);
      var entry := Entry(key, now + ttl as real, value);
      ReplaceKeepsDistinct(entries, entry);
      entries := Without(entries, key) + [entry];
      EvictLru();
    }

    /** `get_or_load`, with the loader's result given; `later` is the clock when the load has finished. */
    method GetOrLoad(key: K, loaded: V, now: real, later: real, ttlSeconds: Option<int>) returns (value: V)
      requires Valid()
      modifies this
      ensures Valid()
      ensures
        var ttl := EffectiveTtl(limits, ttlSeconds);
        if !limits.enabled || ttl <= 0 then value == loaded && entries == old(entries)
        else match Lookup(Live(old(entries), now), key) {
          case Some(e) => value == e.value && entries == Without(Live(old(entries), now), key) + [e]
          case None =>
            value == loaded && entries == SetEntries(limits, Live(old(entries), now), later, key, loaded, Some(ttl))
        }
    {
      var ttl := EffectiveTtl(limits, ttlSeconds);
      if !limits.enabled || ttl <= 0 {
        return loaded;
      }
      EvictExpired(now);
      var entry := Lookup(entries, key);
      if entry.Some? {
        ReplaceKeepsDistinct(entries, entry.value);
        entries := Without(entries, key) + [entry.value];
        return entry.value.value;
      }
      Set(key, loaded, later, Some(ttl));
      value := loaded;
    }
  }
}
