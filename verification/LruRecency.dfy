/**
 The order of use in `LruTtlCache`: what exactly one get and one set do to the entries, that the
 entries always stand in the order of their last use, and how long a key in use survives.
*/
module LruRecency {
  import opened Common
  import opened LruCache
  import opened LruTheorems

  // ----- One operation -----

  predicate On(l: Limits) { l.enabled && l.ttl > 0 }

  /** The unexpired entries of other keys, in their order. */
  function Others<K(==), V>(s: seq<Entry<K, V>>, now: real, key: K): seq<Entry<K, V>> {
    Filter(s, (e: Entry<K, V>) => e.expiresAt > now && e.key != key)
  }

  lemma OthersAre<K, V>(s: seq<Entry<K, V>>, now: real, key: K)
    ensures Without(Live(s, now), key) == Others(s, now, key)
  {
    FilterCompose(s, IsLive(now), NotKey(key), (e: Entry<K, V>) => e.expiresAt > now && e.key != key);
  }

  /**
   A get that finds an unexpired entry returns its value and makes it the last, as it is; the others
   keep their order.
  */
  lemma HitMovesLast<K, V>(l: Limits, s: seq<Entry<K, V>>, now: real, e: Entry<K, V>)
    requires On(l) && DistinctKeys(s) && e in s && e.expiresAt > now
    ensures GetValue(l, s, now, e.key) == Some(e.value)
    ensures GetEntries(l, s, now, e.key) == Others(s, now, e.key) + [e]
  {
    FilterKeepsDistinct(s, IsLive(now));
    FilterIn(s, IsLive(now));
    LookupFinds(Live(s, now), e);
    OthersAre(s, now, e.key);
  }

  /** A get that finds none returns nothing and only drops the expired entries. */
  lemma MissOnlyExpires<K, V>(l: Limits, s: seq<Entry<K, V>>, now: real, key: K)
    requires On(l) && forall e <- s :: e.key == key ==> e.expiresAt <= now
    ensures GetValue(l, s, now, key) == None
    ensures GetEntries(l, s, now, key) == Others(s, now, key)
  {
    FilterIn(s, IsLive(now));
    FilterSame(s, IsLive(now), (e: Entry<K, V>) => e.expiresAt > now && e.key != key);
  }

  /** A cache that is off returns nothing and changes nothing. */
  lemma OffDoesNothing<K, V>(l: Limits, s: seq<Entry<K, V>>, now: real, key: K, value: V, override: Option<int>)
    requires l.Valid()
    ensures !On(l) ==> GetValue(l, s, now, key) == None && GetEntries(l, s, now, key) == s
    ensures !l.enabled || EffectiveTtl(l, override) <= 0 ==> SetEntries(l, s, now, key, value, override) == s
  {
  }

  /** The lifetime of a set: its own, or else the cache's; a negative one counts as none. */
  lemma LifetimeIs(l: Limits, override: Option<int>)
    requires l.Valid()
    ensures override.None? ==> EffectiveTtl(l, override) == l.ttl
    ensures override.Some? && override.value >= 0 ==> EffectiveTtl(l, override) == override.value
    ensures override.Some? && override.value < 0 ==> EffectiveTtl(l, override) == 0
  {
  }

  /**
   A set that takes effect stores the value last, and drops the oldest of the others only as far as
   the limit asks.
  */
  lemma SetStoresLast<K, V>(l: Limits, s: seq<Entry<K, V>>, now: real, key: K, value: V, override: Option<int>)
    requires l.Valid() && l.enabled && EffectiveTtl(l, override) > 0
    ensures var others := Others(s, now, key);
      var over := |others| + 1 - l.maxEntries;
      SetEntries(l, s, now, key, value, override)
        == others[if over > 0 then over else 0..] + [Entry(key, now + EffectiveTtl(l, override) as real, value)]
  {
    OthersAre(s, now, key);
  }

  // ----- The order of use -----

  lemma {:induction false} RunAppend<K, V>(l: Limits, s: seq<Entry<K, V>>, a: seq<Op<K, V>>, b: seq<Op<K, V>>)
    requires l.Valid()
    ensures Run(l, s, a + b) == Run(l, Run(l, s, a), b)
    decreases |a|
  {
    hide Step;
    if a == [] {
      assert a + b == b;
    } else {
      assert (a + b)[0] == a[0] && (a + b)[1..] == a[1..] + b;
      RunAppend(l, Step(l, s, a[0]), a[1..], b);
    }
  }

  lemma RunLast<K, V>(l: Limits, s: seq<Entry<K, V>>, ops: seq<Op<K, V>>)
    requires l.Valid() && ops != []
    ensures Run(l, s, ops) == Step(l, Run(l, s, ops[..|ops| - 1]), ops[|ops| - 1])
  {
    var n := |ops| - 1;
    assert ops == ops[..n] + [ops[n]] && [ops[n]][1..] == [];
    RunAppend(l, s, ops[..n], [ops[n]]);
  }

  /** The place in the trace of the last operation that stored or hit the key; -1 if there is none. */
  function LastUse<K(==), V>(l: Limits, ops: seq<Op<K, V>>, key: K): int
    requires l.Valid()
    decreases |ops|
  {
    if ops == [] then -1 else
    var n := |ops| - 1;
    if key in TouchedBy(l, Run(l, [], ops[..n]), ops[n]) then n else LastUse(l, ops[..n], key)
  }

  lemma {:induction false} LastUseBelow<K, V>(l: Limits, ops: seq<Op<K, V>>, key: K)
    requires l.Valid()
    ensures LastUse(l, ops, key) < |ops|
    decreases |ops|
  {
    if ops != [] {
      LastUseBelow(l, ops[..|ops| - 1], key);
    }
  }

  /** Each entry was used before those after it. */
  ghost predicate InUseOrder<K, V>(l: Limits, ops: seq<Op<K, V>>, s: seq<Entry<K, V>>)
    requires l.Valid()
  {
    forall i, j :: 0 <= i < j < |s| ==> LastUse(l, ops, s[i].key) < LastUse(l, ops, s[j].key)
  }

  lemma {:induction false} FilterKeepsOrder<K, V>(
      l: Limits, ops: seq<Op<K, V>>, s: seq<Entry<K, V>>, p: Entry<K, V> -> bool)
    requires l.Valid() && InUseOrder(l, ops, s)
    ensures InUseOrder(l, ops, Filter(s, p))
  {
    hide LastUse;
    if s != [] {
      FilterKeepsOrder(l, ops, s[1..], p);
      var rest := Filter(s[1..], p);
      FilterIn(s[1..], p);
      forall j | 0 <= j < |rest| ensures LastUse(l, ops, s[0].key) < LastUse(l, ops, rest[j].key) {
        assert rest[j] in s[1..];
        var k :| 0 <= k < |s[1..]| && s[1..][k] == rest[j];
        assert s[k + 1] == rest[j];
      }
      assert Filter(s, p) == if p(s[0]) then [s[0]] + rest else rest;
    }
  }

  /** One more operation: the keys it does not touch keep their last use. */
  lemma OrderCarries<K, V>(l: Limits, ops: seq<Op<K, V>>, s: seq<Entry<K, V>>)
    requires l.Valid() && ops != [] && InUseOrder(l, ops[..|ops| - 1], s)
    requires forall e <- s :: e.key !in TouchedBy(l, Run(l, [], ops[..|ops| - 1]), ops[|ops| - 1])
    ensures InUseOrder(l, ops, s)
  {
    var n := |ops| - 1;
    forall i | 0 <= i < |s| ensures LastUse(l, ops, s[i].key) == LastUse(l, ops[..n], s[i].key) {
      assert s[i] in s;
    }
  }

  /** The key just used comes last. */
  lemma OrderAppends<K, V>(l: Limits, ops: seq<Op<K, V>>, s: seq<Entry<K, V>>, e: Entry<K, V>)
    requires l.Valid() && ops != [] && InUseOrder(l, ops[..|ops| - 1], s)
    requires TouchedBy(l, Run(l, [], ops[..|ops| - 1]), ops[|ops| - 1]) == {e.key}
    requires forall x <- s :: x.key != e.key
    ensures InUseOrder(l, ops, s + [e])
  {
    var n := |ops| - 1;
    OrderCarries(l, ops, s);
    forall i | 0 <= i < |s| ensures LastUse(l, ops, s[i].key) < LastUse(l, ops, e.key) {
      assert s[i] in s;
      LastUseBelow(l, ops[..n], s[i].key);
    }
  }

  /**
   After any trace the entries stand in the order of their last use, so what a full cache drops is
   least recently used.
  */
  lemma {:induction false} OrderedByUse<K, V>(l: Limits, ops: seq<Op<K, V>>)
    requires l.Valid()
    ensures InUseOrder(l, ops, Run(l, [], ops)) && DistinctKeys(Run(l, [], ops))
    decreases |ops|
  {
    RunWellKept(l, [], ops);
    if ops != [] {
      hide InUseOrder, LastUse;
      var n := |ops| - 1;
      var s := Run(l, [], ops[..n]);
      OrderedByUse(l, ops[..n]);
      RunLast(l, [], ops);
      match ops[n] {
        case Clear => NothingInOrder<K, V>(l, ops);
        case Get(key, now) => OrderedGet(l, ops, s, key, now);
        case Set(key, value, now, ttl) => OrderedSet(l, ops, s, key, value, now, ttl);
      }
    }
  }

  lemma NothingInOrder<K, V>(l: Limits, ops: seq<Op<K, V>>)
    requires l.Valid()
    ensures InUseOrder(l, ops, [])
  {
  }

  lemma OthersKeepOrder<K, V>(l: Limits, ops: seq<Op<K, V>>, s: seq<Entry<K, V>>, now: real, key: K)
    requires l.Valid() && InUseOrder(l, ops, s)
    ensures InUseOrder(l, ops, Others(s, now, key)) && forall e <- Others(s, now, key) :: e.key != key && e in s
  {
    hide InUseOrder;
    var p := (e: Entry<K, V>) => e.expiresAt > now && e.key != key;
    FilterKeepsOrder(l, ops, s, p);
    FilterIn(s, p);
  }

  lemma OrderedGet<K, V>(l: Limits, ops: seq<Op<K, V>>, s: seq<Entry<K, V>>, key: K, now: real)
    requires l.Valid() && ops != [] && ops[|ops| - 1] == Get(key, now) && s == Run(l, [], ops[..|ops| - 1])
    requires InUseOrder(l, ops[..|ops| - 1], s) && DistinctKeys(s)
    ensures InUseOrder(l, ops, GetEntries(l, s, now, key))
  {
    hide InUseOrder, Others, GetEntries, GetValue;
    OthersKeepOrder(l, ops[..|ops| - 1], s, now, key);
    if !On(l) {
      MissOff(l, s, now, key);
      OrderCarries(l, ops, s);
    } else if e :| e in s && e.key == key && e.expiresAt > now {
      HitMovesLast(l, s, now, e);
      OrderAppends(l, ops, Others(s, now, key), e);
    } else {
      MissOnlyExpires(l, s, now, key);
      OrderCarries(l, ops, Others(s, now, key));
    }
  }

  lemma MissOff<K, V>(l: Limits, s: seq<Entry<K, V>>, now: real, key: K)
    requires !On(l)
    ensures GetValue(l, s, now, key) == None && GetEntries(l, s, now, key) == s
  {
  }

  lemma OrderedSet<K, V>(
      l: Limits, ops: seq<Op<K, V>>, s: seq<Entry<K, V>>, key: K, value: V, now: real, ttl: Option<int>)
    requires l.Valid() && ops != [] && ops[|ops| - 1] == Set(key, value, now, ttl) && s == Run(l, [], ops[..|ops| - 1])
    requires InUseOrder(l, ops[..|ops| - 1], s)
    ensures InUseOrder(l, ops, SetEntries(l, s, now, key, value, ttl))
  {
    hide InUseOrder, Others;
    if l.enabled && EffectiveTtl(l, ttl) > 0 {
      var before := ops[..|ops| - 1];
      OthersKeepOrder(l, before, s, now, key);
      SetStoresLast(l, s, now, key, value, ttl);
      var others := Others(s, now, key);
      var over := |others| + 1 - l.maxEntries;
      var kept := others[if over > 0 then over else 0..];
      SuffixInOrder(l, before, others, if over > 0 then over else 0);
      OrderAppends(l, ops, kept, Entry(key, now + EffectiveTtl(l, ttl) as real, value));
    } else {
      OrderCarries(l, ops, s);
    }
  }

  lemma SuffixInOrder<K, V>(l: Limits, ops: seq<Op<K, V>>, s: seq<Entry<K, V>>, n: nat)
    requires l.Valid() && n <= |s| && InUseOrder(l, ops, s)
    ensures InUseOrder(l, ops, s[n..]) && forall e <- s[n..] :: e in s
  {
    hide LastUse;
  }

  // ----- Retention -----

  /** The operation stores the value under its key, or returns it. */
  predicate Uses<K(==), V(==)>(l: Limits, before: seq<Op<K, V>>, use: Op<K, V>, value: V)
    requires l.Valid()
  {
    match use
    case Clear => false
    case Get(key, now) => GetValue(l, Run(l, [], before), now, key) == Some(value)
    case Set(_, stored, _, ttl) => l.enabled && EffectiveTtl(l, ttl) > 0 && stored == value
  }

  /** An operation that uses a key leaves it last, as it was last stored. */
  lemma UsedIsLast<K, V>(l: Limits, before: seq<Op<K, V>>, use: Op<K, V>, value: V)
    requires l.Valid() && l.enabled && l.ttl > 0 && Uses(l, before, use, value)
    ensures var s := Run(l, [], before + [use]);
      var latest := Latest(l, use.key, None, before + [use]);
      && s != [] && latest.Some? && s[|s| - 1] == latest.value
      && latest.value.key == use.key && latest.value.value == value
  {
    var s, ops := Run(l, [], before), before + [use];
    assert ops[..|ops| - 1] == before;
    RunLast(l, [], ops);
    RunWellKept(l, [], before);
    HoldsLatest(l, [], ops, use.key, None);
    if use.Get? {
      FilterIn(s, IsLive(use.now));
      var e := Lookup(Live(s, use.now), use.key).value;
      HitMovesLast(l, s, use.now, e);
    } else {
      SetStoresLast(l, s, use.now, use.key, value, use.ttl);
    }
    var after := Run(l, [], ops);
    assert after[|after| - 1] in after;
  }

  /**
   Retention: a key stored or hit after any trace still hits, with the same value, after any further
   trace that neither clears the cache nor names the key, as long as what was stored has not expired
   and fewer than `maxEntries` other keys were stored or hit.
  */
  lemma KeySurvives<K, V>(
      l: Limits, before: seq<Op<K, V>>, use: Op<K, V>, after: seq<Op<K, V>>, value: V, now: real)
    requires l.Valid() && l.enabled && l.ttl > 0 && Uses(l, before, use, value)
    requires var latest := Latest(l, use.key, None, before + [use]);
      latest.Some? ==>
        && now < latest.value.expiresAt
        && forall op <- after :: !op.Clear? && op.key != use.key && op.now < latest.value.expiresAt
    requires |Touched(l, Run(l, [], before + [use]), after)| < l.maxEntries
    ensures GetValue(l, Run(l, [], before + [use] + after), now, use.key) == Some(value)
  {
    hide GetValue, Latest, Touched;
    UsedIsLast(l, before, use, value);
    RunWellKept(l, [], before + [use]);
    RunAppend(l, [], before + [use], after);
    LastSurvives(l, Run(l, [], before + [use]), after, Latest(l, use.key, None, before + [use]).value, now);
  }
}
