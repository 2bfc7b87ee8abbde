/**
 The cache looks at keys and expiries only: two caches that hold other values under the same keys
 and expiries stay in step. A pair of values stands for the two caches at once.
*/
module LruViews {
  import opened Common
  import opened LruCache

  function FirstOf<K, A, B>(s: seq<Entry<K, (A, B)>>): (r: seq<Entry<K, A>>)
    ensures |r| == |s|
    ensures forall i :: 0 <= i < |s| ==> r[i] == Entry(s[i].key, s[i].expiresAt, s[i].value.0)
  {
    seq(|s|, i requires 0 <= i < |s| => Entry(s[i].key, s[i].expiresAt, s[i].value.0))
  }

  function SecondOf<K, A, B>(s: seq<Entry<K, (A, B)>>): (r: seq<Entry<K, B>>)
    ensures |r| == |s|
    ensures forall i :: 0 <= i < |s| ==> r[i] == Entry(s[i].key, s[i].expiresAt, s[i].value.1)
  {
    seq(|s|, i requires 0 <= i < |s| => Entry(s[i].key, s[i].expiresAt, s[i].value.1))
  }

  lemma AppendFront<K, A, B>(e: Entry<K, (A, B)>, s: seq<Entry<K, (A, B)>>)
    ensures FirstOf([e] + s) == [Entry(e.key, e.expiresAt, e.value.0)] + FirstOf(s)
    ensures SecondOf([e] + s) == [Entry(e.key, e.expiresAt, e.value.1)] + SecondOf(s)
  {
  }

  /** Both caches filtered by tests that see keys and expiries only. */
  lemma {:induction false} FilterBoth<K, A, B>(
      s: seq<Entry<K, (A, B)>>, p: Entry<K, (A, B)> -> bool, q: Entry<K, A> -> bool, r: Entry<K, B> -> bool)
    requires forall e <- s :: p(e) == q(Entry(e.key, e.expiresAt, e.value.0)) == r(Entry(e.key, e.expiresAt, e.value.1))
    ensures Filter(FirstOf(s), q) == FirstOf(Filter(s, p)) && Filter(SecondOf(s), r) == SecondOf(Filter(s, p))
  {
    if s != [] {
      FilterBoth(s[1..], p, q, r);
      assert FirstOf(s)[1..] == FirstOf(s[1..]) && SecondOf(s)[1..] == SecondOf(s[1..]);
      var kept := Filter(s[1..], p);
      if p(s[0]) {
        AppendFront(s[0], kept);
      } else {
        assert [] + kept == kept;
      }
    }
  }

  lemma LiveBoth<K, A, B>(s: seq<Entry<K, (A, B)>>, now: real)
    ensures Live(FirstOf(s), now) == FirstOf(Live(s, now)) && Live(SecondOf(s), now) == SecondOf(Live(s, now))
  {
    FilterBoth(s, IsLive(now), IsLive(now), IsLive(now));
  }

  lemma WithoutBoth<K, A, B>(s: seq<Entry<K, (A, B)>>, key: K)
    ensures Without(FirstOf(s), key) == FirstOf(Without(s, key))
    ensures Without(SecondOf(s), key) == SecondOf(Without(s, key))
  {
    FilterBoth(s, NotKey(key), NotKey(key), NotKey(key));
  }

  lemma {:induction false} LookupBoth<K, A, B>(s: seq<Entry<K, (A, B)>>, key: K)
    ensures match Lookup(s, key)
      case None => Lookup(FirstOf(s), key) == None && Lookup(SecondOf(s), key) == None
      case Some(e) =>
        && Lookup(FirstOf(s), key) == Some(Entry(e.key, e.expiresAt, e.value.0))
        && Lookup(SecondOf(s), key) == Some(Entry(e.key, e.expiresAt, e.value.1))
  {
    if s != [] {
      LookupBoth(s[1..], key);
      assert FirstOf(s)[1..] == FirstOf(s[1..]) && SecondOf(s)[1..] == SecondOf(s[1..]);
    }
  }

  lemma AppendBoth<K, A, B>(s: seq<Entry<K, (A, B)>>, e: Entry<K, (A, B)>)
    ensures FirstOf(s + [e]) == FirstOf(s) + [Entry(e.key, e.expiresAt, e.value.0)]
    ensures SecondOf(s + [e]) == SecondOf(s) + [Entry(e.key, e.expiresAt, e.value.1)]
  {
  }

  lemma TrimBoth<K, A, B>(s: seq<Entry<K, (A, B)>>, max: int)
    requires max >= 0
    ensures Trim(FirstOf(s), max) == FirstOf(Trim(s, max)) && Trim(SecondOf(s), max) == SecondOf(Trim(s, max))
  {
  }

  /** A get on both caches hits or misses alike. */
  lemma GetBoth<K, A, B>(l: Limits, s: seq<Entry<K, (A, B)>>, now: real, key: K)
    ensures GetEntries(l, FirstOf(s), now, key) == FirstOf(GetEntries(l, s, now, key))
    ensures GetEntries(l, SecondOf(s), now, key) == SecondOf(GetEntries(l, s, now, key))
    ensures match GetValue(l, s, now, key)
      case None => GetValue(l, FirstOf(s), now, key) == None && GetValue(l, SecondOf(s), now, key) == None
      case Some(v) => GetValue(l, FirstOf(s), now, key) == Some(v.0) && GetValue(l, SecondOf(s), now, key) == Some(v.1)
  {
    hide Live, Without, Lookup, FirstOf, SecondOf;
    var live := Live(s, now);
    LiveBoth(s, now);
    LookupBoth(live, key);
    WithoutBoth(live, key);
    if Lookup(live, key).Some? {
      AppendBoth(Without(live, key), Lookup(live, key).value);
    }
  }

  lemma SetBoth<K, A, B>(
      l: Limits, s: seq<Entry<K, (A, B)>>, now: real, key: K, value: (A, B), override: Option<int>)
    requires l.Valid()
    ensures SetEntries(l, FirstOf(s), now, key, value.0, override)
      == FirstOf(SetEntries(l, s, now, key, value, override))
    ensures SetEntries(l, SecondOf(s), now, key, value.1, override)
      == SecondOf(SetEntries(l, s, now, key, value, override))
  {
    hide Live, Without, FirstOf, SecondOf, Trim;
    var e := Entry(key, now + EffectiveTtl(l, override) as real, value);
    LiveBoth(s, now);
    WithoutBoth(Live(s, now), key);
    AppendBoth(Without(Live(s, now), key), e);
    TrimBoth(Without(Live(s, now), key) + [e], l.maxEntries);
  }
}
