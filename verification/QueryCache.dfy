/**
 The query cache of `DatabricksSQLClient` against an uncached client.

 The first half states transparency over whole runs on values. The second half is the client
 object itself, whose cached frames are heap objects that callers may be handed copies of and
 mutate.
*/
module QueryCache {
  import opened Common
  import opened LruCache
  import opened LruViews

  /**
   The database as the client sees it: what a read returns, what a write does (None when it fails),
   which prepared statements lead with SELECT or WITH, and which the SQL policy lets through.
  */
  datatype Engine<!Db, !Key, !Data> = Engine(
    read: (Db, Key) -> Option<Data>,
    write: (Db, Key) -> Option<Db>,
    cacheable: Key -> bool,
    permits: (Key, bool) -> bool)

  /** `now` and `later` are the clock at the cache lookup and at the cache store. */
  datatype Request<Key> =
    | Query(key: Key, now: real, later: real)
    | Execute(key: Key)

  datatype Reply<Data> = Rows(data: Data) | Done | Raised

  // ----- The uncached client -----

  function UncachedDb<Db, Key, Data>(g: Engine<Db, Key, Data>, db: Db, r: Request<Key>): Db {
    if r.Execute? && g.permits(r.key, false) then
      match g.write(db, r.key) case None => db case Some(after) => after
    else db
  }

  function UncachedReply<Db, Key, Data>(g: Engine<Db, Key, Data>, db: Db, r: Request<Key>): Reply<Data> {
    match r
    case Query(key, _, _) =>
      if !g.permits(key, true) then Raised else
      (match g.read(db, key) case None => Raised case Some(data) => Rows(data))
    case Execute(key) =>
      if g.permits(key, false) && g.write(db, key).Some? then Done else Raised
  }

  function UncachedRun<Db, Key, Data>(g: Engine<Db, Key, Data>, db: Db, rs: seq<Request<Key>>): seq<Reply<Data>> {
    if rs == [] then [] else
    [UncachedReply(g, db, rs[0])] + UncachedRun(g, UncachedDb(g, db, rs[0]), rs[1..])
  }

  // ----- The cached client, on values -----

  datatype Client<Db, Key, Data> = Client(db: Db, entries: seq<Entry<Key, Data>>)

  function CachedStep<Db, Key(==), Data>(g: Engine<Db, Key, Data>, l: Limits, c: Client<Db, Key, Data>, r: Request<Key>)
    : (Client<Db, Key, Data>, Reply<Data>)
    requires l.Valid()
  {
    match r
    case Execute(key) =>
      if !g.permits(key, false) then (c, Raised) else
      (match g.write(c.db, key)
       case None => (c, Raised)
       case Some(after) => (Client(after, []), Done))
    case Query(key, now, later) =>
      if !g.permits(key, true) then (c, Raised) else
      var entries := if g.cacheable(key) then GetEntries(l, c.entries, now, key) else c.entries;
      var hit := if g.cacheable(key) then GetValue(l, c.entries, now, key) else None;
      if hit.Some? then (Client(c.db, entries), Rows(hit.value)) else
      match g.read(c.db, key)
      case None => (Client(c.db, entries), Raised)
      case Some(data) =>
        (Client(c.db, if g.cacheable(key) then SetEntries(l, entries, later, key, data, None) else entries), Rows(data))
  }

  function CachedRun<Db, Key(==), Data>(
      g: Engine<Db, Key, Data>, l: Limits, c: Client<Db, Key, Data>, rs: seq<Request<Key>>): seq<Reply<Data>>
    requires l.Valid()
    decreases |rs|
  {
    if rs == [] then [] else
    var (after, reply) := CachedStep(g, l, c, rs[0]);
    [reply] + CachedRun(g, l, after, rs[1..])
  }

  /** Every cached frame is what the database would answer now. */
  ghost predicate Coherent<Db, Key, Data>(g: Engine<Db, Key, Data>, c: Client<Db, Key, Data>) {
    forall e <- c.entries :: g.read(c.db, e.key) == Some(e.value)
  }

  lemma GetKeepsEntries<K, V>(l: Limits, s: seq<Entry<K, V>>, now: real, key: K)
    ensures forall e <- GetEntries(l, s, now, key) :: e in s
    ensures GetValue(l, s, now, key).Some? ==>
      exists e <- s :: e.key == key && e.value == GetValue(l, s, now, key).value && e.expiresAt > now
  {
    FilterIn(s, IsLive(now));
    FilterIn(Live(s, now), NotKey(key));
  }

  lemma SetAddsOne<K, V>(l: Limits, s: seq<Entry<K, V>>, now: real, key: K, value: V, ttl: Option<int>)
    requires l.Valid()
    ensures forall e <- SetEntries(l, s, now, key, value, ttl) :: e in s || (e.key == key && e.value == value)
  {
    FilterIn(s, IsLive(now));
    FilterIn(Live(s, now), NotKey(key));
  }

  lemma StepTransparent<Db, Key, Data>(g: Engine<Db, Key, Data>, l: Limits, c: Client<Db, Key, Data>, r: Request<Key>)
    requires l.Valid() && Coherent(g, c)
    ensures
      var (after, reply) := CachedStep(g, l, c, r);
      && reply == UncachedReply(g, c.db, r)
      && after.db == UncachedDb(g, c.db, r)
      && Coherent(g, after)
  {
    if r.Query? && g.cacheable(r.key) {
      GetKeepsEntries(l, c.entries, r.now, r.key);
      var entries := GetEntries(l, c.entries, r.now, r.key);
      if g.read(c.db, r.key).Some? {
        SetAddsOne(l, entries, r.later, r.key, g.read(c.db, r.key).value, None);
      }
    }
  }

  /** Query-cache transparency: any run answers exactly as the uncached client would. */
  lemma {:induction false} RunTransparent<Db, Key, Data>(
      g: Engine<Db, Key, Data>, l: Limits, c: Client<Db, Key, Data>, rs: seq<Request<Key>>)
    requires l.Valid() && Coherent(g, c)
    ensures CachedRun(g, l, c, rs) == UncachedRun(g, c.db, rs)
    decreases |rs|
  {
    if rs != [] {
      StepTransparent(g, l, c, rs[0]);
      RunTransparent(g, l, CachedStep(g, l, c, rs[0]).0, rs[1..]);
    }
  }

  /** A run from a fresh client, whose cache is empty, is transparent whatever the database. */
  lemma FreshClientTransparent<Db, Key, Data>(g: Engine<Db, Key, Data>, l: Limits, db: Db, rs: seq<Request<Key>>)
    requires l.Valid()
    ensures CachedRun(g, l, Client(db, []), rs) == UncachedRun(g, db, rs)
  {
    RunTransparent(g, l, Client(db, []), rs);
  }

  // ----- The client object, with frames on the heap -----

  /** A result frame: an object its holder may change. */
  class Frame<Data> {
    var rows: Data

    constructor (rows: Data)
      ensures this.rows == rows
    {
      this.rows := rows;
    }
  }

  class QueryClient<!Db, !Key(==), !Data> {
    const engine: Engine<Db, Key, Data>
    const cache: LruTtlCache<Key, Frame<Data>>
    var db: Db
    /** What the cache holds: each frame with its rows. */
    ghost var held: seq<Entry<Key, (Frame<Data>, Data)>>
    ghost var handedOut: set<Frame<Data>>

    ghost function CachedFrames(): set<Frame<Data>>
      reads this
    {
      set i | 0 <= i < |held| :: held[i].value.0
    }

    /** The client on values that this object stands for. */
    ghost function View(): Client<Db, Key, Data>
      reads this
    {
      Client(db, SecondOf(held))
    }

    /** The cached frames have the rows of the client on values, and no caller holds one of them. */
    ghost predicate Valid()
      reads this, cache, CachedFrames()
    {
      && cache.Valid()
      && cache.entries == FirstOf(held)
      && (forall i :: 0 <= i < |held| ==> held[i].value.0.rows == held[i].value.1)
      && CachedFrames() !! handedOut
      && Coherent(engine, View())
    }

    constructor (engine: Engine<Db, Key, Data>, db: Db, enabled: bool, ttlSeconds: int, maxEntries: int)
      ensures Valid() && this.engine == engine && this.db == db && handedOut == {} && fresh(cache)
      ensures View() == Client(db, []) && cache.limits == Clamp(enabled, ttlSeconds, maxEntries)
    {
      this.engine := engine;
      this.cache := new LruTtlCache<Key, Frame<Data>>(enabled, ttlSeconds, maxEntries);
      this.db := db;
      this.held := [];
      this.handedOut := {};
    }

    /** `_cache_get`: a hit is a copy made for the caller. */
    method CacheGet(key: Key, now: real) returns (copy: Option<Frame<Data>>)
      requires Valid()
      modifies this`handedOut, this`held, cache
      ensures Valid() && CachedFrames() <= old(CachedFrames())
      ensures View() == Client(db, GetEntries(cache.limits, old(View()).entries, now, key))
      ensures match GetValue(cache.limits, old(View()).entries, now, key) {
        case None => copy.None? && handedOut == old(handedOut)
        case Some(data) =>
          && copy.Some? && fresh(copy.value) && copy.value.rows == data
          && handedOut == old(handedOut) + {copy.value}
      }
    {
      hide GetEntries, GetValue, FirstOf, SecondOf;
      GetKeepsEntries(cache.limits, held, now, key);
      GetKeepsEntries(cache.limits, View().entries, now, key);
      GetBoth(cache.limits, held, now, key);
      ghost var before := held;
      var cached := cache.Get(key, now);
      held := GetEntries(cache.limits, held, now, key);
      assert forall i :: 0 <= i < |held| ==> held[i] in before;
      if cached.None? {
        return None;
      }
      var mine := new Frame(cached.value.rows);
      handedOut := handedOut + {mine};
      copy := Some(mine);
    }

    /** `_cache_put`: the cache keeps its own copy of the frame. */
    method CachePut(key: Key, frame: Frame<Data>, later: real)
      requires Valid() && engine.read(db, key) == Some(frame.rows)
      modifies this`held, cache
      ensures Valid() && fresh(CachedFrames() - old(CachedFrames()))
      ensures View() == Client(db, SetEntries(cache.limits, old(View()).entries, later, key, frame.rows, None))
    {
      hide SetEntries, FirstOf, SecondOf;
      var kept := new Frame(frame.rows);
      ghost var both := (kept, frame.rows);
      SetAddsOne(cache.limits, held, later, key, both, None);
      SetAddsOne(cache.limits, View().entries, later, key, frame.rows, None);
      SetBoth(cache.limits, held, later, key, both, None);
      ghost var before := held;
      cache.Set(key, kept, later, None);
      held := SetEntries(cache.limits, held, later, key, both, None);
      assert forall i :: 0 <= i < |held| ==> held[i] in before || (held[i].key == key && held[i].value == both);
    }

    /** `query`: None stands for a raised error. The returned frame is the caller's own. */
    method Query(key: Key, now: real, later: real) returns (frame: Option<Frame<Data>>)
      requires Valid()
      modifies this`handedOut, this`held, cache
      ensures Valid() && db == old(db)
      ensures var (after, reply) := CachedStep(engine, cache.limits, old(View()), Request.Query(key, now, later));
        && View() == after
        && match reply {
             case Rows(data) =>
               && frame.Some? && fresh(frame.value) && frame.value.rows == data
               && handedOut == old(handedOut) + {frame.value}
             case _ => frame.None? && handedOut == old(handedOut)
           }
      ensures CachedStep(engine, cache.limits, old(View()), Request.Query(key, now, later)).1
        == UncachedReply(engine, old(db), Request.Query(key, now, later))
      ensures fresh(CachedFrames() - old(CachedFrames()))
    {
      StepTransparent(engine, cache.limits, View(), Request.Query(key, now, later));
      hide GetEntries, GetValue, SetEntries, SecondOf, Coherent;
      if !engine.permits(key, true) {
        return None;
      }
      var useCache := engine.cacheable(key);
      if useCache {
        frame := CacheGet(key, now);
        if frame.Some? {
          return;
        }
      }
      var result := engine.read(db, key);
      if result.None? {
        return None;
      }
      var answer := new Frame(result.value);
      if useCache {
        CachePut(key, answer, later);
      }
      handedOut := handedOut + {answer};
      frame := Some(answer);
    }

    /** `execute`: a successful write empties the cache; a failed one changes nothing. */
    method Execute(key: Key) returns (ok: bool)
      requires Valid()
      modifies this`db, this`held, cache
      ensures Valid()
      ensures ok == UncachedReply(engine, old(db), Request.Execute(key)).Done?
      ensures View() == CachedStep(engine, cache.limits, old(View()), Request.Execute(key)).0
      ensures db == UncachedDb(engine, old(db), Request.Execute(key))
      ensures cache.entries == if ok then [] else old(cache.entries)
    {
      if !engine.permits(key, false) {
        return false;
      }
      var after := engine.write(db, key);
      if after.None? {
        return false;
      }
      db := after.value;
      cache.Clear();
      held := [];
      ok := true;
    }

    /** A caller changes a frame it was handed; the client is not affected. */
    method CallerMutates(frame: Frame<Data>, rows: Data)
      requires Valid() && frame in handedOut
      modifies frame
      ensures Valid() && frame.rows == rows && View() == old(View())
    {
      frame.rows := rows;
    }
  }
}
