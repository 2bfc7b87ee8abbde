/**
 The query cache when others write to the database too: exactly which answers are still right, and
 how old a wrong one can be. An outside write falls between two calls of the client.
*/
module QueryStaleness {
  import opened Common
  import opened LruCache
  import LruRecency
  import LruTheorems
  import opened QueryCache

  datatype Event<Db, Key> =
    | Ask(key: Key, now: real, later: real)
    | Write(key: Key)
    | Outside(db: Db, at: real)

  // ----- Runs with outside writes -----

  function ClientNext<Db, Key(==), Data>(
      g: Engine<Db, Key, Data>, l: Limits, c: Client<Db, Key, Data>, e: Event<Db, Key>)
    : Client<Db, Key, Data>
    requires l.Valid()
  {
    match e
    case Ask(key, now, later) => CachedStep(g, l, c, Query(key, now, later)).0
    case Write(key) => CachedStep(g, l, c, Execute(key)).0
    case Outside(db, _) => Client(db, c.entries)
  }

  function ClientAfter<Db, Key(==), Data>(
      g: Engine<Db, Key, Data>, l: Limits, c: Client<Db, Key, Data>, events: seq<Event<Db, Key>>): Client<Db, Key, Data>
    requires l.Valid()
    decreases |events|
  {
    if events == [] then c else ClientAfter(g, l, ClientNext(g, l, c, events[0]), events[1..])
  }

  /** The answers to the queries of a run. */
  function CachedAnswers<Db, Key(==), Data>(
      g: Engine<Db, Key, Data>, l: Limits, c: Client<Db, Key, Data>, events: seq<Event<Db, Key>>): seq<Reply<Data>>
    requires l.Valid()
    decreases |events|
  {
    if events == [] then [] else
    (if events[0].Ask? then [CachedStep(g, l, c, Query(events[0].key, events[0].now, events[0].later)).1] else [])
    + CachedAnswers(g, l, ClientNext(g, l, c, events[0]), events[1..])
  }

  function DbNext<Db, Key, Data>(g: Engine<Db, Key, Data>, db: Db, e: Event<Db, Key>): Db {
    match e
    case Ask(_, _, _) => db
    case Write(key) => UncachedDb(g, db, Execute(key))
    case Outside(next, _) => next
  }

  function UncachedAnswers<Db, Key, Data>(g: Engine<Db, Key, Data>, db: Db, events: seq<Event<Db, Key>>)
    : seq<Reply<Data>>
    decreases |events|
  {
    if events == [] then [] else
    (if events[0].Ask? then [UncachedReply(g, db, Query(events[0].key, events[0].now, events[0].later))] else [])
    + UncachedAnswers(g, DbNext(g, db, events[0]), events[1..])
  }

  /** The cache does not change what is written. */
  lemma NextDb<Db, Key, Data>(g: Engine<Db, Key, Data>, l: Limits, c: Client<Db, Key, Data>, e: Event<Db, Key>)
    requires l.Valid()
    ensures ClientNext(g, l, c, e).db == DbNext(g, c.db, e)
  {
  }

  lemma NextWellKept<Db, Key, Data>(g: Engine<Db, Key, Data>, l: Limits, c: Client<Db, Key, Data>, e: Event<Db, Key>)
    requires l.Valid() && LruTheorems.WellKept(l, c.entries)
    ensures LruTheorems.WellKept(l, ClientNext(g, l, c, e).entries)
  {
    if e.Ask? {
      LruTheorems.StepWellKept(l, c.entries, LruTheorems.Get(e.key, e.now));
      var entries := GetEntries(l, c.entries, e.now, e.key);
      if g.read(c.db, e.key).Some? {
        LruTheorems.StepWellKept(l, entries, LruTheorems.Set(e.key, g.read(c.db, e.key).value, e.later, None));
      }
    }
  }

  // ----- Exactly which answers are right -----

  predicate Off(l: Limits) { !l.enabled || l.ttl <= 0 }

  /** No unexpired frame cached for the statement differs from what the database would answer now. */
  ghost predicate LiveFrameIsCurrent<Db, Key, Data>(
      g: Engine<Db, Key, Data>, c: Client<Db, Key, Data>, key: Key, now: real)
  {
    forall e <- c.entries :: e.key == key && e.expiresAt > now ==> g.read(c.db, key) == Some(e.value)
  }

  ghost predicate AnswersRight<Db, Key, Data>(
      g: Engine<Db, Key, Data>, l: Limits, c: Client<Db, Key, Data>, key: Key, now: real)
  {
    !g.permits(key, true) || !g.cacheable(key) || Off(l) || LiveFrameIsCurrent(g, c, key, now)
  }

  /**
   A query answers as the uncached client would exactly when it is refused, or does not use the
   cache, or the cache is off, or no live frame for it is out of date.
  */
  lemma QueryRightIff<Db, Key, Data>(
      g: Engine<Db, Key, Data>, l: Limits, c: Client<Db, Key, Data>, key: Key, now: real, later: real)
    requires l.Valid() && LruTheorems.WellKept(l, c.entries)
    ensures CachedStep(g, l, c, Query(key, now, later)).1 == UncachedReply(g, c.db, Query(key, now, later))
      <==> AnswersRight(g, l, c, key, now)
  {
    if g.permits(key, true) && g.cacheable(key) && !Off(l) {
      HitIff(l, c.entries, key, now);
    }
  }

  /** A hit returns the one live entry of the key. */
  lemma HitIff<K, V>(l: Limits, s: seq<Entry<K, V>>, key: K, now: real)
    requires DistinctKeys(s) && !Off(l)
    ensures forall e <- s :: e.key == key && e.expiresAt > now ==> GetValue(l, s, now, key) == Some(e.value)
    ensures GetValue(l, s, now, key).Some? ==>
      exists e <- s :: e.key == key && e.expiresAt > now && e.value == GetValue(l, s, now, key).value
  {
    FilterIn(s, IsLive(now));
    FilterKeepsDistinct(s, IsLive(now));
    GetKeepsEntries(l, s, now, key);
    forall e <- s | e.key == key && e.expiresAt > now ensures GetValue(l, s, now, key) == Some(e.value) {
      LruTheorems.LookupFinds(Live(s, now), e);
    }
  }

  ghost predicate AllRight<Db, Key, Data>(
      g: Engine<Db, Key, Data>, l: Limits, c: Client<Db, Key, Data>, events: seq<Event<Db, Key>>)
    requires l.Valid()
    decreases |events|
  {
    events == [] ||
    ((events[0].Ask? ==> AnswersRight(g, l, c, events[0].key, events[0].now))
     && AllRight(g, l, ClientNext(g, l, c, events[0]), events[1..]))
  }

  /** A run with outside writes is transparent exactly when each of its queries meets that condition. */
  lemma {:induction false} RunRightIff<Db, Key, Data>(
      g: Engine<Db, Key, Data>, l: Limits, c: Client<Db, Key, Data>, events: seq<Event<Db, Key>>)
    requires l.Valid() && LruTheorems.WellKept(l, c.entries)
    ensures CachedAnswers(g, l, c, events) == UncachedAnswers(g, c.db, events) <==> AllRight(g, l, c, events)
    decreases |events|
  {
    hide CachedStep, UncachedReply, AnswersRight, LruTheorems.WellKept;
    if events != [] {
      var e, next := events[0], ClientNext(g, l, c, events[0]);
      NextDb(g, l, c, e);
      NextWellKept(g, l, c, e);
      RunRightIff(g, l, next, events[1..]);
      if e.Ask? {
        QueryRightIff(g, l, c, e.key, e.now, e.later);
        SameFirst(CachedStep(g, l, c, Query(e.key, e.now, e.later)).1, CachedAnswers(g, l, next, events[1..]),
                  UncachedReply(g, c.db, Query(e.key, e.now, e.later)), UncachedAnswers(g, next.db, events[1..]));
      } else {
        assert [] + CachedAnswers(g, l, next, events[1..]) == CachedAnswers(g, l, next, events[1..]);
      }
    }
  }

  lemma SameFirst<T>(a: T, s: seq<T>, b: T, t: seq<T>)
    ensures [a] + s == [b] + t <==> a == b && s == t
  {
    if [a] + s == [b] + t {
      assert ([a] + s)[0] == a && ([a] + s)[1..] == s;
      assert ([b] + t)[0] == b && ([b] + t)[1..] == t;
    }
  }

  // ----- How old a wrong answer can be -----

  /** A state the database was in at a time. */
  datatype Moment<Db> = Moment(at: real, db: Db)

  /** The states the database was in when it was asked, and when others wrote. */
  function Moments<Db, Key, Data>(g: Engine<Db, Key, Data>, db: Db, events: seq<Event<Db, Key>>): seq<Moment<Db>>
    decreases |events|
  {
    if events == [] then [] else
    (match events[0]
     case Ask(_, now, later) => [Moment(now, db), Moment(later, db)]
     case Write(_) => []
     case Outside(next, at) => [Moment(at, next)])
    + Moments(g, DbNext(g, db, events[0]), events[1..])
  }

  /** The clock does not go backwards. */
  predicate Timed<Db, Key>(clock: real, events: seq<Event<Db, Key>>)
    decreases |events|
  {
    events == [] ||
    match events[0]
    case Ask(_, now, later) => clock <= now <= later && Timed(later, events[1..])
    case Write(_) => Timed(clock, events[1..])
    case Outside(_, at) => clock <= at && Timed(at, events[1..])
  }

  function ClockNext<Db, Key>(clock: real, e: Event<Db, Key>): real {
    match e case Ask(_, _, later) => later case Write(_) => clock case Outside(_, at) => at
  }

  /** When an entry was stored: its expiry less the lifetime. */
  function StoredAt<K, V>(l: Limits, e: Entry<K, V>): real {
    e.expiresAt - l.ttl as real
  }

  /** The entry is what the database answered at the moment it was stored. */
  ghost predicate Witnessed<Db, Key, Data>(
      g: Engine<Db, Key, Data>, l: Limits, past: seq<Moment<Db>>, e: Entry<Key, Data>)
  {
    exists m <- past :: m.at == StoredAt(l, e) && g.read(m.db, e.key) == Some(e.value)
  }

  /** Every entry was true when stored; those stored after `quiet` are true now. */
  ghost predicate Dated<Db, Key, Data>(
      g: Engine<Db, Key, Data>, l: Limits, c: Client<Db, Key, Data>, past: seq<Moment<Db>>, quiet: real, clock: real)
  {
    forall e <- c.entries ::
      && Witnessed(g, l, past, e)
      && StoredAt(l, e) <= clock
      && (StoredAt(l, e) > quiet ==> g.read(c.db, e.key) == Some(e.value))
  }

  lemma WitnessedMore<Db, Key, Data>(
      g: Engine<Db, Key, Data>, l: Limits, past: seq<Moment<Db>>, more: seq<Moment<Db>>, e: Entry<Key, Data>)
    requires Witnessed(g, l, past, e)
    ensures Witnessed(g, l, past + more, e)
  {
    var m :| m in past && m.at == StoredAt(l, e) && g.read(m.db, e.key) == Some(e.value);
    assert m in past + more;
  }

  /** An entry held after a query was held before, or is the answer just stored. */
  lemma AskSource<Db, Key, Data>(
      g: Engine<Db, Key, Data>, l: Limits, c: Client<Db, Key, Data>,
      key: Key, now: real, later: real, e: Entry<Key, Data>)
    requires l.Valid() && e in CachedStep(g, l, c, Query(key, now, later)).0.entries
    ensures e in c.entries || (e.key == key && StoredAt(l, e) == later && g.read(c.db, key) == Some(e.value))
  {
    GetKeepsEntries(l, c.entries, now, key);
    var entries := GetEntries(l, c.entries, now, key);
    if g.permits(key, true) && g.cacheable(key) && g.read(c.db, key).Some? {
      var op := LruTheorems.Set(key, g.read(c.db, key).value, later, None);
      if e in SetEntries(l, entries, later, key, g.read(c.db, key).value, None) {
        LruTheorems.StepSource(l, entries, op, e);
      }
    }
  }

  lemma AskDated<Db, Key, Data>(
      g: Engine<Db, Key, Data>, l: Limits, c: Client<Db, Key, Data>, past: seq<Moment<Db>>, quiet: real, clock: real,
      key: Key, now: real, later: real)
    requires l.Valid() && Dated(g, l, c, past, quiet, clock) && clock <= now <= later
    ensures Dated(g, l, CachedStep(g, l, c, Query(key, now, later)).0,
                  past + [Moment(now, c.db), Moment(later, c.db)], quiet, later)
  {
    var more := [Moment(now, c.db), Moment(later, c.db)];
    var after := CachedStep(g, l, c, Query(key, now, later)).0;
    assert after.db == c.db;
    forall e <- after.entries
      ensures Witnessed(g, l, past + more, e) && StoredAt(l, e) <= later
      ensures StoredAt(l, e) > quiet ==> g.read(c.db, e.key) == Some(e.value)
    {
      AskSource(g, l, c, key, now, later, e);
      if e in c.entries {
        WitnessedMore(g, l, past, more, e);
      } else {
        assert more[1] in past + more;
      }
    }
  }

  lemma NextDated<Db, Key, Data>(
      g: Engine<Db, Key, Data>, l: Limits, c: Client<Db, Key, Data>, past: seq<Moment<Db>>, quiet: real, clock: real,
      e: Event<Db, Key>)
    requires l.Valid() && Dated(g, l, c, past, quiet, clock) && Timed(clock, [e])
    requires e.Outside? ==> e.at <= quiet
    ensures Dated(g, l, ClientNext(g, l, c, e), past + Moments(g, c.db, [e]), quiet, ClockNext(clock, e))
  {
    match e
    case Ask(key, now, later) =>
      AskDated(g, l, c, past, quiet, clock, key, now, later);
      assert Moments(g, c.db, [e]) == [Moment(now, c.db), Moment(later, c.db)];
    case Write(_) =>
      assert Moments(g, c.db, [e]) == [] && past + [] == past;
    case Outside(_, _) =>
      forall x <- c.entries ensures Witnessed(g, l, past + Moments(g, c.db, [e]), x) {
        WitnessedMore(g, l, past, Moments(g, c.db, [e]), x);
      }
  }

  function EndClock<Db, Key>(clock: real, events: seq<Event<Db, Key>>): real
    decreases |events|
  {
    if events == [] then clock else EndClock(ClockNext(clock, events[0]), events[1..])
  }

  function DbAfter<Db, Key, Data>(g: Engine<Db, Key, Data>, db: Db, events: seq<Event<Db, Key>>): Db
    decreases |events|
  {
    if events == [] then db else DbAfter(g, DbNext(g, db, events[0]), events[1..])
  }

  predicate OutsideBy<Db, Key>(events: seq<Event<Db, Key>>, quiet: real) {
    forall i :: 0 <= i < |events| && events[i].Outside? ==> events[i].at <= quiet
  }

  lemma MomentsSplit<Db, Key, Data>(g: Engine<Db, Key, Data>, db: Db, events: seq<Event<Db, Key>>)
    requires events != []
    ensures Moments(g, db, events) == Moments(g, db, [events[0]]) + Moments(g, DbNext(g, db, events[0]), events[1..])
  {
    assert [events[0]][1..] == [];
  }

  lemma {:induction false} RunDated<Db, Key, Data>(
      g: Engine<Db, Key, Data>, l: Limits, c: Client<Db, Key, Data>, past: seq<Moment<Db>>, quiet: real, clock: real,
      events: seq<Event<Db, Key>>, later: real)
    requires l.Valid() && Dated(g, l, c, past, quiet, clock)
    requires Timed(clock, events) && OutsideBy(events, quiet) && EndClock(clock, events) <= later
    ensures Dated(g, l, ClientAfter(g, l, c, events), past + Moments(g, c.db, events), quiet, later)
    ensures ClientAfter(g, l, c, events).db == DbAfter(g, c.db, events)
    decreases |events|
  {
    hide ClientNext, DbNext, Dated;
    if events == [] {
      assert past + [] == past;
      DatedLater(g, l, c, past, quiet, clock, later);
    } else {
      NextDated(g, l, c, past, quiet, clock, events[0]);
      NextDb(g, l, c, events[0]);
      MomentsSplit(g, c.db, events);
      var first, rest := Moments(g, c.db, [events[0]]), Moments(g, DbNext(g, c.db, events[0]), events[1..]);
      var next := ClientNext(g, l, c, events[0]);
      RunDated(g, l, next, past + first, quiet, ClockNext(clock, events[0]), events[1..], later);
      assert past + first + rest == past + (first + rest);
    }
  }

  lemma DatedLater<Db, Key, Data>(
      g: Engine<Db, Key, Data>, l: Limits, c: Client<Db, Key, Data>, past: seq<Moment<Db>>,
      quiet: real, clock: real, later: real)
    requires Dated(g, l, c, past, quiet, clock) && clock <= later
    ensures Dated(g, l, c, past, quiet, later)
  {
  }

  /**
   Bounded staleness: after any run with outside writes from a new client, a query answers as the
   uncached client would have at some moment less than the lifetime ago, or now.
  */
  lemma AnswersAreRecent<Db, Key, Data>(
      g: Engine<Db, Key, Data>, l: Limits, db: Db, clock: real, events: seq<Event<Db, Key>>,
      key: Key, now: real, later: real)
    requires l.Valid() && Timed(clock, events) && EndClock(clock, events) <= now
    ensures
      var q: Request<Key> := Query(key, now, later);
      var answer := CachedStep(g, l, ClientAfter(g, l, Client(db, []), events), q).1;
      || answer == UncachedReply(g, DbAfter(g, db, events), q)
      || exists m <- Moments(g, db, events) :: now - l.ttl as real < m.at <= now && answer == UncachedReply(g, m.db, q)
  {
    var quiet := LastOutside(events, now);
    var c := ClientAfter(g, l, Client(db, []), events);
    RunDated(g, l, Client(db, []), [], quiet, clock, events, now);
    assert [] + Moments(g, db, events) == Moments(g, db, events);
    var hit := GetValue(l, c.entries, now, key);
    if g.permits(key, true) && g.cacheable(key) && hit.Some? {
      GetKeepsEntries(l, c.entries, now, key);
      var e :| e in c.entries && e.key == key && e.value == hit.value && e.expiresAt > now;
      var m :| m in Moments(g, db, events) && m.at == StoredAt(l, e) && g.read(m.db, e.key) == Some(e.value);
    }
  }

  /** A time by which all outside writes have happened. */
  lemma {:induction false} LastOutside<Db, Key>(events: seq<Event<Db, Key>>, start: real) returns (quiet: real)
    ensures quiet >= start && OutsideBy(events, quiet)
  {
    quiet := start;
    for i := 0 to |events|
      invariant quiet >= start && forall j :: 0 <= j < i && events[j].Outside? ==> events[j].at <= quiet
    {
      if events[i].Outside? && events[i].at > quiet {
        quiet := events[i].at;
      }
    }
  }

  /** So once the last outside write is a lifetime ago, every query answers as uncached. */
  lemma QuietQueriesAreRight<Db, Key, Data>(
      g: Engine<Db, Key, Data>, l: Limits, db: Db, clock: real, events: seq<Event<Db, Key>>,
      key: Key, now: real, later: real)
    requires l.Valid() && Timed(clock, events) && EndClock(clock, events) <= now
    requires OutsideBy(events, now - l.ttl as real)
    ensures
      var q: Request<Key> := Query(key, now, later);
      CachedStep(g, l, ClientAfter(g, l, Client(db, []), events), q).1 == UncachedReply(g, DbAfter(g, db, events), q)
  {
    var c := ClientAfter(g, l, Client(db, []), events);
    RunDated(g, l, Client(db, []), [], now - l.ttl as real, clock, events, now);
    if g.permits(key, true) && g.cacheable(key) && GetValue(l, c.entries, now, key).Some? {
      GetKeepsEntries(l, c.entries, now, key);
    }
  }

  /**
   The bound is reached: whatever the engine, a statement whose answer somebody else changes is
   still answered the old way at every moment of the lifetime of the cached frame.
  */
  lemma OutsideWriteIsMissed<Db, Key, Data>(
      g: Engine<Db, Key, Data>, l: Limits, before: Db, after: Db, key: Key, asked: real, written: real, now: real)
    requires l.Valid() && !Off(l) && g.permits(key, true) && g.cacheable(key)
    requires g.read(before, key).Some? && g.read(after, key) != g.read(before, key)
    requires asked <= written <= now < asked + l.ttl as real
    ensures
      var events := [Ask(key, asked, asked), Outside(after, written)];
      var q: Request<Key> := Query(key, now, now);
      && Timed(asked, events)
      && CachedStep(g, l, ClientAfter(g, l, Client(before, []), events), q).1 == UncachedReply(g, before, q)
      && CachedStep(g, l, ClientAfter(g, l, Client(before, []), events), q).1 != UncachedReply(g, after, q)
  {
    var events := [Ask(key, asked, asked), Outside(after, written)];
    var none: seq<Entry<Key, Data>> := [];
    var e := Entry(key, asked + l.ttl as real, g.read(before, key).value);
    assert Live(none, asked) == none && Without(none, key) == none;
    assert ClientNext(g, l, Client(before, none), events[0]) == Client(before, [e]);
    assert events[1..] == [Outside(after, written)] && events[1..][1..] == [];
    assert ClientAfter(g, l, Client(before, [e]), events[1..])
      == ClientAfter(g, l, Client(after, [e]), events[1..][1..]);
    assert ClientAfter(g, l, Client(before, none), events) == Client(after, [e]);
    assert Live([e], now) == [e];
  }

  /** An answer that had to be read is kept: for its lifetime it is given again, whatever the database has become. */
  lemma AnswerIsKept<Db, Key, Data>(
      g: Engine<Db, Key, Data>, l: Limits, c: Client<Db, Key, Data>, key: Key, asked: real, later: real,
      other: Db, now: real)
    requires l.Valid() && !Off(l) && g.permits(key, true) && g.cacheable(key)
    requires LruTheorems.WellKept(l, c.entries)
    requires GetValue(l, c.entries, asked, key) == None && g.read(c.db, key).Some?
    requires later <= now < later + l.ttl as real
    ensures var (after, reply) := CachedStep(g, l, c, Query(key, asked, later));
      && reply == Rows(g.read(c.db, key).value)
      && CachedStep(g, l, after.(db := other), Query(key, now, now)).1 == reply
  {
    hide GetEntries, GetValue, SetEntries;
    var data := g.read(c.db, key).value;
    var entries := GetEntries(l, c.entries, asked, key);
    LruTheorems.StepWellKept(l, c.entries, LruTheorems.Get(key, asked));
    LruTheorems.StepWellKept(l, entries, LruTheorems.Set(key, data, later, None));
    LruRecency.SetStoresLast(l, entries, later, key, data, None);
    LruRecency.HitMovesLast(
      l, SetEntries(l, entries, later, key, data, None), now, Entry(key, later + l.ttl as real, data));
  }
}
