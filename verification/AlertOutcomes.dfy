/**
 When an alert is active and when a breach is counted, in terms of the requests themselves: those of
 the last window decide the state, and a lasting breach is counted again after every cooldown.
*/
module AlertOutcomes {
  import opened Common
  import opened Alerts

  /** The requests of the last window, at the time of the last one. */
  function RecentOnes(cfg: Config, samples: seq<Sample>): seq<Sample>
    requires samples != []
  {
    var now := samples[|samples| - 1].ts;
    Filter(samples, (s: Sample) => now - s.ts <= cfg.windowSec as real)
  }

  function Slower(limit: real): Sample -> bool { (s: Sample) => s.requestMs > limit }

  function Failed(): Sample -> bool { (s: Sample) => s.isError }

  function DatabaseTime(s: seq<Sample>): real {
    if s == [] then 0.0 else DatabaseTime(s[..|s| - 1]) + s[|s| - 1].dbMs
  }

  /**
   The measure is over its limit: more than a twentieth of the requests are slower than it; or the
   share of failed ones, in percent, is above it; or the mean database time is.
  */
  predicate OverLimit(cfg: Config, recent: seq<Sample>, name: Name) {
    var n := |recent|;
    match name
    case RequestP95 => 20 * |Filter(recent, Slower(cfg.p95Limit))| > n
    case ErrorRate => |Filter(recent, Failed())| as real * 100.0 > cfg.errorLimit * n as real
    case DbAverage => DatabaseTime(recent) > cfg.dbLimit * n as real
  }

  // ----- The measures -----

  lemma {:induction false} ErrorsAre(s: seq<Sample>)
    ensures Errors(s) == |Filter(s, Failed())|
  {
    if s != [] {
      ErrorsAre(s[1..]);
    }
  }

  lemma {:induction false} DbTotalLast(s: seq<Sample>, x: Sample)
    ensures DbTotal(s + [x]) == DbTotal(s) + x.dbMs
  {
    if s == [] {
      assert [] + [x] == [x] && [x][1..] == [];
    } else {
      assert (s + [x])[1..] == s[1..] + [x];
      DbTotalLast(s[1..], x);
    }
  }

  lemma {:induction false} DbTotalIs(s: seq<Sample>)
    ensures DbTotal(s) == DatabaseTime(s)
  {
    if s != [] {
      var n := |s| - 1;
      assert s == s[..n] + [s[n]];
      DbTotalIs(s[..n]);
      DbTotalLast(s[..n], s[n]);
    }
  }

  /** A quotient by a count exceeds a limit exactly when the dividend exceeds the limit that many times. */
  lemma QuotientOver(x: real, n: real, limit: real)
    requires n > 0.0
    ensures x / n > limit <==> x > limit * n
  {
    var q := x / n;
    assert q * n == x;
    if q > limit {
      assert (q - limit) * n > 0.0;
      assert (q - limit) * n == q * n - limit * n;
    } else {
      assert (limit - q) * n >= 0.0;
      assert (limit - q) * n == limit * n - q * n;
    }
  }

  lemma {:induction false} Complement<T>(s: seq<T>, p: T -> bool, q: T -> bool)
    requires forall x :: p(x) <==> !q(x)
    ensures |Filter(s, p)| + |Filter(s, q)| == |s|
  {
    if s != [] {
      Complement(s[1..], p, q);
    }
  }

  lemma {:induction false} Fewer<T>(s: seq<T>, p: T -> bool, q: T -> bool)
    requires forall x :: p(x) ==> q(x)
    ensures |Filter(s, p)| <= |Filter(s, q)|
  {
    if s != [] {
      Fewer(s[1..], p, q);
    }
  }

  /** The p95 is over a limit exactly when more than a twentieth of the values are. */
  lemma P95Over(xs: seq<real>, limit: real)
    requires xs != []
    ensures P95(xs) > limit <==> 20 * |Filter(xs, (x: real) => x > limit)| > |xs|
  {
    hide P95;
    P95IsNearestRank(xs);
    Complement(xs, (x: real) => x > limit, AtMost(limit));
    if P95(xs) > limit {
      Fewer(xs, AtMost(limit), Below(P95(xs)));
    } else {
      Fewer(xs, AtMost(P95(xs)), AtMost(limit));
    }
  }

  lemma {:induction false} SlowerAre(s: seq<Sample>, limit: real)
    ensures |Filter(Times(s), (x: real) => x > limit)| == |Filter(s, Slower(limit))|
  {
    if s != [] {
      SlowerAre(s[1..], limit);
      assert Times(s)[1..] == Times(s[1..]);
    }
  }

  lemma BreachedIs(cfg: Config, window: seq<Sample>, name: Name)
    requires cfg.Valid()
    ensures Breached(cfg, window, name) <==>
      |window| >= cfg.minRequests && cfg.Limit(name) > 0.0 && OverLimit(cfg, window, name)
  {
    hide P95, Errors, DbTotal, DatabaseTime, Filter;
    if |window| >= cfg.minRequests {
      match name
      case RequestP95 =>
        P95Over(Times(window), cfg.p95Limit);
        SlowerAre(window, cfg.p95Limit);
      case ErrorRate =>
        ErrorsAre(window);
        QuotientOver(Errors(window) as real * 100.0, |window| as real, cfg.errorLimit);
      case DbAverage =>
        DbTotalIs(window);
        QuotientOver(DbTotal(window), |window| as real, cfg.dbLimit);
    }
  }

  /**
   After each request an alert is active exactly when enough requests came in the last window and
   its measure over them is over a positive limit.
  */
  lemma ActiveIff(cfg: Config, samples: seq<Sample>, name: Name)
    requires cfg.Valid() && samples != [] && ClockAdvances(samples)
    ensures var r, recent := RecordAfter(cfg, samples, name), RecentOnes(cfg, samples);
      && (r.active <==> |recent| >= cfg.minRequests && cfg.Limit(name) > 0.0 && OverLimit(cfg, recent, name))
      && r.gauge == if r.active then 1 else 0
  {
    hide OverLimit, Breached, RecordAfter, WindowAfter;
    WindowIsExact(cfg, samples);
    var now := samples[|samples| - 1].ts;
    FilterSame(samples, NoOlder(now - cfg.windowSec as real), (s: Sample) => now - s.ts <= cfg.windowSec as real);
    BreachedIs(cfg, RecentOnes(cfg, samples), name);
    GaugeMatchesState(cfg, samples, name);
  }

  // ----- Counting -----

  /** The last request counted a breach. */
  predicate CountedNow(cfg: Config, samples: seq<Sample>, name: Name)
    requires cfg.Valid() && samples != []
  {
    RecordAfter(cfg, samples, name).breaches > RecordAfter(cfg, samples[..|samples| - 1], name).breaches
  }

  /** The time of the last request that counted a breach, if any did. */
  function LastCounted(cfg: Config, samples: seq<Sample>, name: Name): Option<real>
    requires cfg.Valid()
  {
    if samples == [] then None
    else if CountedNow(cfg, samples, name) then Some(samples[|samples| - 1].ts)
    else LastCounted(cfg, samples[..|samples| - 1], name)
  }

  lemma {:induction false} LogIsLastCounted(cfg: Config, samples: seq<Sample>, name: Name)
    requires cfg.Valid()
    ensures RecordAfter(cfg, samples, name).lastLog == LastCounted(cfg, samples, name)
    ensures RecordAfter(cfg, samples, name).active ==> LastCounted(cfg, samples, name).Some?
  {
    hide Breached, WindowAfter;
    if samples != [] {
      LogIsLastCounted(cfg, samples[..|samples| - 1], name);
    }
  }

  /**
   A request counts a breach, one, exactly when it leaves the alert active and either the alert was
   quiet before it, or the last breach was counted a cooldown ago or longer.
  */
  lemma CountedIff(cfg: Config, samples: seq<Sample>, name: Name)
    requires cfg.Valid() && samples != []
    ensures var front, now := samples[..|samples| - 1], samples[|samples| - 1].ts;
      var before, after := RecordAfter(cfg, front, name), RecordAfter(cfg, samples, name);
      && after.breaches == before.breaches + (if CountedNow(cfg, samples, name) then 1 else 0)
      && (CountedNow(cfg, samples, name) <==>
            after.active &&
            (!before.active ||
             (LastCounted(cfg, front, name).Some? &&
              now - LastCounted(cfg, front, name).value >= cfg.cooldownSec as real)))
  {
    hide Breached, WindowAfter;
    LogIsLastCounted(cfg, samples[..|samples| - 1], name);
  }
}
