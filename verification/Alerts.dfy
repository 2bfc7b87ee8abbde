/**
 The alert engine of `ObservabilityManager`: a sliding window of request samples, three measures
 over it (nearest-rank p95, error rate, database average), and an alert state machine per measure
 whose breach counter is throttled by a cooldown.
*/
module Alerts {
  import opened Common

  datatype Sample = Sample(ts: real, requestMs: real, isError: bool, dbMs: real)

  datatype Name = RequestP95 | ErrorRate | DbAverage

  datatype Config = Config(
    windowSec: int, minRequests: int, cooldownSec: int, p95Limit: real, errorLimit: real, dbLimit: real)
  {
    predicate Valid() {
      windowSec >= 10 && minRequests >= 1 && cooldownSec >= 10
    }

    function Limit(name: Name): real {
      match name case RequestP95 => p95Limit case ErrorRate => errorLimit case DbAverage => dbLimit
    }
  }

  /** One alert's entries in the four dictionaries of the source. */
  datatype Record = Record(active: bool, gauge: int, breaches: nat, lastLog: Option<real>)

  const NEW_RECORD := Record(false, 0, 0, None)

  // ----- The window -----

  function PruneWindow(window: seq<Sample>, cutoff: real): seq<Sample> {
    if window != [] && window[0].ts < cutoff then PruneWindow(window[1..], cutoff) else window
  }

  // ----- The measures -----

  function Insert(x: real, sorted: seq<real>): seq<real> {
    if sorted == [] || x <= sorted[0] then [x] + sorted else [sorted[0]] + Insert(x, sorted[1..])
  }

  function Sorted(xs: seq<real>): seq<real> {
    if xs == [] then [] else Insert(xs[0], Sorted(xs[1..]))
  }

  function CeilDiv(a: nat, b: nat): nat
    requires b > 0
  {
    (a + b - 1) / b
  }

  /** `max(0, min(n - 1, ceil(n * 0.95) - 1))`, with 0.95 as the exact fraction 19/20. */
  function P95Index(n: nat): int {
    var i := Min(n - 1, CeilDiv(19 * n, 20) - 1);
    if i < 0 then 0 else i
  }

  function P95(xs: seq<real>): real {
    var sorted := Sorted(xs);
    if P95Index(|xs|) < |sorted| then sorted[P95Index(|xs|)] else 0.0
  }

  function Times(window: seq<Sample>): seq<real> {
    seq(|window|, i requires 0 <= i < |window| => window[i].requestMs)
  }

  function Errors(window: seq<Sample>): nat {
    if window == [] then 0 else (if window[0].isError then 1 else 0) + Errors(window[1..])
  }

  function DbTotal(window: seq<Sample>): real {
    if window == [] then 0.0 else window[0].dbMs + DbTotal(window[1..])
  }

  function Measure(window: seq<Sample>, name: Name): real
    requires window != []
  {
    match name
    case RequestP95 => P95(Times(window))
    case ErrorRate => Errors(window) as real * 100.0 / |window| as real
    case DbAverage => DbTotal(window) / |window| as real
  }

  function Breached(cfg: Config, window: seq<Sample>, name: Name): bool
    requires cfg.Valid()
  {
    |window| >= cfg.minRequests && cfg.Limit(name) > 0.0 && Measure(window, name) > cfg.Limit(name)
  }

  // ----- The alert state machine -----

  function Update(cfg: Config, r: Record, breached: bool, now: real): Record {
    var lastLog := match r.lastLog case None => 0.0 case Some(t) => t;
    if breached && (!r.active || now - lastLog >= cfg.cooldownSec as real) then
      Record(true, 1, r.breaches + 1, Some(now))
    else
      Record(breached, if breached then 1 else 0, r.breaches, r.lastLog)
  }

  function Evaluated(cfg: Config, records: map<Name, Record>, window: seq<Sample>, now: real): map<Name, Record>
    requires cfg.Valid()
  {
    map n <- records :: Update(cfg, records[n], Breached(cfg, window, n), now)
  }

  /** Updating the three alerts one by one evaluates them all. */
  lemma ThreeUpdates(cfg: Config, records: map<Name, Record>, window: seq<Sample>, now: real)
    requires cfg.Valid() && records.Keys == {RequestP95, ErrorRate, DbAverage}
    ensures Evaluated(cfg, records, window, now)
      == records[RequestP95 := Update(cfg, records[RequestP95], Breached(cfg, window, RequestP95), now)]
                [ErrorRate := Update(cfg, records[ErrorRate], Breached(cfg, window, ErrorRate), now)]
                [DbAverage := Update(cfg, records[DbAverage], Breached(cfg, window, DbAverage), now)]
  {
    hide Update, Breached;
  }

  class AlertEngine {
    const cfg: Config
    var window: seq<Sample>
    var records: map<Name, Record>

    predicate Valid()
      reads this
    {
      cfg.Valid() && records.Keys == {RequestP95, ErrorRate, DbAverage}
    }

    constructor (cfg: Config)
      requires cfg.Valid()
      ensures Valid() && this.cfg == cfg && window == []
      ensures forall n <- records :: records[n] == NEW_RECORD
    {
      this.cfg := cfg;
      window := [];
      records := map[RequestP95 := NEW_RECORD, ErrorRate := NEW_RECORD, DbAverage := NEW_RECORD];
    }

    /** The alert part of `record_request`. */
    method RecordRequest(sample: Sample)
      requires Valid()
      modifies this
      ensures Valid()
      ensures window == PruneWindow(old(window) + [sample], sample.ts - cfg.windowSec as real)
      ensures records == Evaluated(cfg, old(records), window, sample.ts)
    {
      window := window + [sample];
      PruneWindowLocked(sample.ts);
      EvaluateLocked(sample.ts);
    }

    method PruneWindowLocked(now: real)
      modifies this`window
      ensures window == PruneWindow(old(window), now - cfg.windowSec as real)
    {
      var cutoff := now - cfg.windowSec as real;
      while window != [] && window[0].ts < cutoff
        invariant PruneWindow(window, cutoff) == PruneWindow(old(window), cutoff)
      {
        window := window[1..];
      }
    }

    method EvaluateLocked(now: real)
      requires Valid()
      modifies this`records
      ensures Valid() && records == Evaluated(cfg, old(records), window, now)
    {
      hide Update, P95, Errors, DbTotal, Times, Evaluated;
      var total := |window|;
      var slow, failing, dbSlow := false, false, false;
      if total >= cfg.minRequests {
        slow := cfg.p95Limit > 0.0 && P95(Times(window)) > cfg.p95Limit;
        var errors, dbTotal := SumWindow();
        failing := cfg.errorLimit > 0.0 && errors as real * 100.0 / total as real > cfg.errorLimit;
        dbSlow := cfg.dbLimit > 0.0 && dbTotal / total as real > cfg.dbLimit;
      }
      ThreeUpdates(cfg, records, window, now);
      UpdateStateLocked(RequestP95, slow, now);
      UpdateStateLocked(ErrorRate, failing, now);
      UpdateStateLocked(DbAverage, dbSlow, now);
    }

    method SumWindow() returns (errors: nat, dbTotal: real)
      ensures errors == Errors(window) && dbTotal == DbTotal(window)
    {
      errors, dbTotal := 0, 0.0;
      for i := 0 to |window|
        invariant dbTotal + DbTotal(window[i..]) == DbTotal(window)
        invariant errors + Errors(window[i..]) == Errors(window)
      {
        dbTotal := dbTotal + window[i].dbMs;
        errors := errors + if window[i].isError then 1 else 0;
        assert window[i..][1..] == window[i + 1..];
      }
    }

    method UpdateStateLocked(name: Name, breached: bool, now: real)
      requires Valid()
      modifies this`records
      ensures Valid()
      ensures records == old(records)[name := Update(cfg, old(records)[name], breached, now)]
    {
      var r := records[name];
      var wasActive := r.active;
      r := r.(active := breached, gauge := if breached then 1 else 0);
      if breached {
        var lastLog := match r.lastLog case None => 0.0 case Some(t) => t;
        if !wasActive || now - lastLog >= cfg.cooldownSec as real {
          r := r.(lastLog := Some(now), breaches := r.breaches + 1);
        }
      }
      records := records[name := r];
    }
  }

  // ----- The window over a run -----

  predicate ClockAdvances(samples: seq<Sample>) {
    forall i, j :: 0 <= i < j < |samples| ==> samples[i].ts <= samples[j].ts
  }

  /** The window after a run of requests. */
  function WindowAfter(cfg: Config, samples: seq<Sample>): seq<Sample> {
    if samples == [] then [] else
    var last := samples[|samples| - 1];
    PruneWindow(WindowAfter(cfg, samples[..|samples| - 1]) + [last], last.ts - cfg.windowSec as real)
  }

  function NoOlder(cutoff: real): Sample -> bool {
    (s: Sample) => s.ts >= cutoff
  }

  lemma {:induction false} PruneIsFilter(window: seq<Sample>, cutoff: real)
    requires ClockAdvances(window)
    ensures PruneWindow(window, cutoff) == Filter(window, NoOlder(cutoff))
  {
    if window != [] {
      if window[0].ts < cutoff {
        PruneIsFilter(window[1..], cutoff);
      } else {
        FilterAll(window, NoOlder(cutoff));
      }
    }
  }

  lemma {:induction false} FilterAdvances(samples: seq<Sample>, p: Sample -> bool)
    requires ClockAdvances(samples)
    ensures ClockAdvances(Filter(samples, p))
  {
    if samples != [] {
      var rest := Filter(samples[1..], p);
      FilterAdvances(samples[1..], p);
      FilterIn(samples[1..], p);
      forall j | 0 <= j < |rest| ensures samples[0].ts <= rest[j].ts {
        assert rest[j] in rest && rest[j] in samples[1..];
      }
      assert Filter(samples, p) == rest || Filter(samples, p) == [samples[0]] + rest;
    }
  }

  /** Adding a sample to the window of an earlier cutoff and pruning at a later one. */
  lemma WindowStep(front: seq<Sample>, last: Sample, earlier: real, cutoff: real)
    requires ClockAdvances(front + [last]) && earlier <= cutoff && earlier <= last.ts
    ensures PruneWindow(Filter(front, NoOlder(earlier)) + [last], cutoff) == Filter(front + [last], NoOlder(cutoff))
  {
    hide Filter, PruneWindow, ClockAdvances;
    var samples := front + [last];
    FilterAdvances(samples, NoOlder(earlier));
    FilterLast(front, last, NoOlder(earlier));
    PruneIsFilter(Filter(samples, NoOlder(earlier)), cutoff);
    FilterCompose(samples, NoOlder(earlier), NoOlder(cutoff), NoOlder(cutoff));
  }

  lemma NextWindow(cfg: Config, front: seq<Sample>, last: Sample)
    ensures WindowAfter(cfg, front + [last])
      == PruneWindow(WindowAfter(cfg, front) + [last], last.ts - cfg.windowSec as real)
    ensures WindowAfter(cfg, []) == []
  {
    assert (front + [last])[..|front|] == front;
  }

  lemma FrontAdvances(front: seq<Sample>, last: Sample)
    requires ClockAdvances(front + [last])
    ensures ClockAdvances(front) && (front != [] ==> front[|front| - 1].ts <= last.ts)
  {
    var all := front + [last];
    assert forall i :: 0 <= i < |front| ==> front[i] == all[i];
    assert all[|front|] == last;
  }

  /** After each request the window is exactly the samples at most `windowSec` old. */
  lemma {:induction false} WindowIsExact(cfg: Config, samples: seq<Sample>)
    requires cfg.Valid() && samples != [] && ClockAdvances(samples)
    ensures WindowAfter(cfg, samples) ==
      Filter(samples, NoOlder(samples[|samples| - 1].ts - cfg.windowSec as real))
  {
    hide Filter, PruneWindow, WindowAfter, ClockAdvances;
    var front, last := samples[..|samples| - 1], samples[|samples| - 1];
    var cutoff := last.ts - cfg.windowSec as real;
    assert samples == front + [last];
    NextWindow(cfg, front, last);
    FrontAdvances(front, last);
    if front == [] {
      assert [] + [last] == samples;
      PruneIsFilter(samples, cutoff);
    } else {
      WindowIsExact(cfg, front);
      WindowStep(front, last, front[|front| - 1].ts - cfg.windowSec as real, cutoff);
    }
  }

  // ----- Nearest rank -----

  function Below(v: real): real -> bool { x => x < v }

  function AtMost(v: real): real -> bool { x => x <= v }

  predicate Ascending(xs: seq<real>) {
    forall i, j :: 0 <= i < j < |xs| ==> xs[i] <= xs[j]
  }

  lemma {:induction false} InsertCounts(x: real, sorted: seq<real>, p: real -> bool)
    ensures |Filter(Insert(x, sorted), p)| == |Filter([x] + sorted, p)|
    ensures |Insert(x, sorted)| == |sorted| + 1
  {
    assert ([x] + sorted)[1..] == sorted;
    if sorted != [] && x > sorted[0] {
      InsertCounts(x, sorted[1..], p);
      assert ([x] + sorted[1..])[1..] == sorted[1..];
      assert Insert(x, sorted)[1..] == Insert(x, sorted[1..]);
    }
  }

  lemma {:induction false} InsertAscending(x: real, sorted: seq<real>)
    requires Ascending(sorted)
    ensures Ascending(Insert(x, sorted))
    ensures forall y <- Insert(x, sorted) :: y == x || y in sorted
  {
    if sorted != [] && x > sorted[0] {
      InsertAscending(x, sorted[1..]);
      var rest := Insert(x, sorted[1..]);
      forall j | 0 <= j < |rest| ensures sorted[0] <= rest[j] {
        assert rest[j] in rest;
      }
    }
  }

  /** Sorting orders the values and keeps how many satisfy any condition. */
  lemma {:induction false} SortedCounts(xs: seq<real>, p: real -> bool)
    ensures |Filter(Sorted(xs), p)| == |Filter(xs, p)|
    ensures |Sorted(xs)| == |xs| && Ascending(Sorted(xs))
  {
    if xs != [] {
      SortedCounts(xs[1..], p);
      InsertCounts(xs[0], Sorted(xs[1..]), p);
      InsertAscending(xs[0], Sorted(xs[1..]));
      assert ([xs[0]] + Sorted(xs[1..]))[1..] == Sorted(xs[1..]);
    }
  }

  /** In ascending order, the value at rank k has k + 1 values at most it. */
  lemma RankAtMost(s: seq<real>, k: nat)
    requires Ascending(s) && k < |s|
    ensures |Filter(s, AtMost(s[k]))| >= k + 1
  {
    var front, back := s[..k + 1], s[k + 1..];
    assert s == front + back;
    assert forall x <- front :: x <= s[k];
    FilterAppend(front, back, AtMost(s[k]));
    FilterAll(front, AtMost(s[k]));
  }

  /** In ascending order, at most k values are below the value at rank k. */
  lemma RankBelow(s: seq<real>, k: nat)
    requires Ascending(s) && k < |s|
    ensures |Filter(s, Below(s[k]))| <= k
  {
    var front, back := s[..k], s[k..];
    assert s == front + back;
    assert forall x <- back :: s[k] <= x;
    FilterAppend(front, back, Below(s[k]));
    FilterNone(back, Below(s[k]));
  }

  lemma {:induction false} SortedMembers(xs: seq<real>)
    ensures forall y <- Sorted(xs) :: y in xs
  {
    if xs != [] {
      SortedMembers(xs[1..]);
      SortedCounts(xs[1..], Below(0.0));
      InsertAscending(xs[0], Sorted(xs[1..]));
      assert xs == [xs[0]] + xs[1..];
    }
  }

  /** The p95 is a sample, has at least 95% of the samples at most it, and fewer than 95% below it. */
  lemma {:induction false} P95IsNearestRank(xs: seq<real>)
    requires xs != []
    ensures 20 * |Filter(xs, AtMost(P95(xs)))| >= 19 * |xs|
    ensures 20 * |Filter(xs, Below(P95(xs)))| < 19 * |xs|
    ensures P95(xs) in xs
  {
    var k := P95Index(|xs|);
    SortedMembers(xs);
    SortedCounts(xs, AtMost(P95(xs)));
    SortedCounts(xs, Below(P95(xs)));
    assert 20 * (k + 1) >= 19 * |xs| && 20 * k < 19 * |xs| && k < |xs|;
    RankAtMost(Sorted(xs), k);
    RankBelow(Sorted(xs), k);
  }

  // ----- Gauges and breach counts over a run -----

  /** One alert's record after a run of requests. */
  function RecordAfter(cfg: Config, samples: seq<Sample>, name: Name): Record
    requires cfg.Valid()
  {
    if samples == [] then NEW_RECORD else
    Update(cfg, RecordAfter(cfg, samples[..|samples| - 1], name),
           Breached(cfg, WindowAfter(cfg, samples), name), samples[|samples| - 1].ts)
  }

  /** After each request, state and gauge both say whether the measure is over its limit. */
  lemma GaugeMatchesState(cfg: Config, samples: seq<Sample>, name: Name)
    requires cfg.Valid() && samples != []
    ensures var r := RecordAfter(cfg, samples, name);
      && r.active == Breached(cfg, WindowAfter(cfg, samples), name)
      && r.gauge == (if r.active then 1 else 0)
  {
  }

  /** Requests at which the alert goes from quiet to breached. */
  function RisingEdges(cfg: Config, samples: seq<Sample>, name: Name): nat
    requires cfg.Valid()
  {
    if samples == [] then 0 else
    var front := samples[..|samples| - 1];
    RisingEdges(cfg, front, name)
    + if !RecordAfter(cfg, front, name).active && RecordAfter(cfg, samples, name).active then 1 else 0
  }

  /** The breaches beyond the rising edges, times the cooldown, fit between the first request and the last log. */
  ghost predicate Throttled(cfg: Config, r: Record, edges: nat, first: real, now: real) {
    && edges <= r.breaches
    && (r.lastLog.None? ==> r.breaches == 0 && !r.active)
    && (r.lastLog.Some? ==>
          && first <= r.lastLog.value <= now
          && (r.breaches - edges) as real * cfg.cooldownSec as real <= r.lastLog.value - first)
  }

  lemma UpdateThrottled(cfg: Config, r: Record, edges: nat, first: real, before: real, breached: bool, now: real)
    requires cfg.Valid() && first <= before <= now && Throttled(cfg, r, edges, first, before)
    ensures var after := Update(cfg, r, breached, now);
      Throttled(cfg, after, edges + (if !r.active && after.active then 1 else 0), first, now)
  {
    var extra := r.breaches - edges;
    OneMore(extra, cfg.cooldownSec as real);
  }

  lemma OneMore(a: int, c: real)
    ensures (a + 1) as real * c == a as real * c + c
  {
  }

  lemma {:induction false} BreachesThrottled(cfg: Config, samples: seq<Sample>, name: Name)
    requires cfg.Valid() && samples != [] && ClockAdvances(samples)
    ensures Throttled(cfg, RecordAfter(cfg, samples, name), RisingEdges(cfg, samples, name),
                      samples[0].ts, samples[|samples| - 1].ts)
  {
    hide Update, Breached, WindowAfter, Throttled;
    var front, last := samples[..|samples| - 1], samples[|samples| - 1];
    if front == [] {
      FirstThrottled(cfg, samples[0].ts);
      UpdateThrottled(cfg, NEW_RECORD, 0, last.ts, last.ts, Breached(cfg, WindowAfter(cfg, samples), name), last.ts);
    } else {
      BreachesThrottled(cfg, front, name);
      UpdateThrottled(cfg, RecordAfter(cfg, front, name), RisingEdges(cfg, front, name), samples[0].ts,
                      front[|front| - 1].ts, Breached(cfg, WindowAfter(cfg, samples), name), last.ts);
    }
  }

  lemma FirstThrottled(cfg: Config, now: real)
    ensures Throttled(cfg, NEW_RECORD, 0, now, now)
  {
  }

  /** Breaches counted lie between the rising edges and those plus the elapsed time over the cooldown. */
  lemma {:induction false} BreachCountBounds(cfg: Config, samples: seq<Sample>, name: Name)
    requires cfg.Valid() && samples != [] && ClockAdvances(samples)
    ensures var edges, breaches := RisingEdges(cfg, samples, name), RecordAfter(cfg, samples, name).breaches;
      && edges <= breaches
      && breaches as real <=
           edges as real + (samples[|samples| - 1].ts - samples[0].ts) / cfg.cooldownSec as real
  {
    hide RecordAfter, RisingEdges;
    BreachesThrottled(cfg, samples, name);
    var r, edges := RecordAfter(cfg, samples, name), RisingEdges(cfg, samples, name);
    var elapsed := samples[|samples| - 1].ts - samples[0].ts;
    DivideBound((r.breaches - edges) as real, cfg.cooldownSec as real, elapsed);
  }

  lemma DivideBound(a: real, c: real, b: real)
    requires c > 0.0 && a * c <= b
    ensures a <= b / c
  {
    assert (a * c) / c <= b / c;
  }
}
