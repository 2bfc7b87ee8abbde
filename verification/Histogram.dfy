/**
 The latency histograms of `ObservabilityManager`: an observation is stored in one bucket, and
 rendering turns the buckets into the cumulative counts of the Prometheus text format 0.0.4.
*/
module Histogram {
  import opened Common
  import opened Rounding

  type Series = (string, string)

  datatype State = State(buckets: seq<nat>, count: nat, sum: real)

  /** One rendered sample: the bucket's upper bound, or None for `+Inf`, and its value. */
  datatype Line = Line(le: Option<real>, value: nat)

  datatype Rendered = Rendered(lines: seq<Line>, sum: real, count: nat)

  const REQUEST_BUCKETS: seq<real> := [5.0, 10.0, 25.0, 50.0, 100.0, 250.0, 500.0, 1000.0, 2500.0, 5000.0, 10000.0]
  const DB_BUCKETS: seq<real> := [1.0, 5.0, 10.0, 25.0, 50.0, 100.0, 250.0, 500.0, 1000.0, 2500.0]

  predicate Bounds(b: seq<real>) {
    forall i, j :: 0 <= i < j < |b| ==> b[i] < b[j]
  }

  function Empty(n: nat): State {
    State(seq(n, _ => 0), 0, 0.0)
  }

  /** The index of the first bucket that admits the value, or the number of buckets. */
  function BucketOf(value: real, bounds: seq<real>): (i: nat)
    ensures i <= |bounds|
    ensures i < |bounds| ==> value <= bounds[i]
    ensures forall j :: 0 <= j < i ==> value > bounds[j]
  {
    if bounds == [] || value <= bounds[0] then 0 else
    var i := 1 + BucketOf(value, bounds[1..]);
    assert forall j :: 1 <= j < i ==> bounds[j] == bounds[1..][j - 1];
    i
  }

  /** A histogram after one observation. */
  function Observe(h: State, value: real, bounds: seq<real>): State
    requires |h.buckets| == |bounds|
  {
    var i := BucketOf(value, bounds);
    State(if i < |bounds| then h.buckets[i := h.buckets[i] + 1] else h.buckets, h.count + 1, h.sum + value)
  }

  function Total(buckets: seq<nat>): nat {
    if buckets == [] then 0 else Total(buckets[..|buckets| - 1]) + buckets[|buckets| - 1]
  }

  /** `_prom_float`: a number is printed to six decimals. */
  function Printed(x: real): real {
    Round6(x)
  }

  /** The exposition of one histogram: cumulative buckets, then `+Inf`, the sum and the count. */
  function Render(h: State, bounds: seq<real>): Rendered
    requires |h.buckets| == |bounds|
  {
    Rendered(
      seq(|bounds|, i requires 0 <= i < |bounds| => Line(Some(Printed(bounds[i])), Total(h.buckets[..i + 1])))
        + [Line(None, h.count)],
      Printed(h.sum), h.count)
  }

  class HistogramStore {
    const bounds: seq<real>
    var states: map<Series, State>

    predicate Valid()
      reads this
    {
      Bounds(bounds) && forall k <- states :: |states[k].buckets| == |bounds|
    }

    constructor (bounds: seq<real>)
      requires Bounds(bounds)
      ensures Valid() && this.bounds == bounds && states == map[]
    {
      this.bounds := bounds;
      states := map[];
    }

    function StateOf(series: Series): State
      reads this
    {
      if series in states then states[series] else Empty(|bounds|)
    }

    method ObserveValue(series: Series, value: real)
      requires Valid()
      modifies this
      ensures Valid()
      ensures states == old(states)[series := Observe(old(StateOf(series)), value, bounds)]
    {
      var state := if series in states then states[series] else Empty(|bounds|);
      state := state.(count := state.count + 1, sum := state.sum + value);
      states := states[series := state];
      var idx := 0;
      while idx < |bounds|
        invariant 0 <= idx <= |bounds|
        invariant forall j :: 0 <= j < idx ==> value > bounds[j]
      {
        if value <= bounds[idx] {
          assert BucketOf(value, bounds) == idx;
          states := states[series := state.(buckets := state.buckets[idx := state.buckets[idx] + 1])];
          return;
        }
        idx := idx + 1;
      }
    }

    method RenderLabel(series: Series) returns (r: Rendered)
      requires Valid() && series in states
      ensures r == Render(states[series], bounds)
    {
      var state := states[series];
      var lines: seq<Line> := [];
      var cumulative: nat := 0;
      for idx := 0 to |bounds|
        invariant cumulative == Total(state.buckets[..idx])
        invariant lines == Render(state, bounds).lines[..idx]
      {
        assert state.buckets[..idx + 1][..idx] == state.buckets[..idx];
        cumulative := cumulative + state.buckets[idx];
        lines := lines + [Line(Some(Printed(bounds[idx])), cumulative)];
      }
      lines := lines + [Line(None, state.count)];
      r := Rendered(lines, Printed(state.sum), state.count);
    }
  }

  // ----- Storage against rendering -----

  function ObserveAll(h: State, values: seq<real>, bounds: seq<real>): (r: State)
    requires |h.buckets| == |bounds|
    ensures |r.buckets| == |bounds|
  {
    if values == [] then h else
    Observe(ObserveAll(h, values[..|values| - 1], bounds), values[|values| - 1], bounds)
  }

  function AtMost(u: real): real -> bool {
    x => x <= u
  }

  function SumOf(values: seq<real>): real {
    if values == [] then 0.0 else SumOf(values[..|values| - 1]) + values[|values| - 1]
  }

  lemma {:induction false} TotalZero(n: nat, i: nat)
    requires i <= n
    ensures Total(Empty(n).buckets[..i]) == 0
  {
    if i > 0 {
      assert Empty(n).buckets[..i][..i - 1] == Empty(n).buckets[..i - 1];
      TotalZero(n, i - 1);
    }
  }

  /** Bumping bucket b adds one to every prefix that reaches it. */
  lemma {:induction false} TotalBump(buckets: seq<nat>, b: nat, i: nat)
    requires b < |buckets| && i <= |buckets|
    ensures Total(buckets[b := buckets[b] + 1][..i]) == Total(buckets[..i]) + if b < i then 1 else 0
  {
    if i > 0 {
      var bumped := buckets[b := buckets[b] + 1];
      assert bumped[..i][..i - 1] == bumped[..i - 1] && buckets[..i][..i - 1] == buckets[..i - 1];
      TotalBump(buckets, b, i - 1);
    }
  }

  lemma {:induction false} CumulativeCounts(values: seq<real>, bounds: seq<real>, i: nat)
    requires Bounds(bounds) && i < |bounds|
    ensures Total(ObserveAll(Empty(|bounds|), values, bounds).buckets[..i + 1]) == |Filter(values, AtMost(bounds[i]))|
  {
    hide Total;
    if values == [] {
      TotalZero(|bounds|, i + 1);
    } else {
      var front, last := values[..|values| - 1], values[|values| - 1];
      CumulativeCounts(front, bounds, i);
      assert values == front + [last];
      FilterLast(front, last, AtMost(bounds[i]));
      var b := BucketOf(last, bounds);
      if b < |bounds| {
        TotalBump(ObserveAll(Empty(|bounds|), front, bounds).buckets, b, i + 1);
      }
    }
  }

  lemma {:induction false} CountAndSum(values: seq<real>, bounds: seq<real>)
    ensures var h := ObserveAll(Empty(|bounds|), values, bounds); h.count == |values| && h.sum == SumOf(values)
  {
    if values != [] {
      CountAndSum(values[..|values| - 1], bounds);
    }
  }

  lemma {:induction false} FilterMonotone(values: seq<real>, u: real, v: real)
    requires u <= v
    ensures |Filter(values, AtMost(u))| <= |Filter(values, AtMost(v))|
  {
    if values != [] {
      FilterMonotone(values[1..], u, v);
    }
  }

  lemma BucketLine(values: seq<real>, bounds: seq<real>, i: nat)
    requires Bounds(bounds) && i <= |bounds|
    ensures
      Render(ObserveAll(Empty(|bounds|), values, bounds), bounds).lines[i] ==
        if i < |bounds| then Line(Some(Printed(bounds[i])), |Filter(values, AtMost(bounds[i]))|)
        else Line(None, |values|)
  {
    hide Printed;
    if i < |bounds| {
      CumulativeCounts(values, bounds, i);
    } else {
      CountAndSum(values, bounds);
    }
  }

  lemma PrintedIsClose(x: real)
    ensures Distance(x, Printed(x)) <= 0.5 / 1000000.0
  {
    hide RoundTo;
    RoundToIsClose(x, 1000000);
  }

  /**
   Histogram refinement: after any observations, the bucket `le=u` shows how many were at most u,
   `+Inf` equals the count of observations, and the sum is their sum, to within half a millionth.
  */
  lemma RenderedHistogram(values: seq<real>, bounds: seq<real>)
    requires Bounds(bounds)
    ensures var r := Render(ObserveAll(Empty(|bounds|), values, bounds), bounds);
      && |r.lines| == |bounds| + 1
      && (forall i :: 0 <= i < |bounds| ==>
            r.lines[i] == Line(Some(Printed(bounds[i])), |Filter(values, AtMost(bounds[i]))|))
      && r.lines[|bounds|] == Line(None, |values|)
      && r.count == |values| && Distance(SumOf(values), r.sum) <= 0.5 / 1000000.0
  {
    hide ObserveAll, Printed, Distance, SumOf, Filter, Total;
    PrintedIsClose(SumOf(values));
    CountAndSum(values, bounds);
    var r := Render(ObserveAll(Empty(|bounds|), values, bounds), bounds);
    forall i | 0 <= i <= |bounds|
      ensures r.lines[i] ==
        if i < |bounds| then Line(Some(Printed(bounds[i])), |Filter(values, AtMost(bounds[i]))|)
        else Line(None, |values|)
    {
      BucketLine(values, bounds, i);
    }
  }

  /** Rendered buckets never decrease, and the last is at most `+Inf`. */
  lemma RenderedBucketsIncrease(values: seq<real>, bounds: seq<real>, i: nat, j: nat)
    requires Bounds(bounds) && i <= j <= |bounds|
    ensures var r := Render(ObserveAll(Empty(|bounds|), values, bounds), bounds);
      r.lines[i].value <= r.lines[j].value
  {
    hide Printed;
    BucketLine(values, bounds, i);
    BucketLine(values, bounds, j);
    if j < |bounds| {
      FilterMonotone(values, bounds[i], bounds[j]);
    }
  }

  // ----- Labels -----

  datatype Observation = Observation(series: Series, value: real)

  function ValuesOf(obs: seq<Observation>, series: Series): seq<real> {
    if obs == [] then [] else
    var last := obs[|obs| - 1];
    ValuesOf(obs[..|obs| - 1], series) + if last.series == series then [last.value] else []
  }

  function StoreAfter(obs: seq<Observation>, bounds: seq<real>): (m: map<Series, State>)
    ensures forall k <- m :: |m[k].buckets| == |bounds|
  {
    if obs == [] then map[] else
    var m := StoreAfter(obs[..|obs| - 1], bounds);
    var last := obs[|obs| - 1];
    m[last.series := Observe(if last.series in m then m[last.series] else Empty(|bounds|), last.value, bounds)]
  }

  /** Each series's histogram is the one built from that series's own observations. */
  lemma {:induction false} LabelsAreIndependent(obs: seq<Observation>, bounds: seq<real>, series: Series)
    ensures var m := StoreAfter(obs, bounds);
      (if series in m then m[series] else Empty(|bounds|)) == ObserveAll(Empty(|bounds|), ValuesOf(obs, series), bounds)
    ensures series in StoreAfter(obs, bounds) <==> ValuesOf(obs, series) != []
  {
    if obs != [] {
      LabelsAreIndependent(obs[..|obs| - 1], bounds, series);
      var front, last := ValuesOf(obs[..|obs| - 1], series), obs[|obs| - 1];
      if last.series == series {
        assert (front + [last.value])[..|front|] == front;
      } else {
        assert front + [] == front;
      }
    }
  }

  lemma WholePrints(n: int)
    ensures Printed(n as real) == n as real
  {
    assert Steps(n as real, 1000000) == (n * 1000000) as real;
  }

  /** The two bucket tables in use are strictly increasing, and their bounds are printed as they are. */
  lemma BucketTablesAreBounds()
    ensures Bounds(REQUEST_BUCKETS) && Bounds(DB_BUCKETS)
    ensures forall b <- REQUEST_BUCKETS + DB_BUCKETS :: Printed(b) == b
  {
    hide Printed;
    forall b <- REQUEST_BUCKETS + DB_BUCKETS ensures Printed(b) == b {
      assert b == b.Floor as real;
      WholePrints(b.Floor);
    }
  }
}
