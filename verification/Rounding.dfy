/** Rounding to a number of decimals, ties to even, over exact numbers. */
module Rounding {

  function RoundInt(x: real): int {
    var f := x.Floor;
    var d := x - f as real;
    if d < 0.5 then f else if d > 0.5 then f + 1 else if f % 2 == 0 then f else f + 1
  }

  /** The nearest integer; of two equally near, the even one. */
  lemma RoundIntIsNearest(x: real, n: int)
    ensures var r := RoundInt(x);
      && Distance(x, r as real) <= Distance(x, n as real)
      && (n != r && Distance(x, n as real) == Distance(x, r as real) ==> r % 2 == 0)
  {
    var f := x.Floor;
    assert n <= f || n >= f + 1;
    if n <= f {
      assert x - n as real >= x - f as real;
    } else {
      assert n as real - x >= (f + 1) as real - x;
    }
  }

  function Distance(x: real, y: real): (d: real)
    ensures d >= 0.0
  {
    if x <= y then y - x else x - y
  }

  /** x in steps of the grid. */
  function Steps(x: real, unit: nat): real {
    x * unit as real
  }

  function FromSteps(n: int, unit: nat): real
    requires unit > 0
  {
    n as real / unit as real
  }

  /** Rounding to a grid of `unit` steps per one; two decimals are 100 steps. */
  function RoundTo(x: real, unit: nat): real
    requires unit > 0
  {
    FromSteps(RoundInt(Steps(x, unit)), unit)
  }

  lemma WithinHalf(x: real)
    ensures Distance(x, RoundInt(x) as real) <= 0.5
  {
  }

  lemma DivideDistance(a: real, n: int, unit: nat)
    requires unit > 0 && Distance(a, n as real) <= 0.5
    ensures Distance(a / unit as real, FromSteps(n, unit)) <= 0.5 / unit as real
  {
    var p := unit as real;
    var d := a - n as real;
    assert a / p - n as real / p == d / p;
    assert (0.5 - d) / p >= 0.0 && (0.5 + d) / p >= 0.0;
    assert (0.5 - d) / p == 0.5 / p - d / p && (0.5 + d) / p == 0.5 / p + d / p;
  }

  lemma StepsBack(x: real, unit: nat)
    requires unit > 0
    ensures Steps(x, unit) / unit as real == x
  {
  }

  /** Rounding moves a value by at most half a step. */
  lemma RoundToIsClose(x: real, unit: nat)
    requires unit > 0
    ensures Distance(x, RoundTo(x, unit)) <= 0.5 / unit as real
  {
    hide Steps, FromSteps, RoundInt;
    WithinHalf(Steps(x, unit));
    DivideDistance(Steps(x, unit), RoundInt(Steps(x, unit)), unit);
    StepsBack(x, unit);
  }

  function Round2(x: real): real { RoundTo(x, 100) }

  function Round4(x: real): real { RoundTo(x, 10000) }

  function Round6(x: real): real { RoundTo(x, 1000000) }

  lemma RoundIntMonotone(x: real, y: real)
    requires x <= y
    ensures RoundInt(x) <= RoundInt(y)
  {
    assert x.Floor <= y.Floor;
  }

  lemma StepsMonotone(x: real, y: real, unit: nat)
    requires x <= y
    ensures Steps(x, unit) <= Steps(y, unit)
  {
    assert (y - x) * unit as real >= 0.0;
  }

  lemma FromStepsMonotone(m: int, n: int, unit: nat)
    requires m <= n && unit > 0
    ensures FromSteps(m, unit) <= FromSteps(n, unit)
  {
    var d := n as real - m as real;
    assert n as real / unit as real == m as real / unit as real + d / unit as real;
  }

  lemma RoundMonotone(x: real, y: real, unit: nat)
    requires x <= y && unit > 0
    ensures RoundTo(x, unit) <= RoundTo(y, unit)
  {
    hide Steps, FromSteps, RoundInt;
    StepsMonotone(x, y, unit);
    RoundIntMonotone(Steps(x, unit), Steps(y, unit));
    FromStepsMonotone(RoundInt(Steps(x, unit)), RoundInt(Steps(y, unit)), unit);
  }

  lemma RoundIntWhole(n: int)
    ensures RoundInt(n as real) == n
  {
  }

  /** Whole numbers are left alone. */
  lemma RoundWhole(n: int, unit: nat)
    requires unit > 0
    ensures RoundTo(n as real, unit) == n as real
  {
    assert Steps(n as real, unit) == (n * unit) as real;
    RoundIntWhole(n * unit);
    assert (n * unit) as real == n as real * unit as real;
    assert FromSteps(n * unit, unit) == n as real;
  }
}
