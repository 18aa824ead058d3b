/** The cost of a delay, and the first delay of least cost. */
module JitterCost {
  import opened Arith

  const VERY_LARGE := 0x7fff_ffff

  // Division as C does it.
  function CDiv(a: int, b: int): int
    requires b > 0
  {
    if a >= 0 then a / b else -((-a) / b)
  }

  // ROUND_DOWN
  function RoundDown(x: int, step: int): int
    requires step > 0
  {
    if x < 0 then CDiv(x - step + 1, step) * step else CDiv(x, step) * step
  }

  // It does round down, for negative numbers too.
  lemma RoundsDown(x: int, step: int)
    requires step > 0
    ensures RoundDown(x, step) <= x < RoundDown(x, step) + step && RoundDown(x, step) % step == 0
    ensures RoundDown(x, step) >= 0 <==> x >= 0
  {
    var q := if x < 0 then CDiv(x - step + 1, step) else CDiv(x, step);
    if x < 0 {
      var y := step - 1 - x;
      assert y == y / step * step + y % step;
      assert (-(y / step)) * step == -(y / step * step);
    } else {
      assert x == x / step * step + x % step;
    }
    Multiple(q, step);
    if q < 0 { Negative(q, step); } else { NonNegative(q, step); }
  }

  lemma Negative(q: int, step: int)
    requires q < 0 && step > 0
    ensures q * step <= -step
  {
    NonNegative(-1 - q, step);
    assert (-1 - q) * step == -step - q * step;
  }

  lemma NonNegative(q: int, step: int)
    requires q >= 0 && step > 0
    ensures q * step >= 0
  {
  }

  lemma Multiple(q: int, step: int)
    requires step > 0
    ensures q * step % step == 0
  {
    DivModUnique(q * step, q, 0, step);
  }

  // A conversion to int truncates.
  function Truncated(r: real): int {
    if r >= 0.0 then r.Floor else -((-r).Floor)
  }

  function LateFactor(latencyTradeoff: int, autoTradeoff: int, windowSize: int, total: nat): real
    requires total > 0
  {
    if latencyTradeoff != 0 then (100 * latencyTradeoff) as real / total as real
    else CDiv(autoTradeoff * windowSize, total) as real
  }

  // Frames that would be late if candidate i set the delay, with the penalty for making the
  // buffer shorter once some earlier candidate was not late at all.
  function Late(m: seq<int>, i: nat): nat
    requires i < |m|
  {
    i + if i > 0 && m[i - 1] >= 0 then 4 else 0
  }

  // What a rounded delay costs with so many frames late.
  function CostOf(rounded: int, factor: real, late: nat): int {
    Truncated((-rounded) as real + factor * late as real)
  }

  function Cost(m: seq<int>, step: int, factor: real, i: nat): int
    requires i < |m| && step > 0
  {
    CostOf(RoundDown(m[i], step), factor, Late(m, i))
  }

  // o is the rounded candidate of least cost, the first one of several, or zero when all
  // costs are out of range.
  ghost predicate IsBest(m: seq<int>, step: int, factor: real, o: int, cost: int)
    requires step > 0
  {
    || (cost == VERY_LARGE && o == 0 && forall k :: 0 <= k < |m| ==> Cost(m, step, factor, k) >= VERY_LARGE)
    || exists b: nat :: First(m, step, factor, b, cost) && o == RoundDown(m[b], step)
  }

  ghost predicate First(m: seq<int>, step: int, factor: real, b: nat, cost: int)
    requires step > 0
  {
    && b < |m| && cost == Cost(m, step, factor, b) < VERY_LARGE
    && (forall k :: 0 <= k < |m| ==> cost <= Cost(m, step, factor, k))
    && (forall k :: 0 <= k < b ==> cost < Cost(m, step, factor, k))
  }

  lemma CostStays(m: seq<int>, v: int, step: int, factor: real, k: nat)
    requires k < |m| && step > 0
    ensures Cost(m + [v], step, factor, k) == Cost(m, step, factor, k)
  {
  }

  // One more candidate.
  lemma NextBest(m: seq<int>, v: int, step: int, factor: real, o: int, cost: int, c: int)
    requires step > 0 && IsBest(m, step, factor, o, cost) && c == Cost(m + [v], step, factor, |m|)
    ensures if c < cost then IsBest(m + [v], step, factor, RoundDown(v, step), c)
            else IsBest(m + [v], step, factor, o, cost)
  {
    hide Cost, RoundDown;
    var m' := m + [v];
    forall k | 0 <= k < |m| ensures Cost(m', step, factor, k) == Cost(m, step, factor, k) {
      CostStays(m, v, step, factor, k);
    }
    if c < cost {
      assert First(m', step, factor, |m|, c);
    } else if exists b: nat :: First(m, step, factor, b, cost) && o == RoundDown(m[b], step) {
      var b: nat :| First(m, step, factor, b, cost) && o == RoundDown(m[b], step);
      assert First(m', step, factor, b, cost);
    }
  }
}
