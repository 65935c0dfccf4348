/** The discounted rollout that scores a candidate width, over the reals. A non-finite temperature
    forecast is None. */
module Rollout {

  import opened SimdWidth

  const RATIO_VIOLATION_WEIGHT: real := 4.0
  const RATIO_EFFICIENCY_WEIGHT: real := 0.05
  const TEMPERATURE_WEIGHT: real := 0.25
  const STABILITY_MARGIN: real := 0.25
  const MIN_IMPROVEMENT: real := 1.0
  const HORIZON_DISCOUNT: real := 0.9
  const HARD_CONSTRAINT_COST: real := 1000000000.0

  /** Configuration and fitted width effects. The coefficient parser rejects negative effects;
      penalties and the SLO are unsigned. */
  datatype Env = Env(
    sloRatio: real, sloTemp: real, penaltyDown: real, penaltyUp: real, ceilingC: int,
    trendWeight: real, tempEffect: real, benefit: real)

  predicate WellFormed(e: Env) {
    e.tempEffect >= 0.0 && e.benefit >= 0.0 && e.penaltyDown >= 0.0 && e.penaltyUp >= 0.0
  }

  datatype Forecast = Forecast(ratio: real, trend: real, temp: Option<real>)

  predicate CeilingValid(e: Env) {
    20 <= e.ceilingC <= 125
  }

  function Ceiling(e: Env): (r: real) {
    e.ceilingC as real * 1000.0
  }

  function Times(x: real, y: real): (r: real) {
    x * y
  }

  function Max0(x: real): (r: real) {
    if x > 0.0 then x else 0.0
  }

  // ---------------------------------------------------------------- one step

  function Half(n: nat): (r: real)
    ensures 0.0 < r <= 1.0
    ensures n > 0 ==> r <= 0.5
  {
    if n == 0 then 1.0 else 0.5 * Half(n - 1)
  }

  /** First-order actuator response: 50%, 75%, 87.5%, ... of the steady effect. */
  function Response(step: nat): (r: real)
    requires step > 0
    ensures 0.5 <= r < 1.0
  {
    1.0 - Half(step)
  }

  function Steps(w: Width, current: Width): (k: int)
    ensures -2 <= k <= 2
  {
    Index(w) - Index(current)
  }

  /** The ratio after `step` steps of the trend and a response to k width steps. */
  function RatioProjection(e: Env, f: Forecast, k: int, step: nat, response: real): (r: real)
    ensures r >= 0.0
  {
    Max0(f.ratio + f.trend * e.trendWeight * step as real - Times(Times(k as real, e.benefit), response))
  }

  function RatioCost(e: Env, projection: real): (r: real) {
    Max0(projection - e.sloRatio) * RATIO_VIOLATION_WEIGHT + projection * RATIO_EFFICIENCY_WEIGHT
  }

  function TempProjection(e: Env, temp: real, k: int, response: real): (r: real) {
    temp + Times(Times(k as real, e.tempEffect), response)
  }

  function SloCost(e: Env, projection: real): (r: real)
    ensures r >= 0.0
  {
    if e.sloTemp != 0.0 then Max0(projection - e.sloTemp) * TEMPERATURE_WEIGHT else 0.0
  }

  /** An invalid ceiling costs every wide candidate the hard constraint. */
  function HardCost(e: Env, wide: bool, projection: Option<real>): (r: real)
    ensures r >= 0.0
  {
    if !CeilingValid(e) then (if wide then HARD_CONSTRAINT_COST else 0.0)
    else if projection.Some? && projection.value > Ceiling(e)
    then HARD_CONSTRAINT_COST + (projection.value - Ceiling(e))
    else 0.0
  }

  function TempCost(e: Env, f: Forecast, w: Width, k: int, response: real): (r: real)
    ensures r >= 0.0
  {
    match f.temp
    case None => HardCost(e, IsWide(w), None)
    case Some(temp) =>
      var projection := TempProjection(e, temp, k, response);
      SloCost(e, projection) + HardCost(e, IsWide(w), Some(projection))
  }

  // ---------------------------------------------------------------- the rollout

  function Discount(step: nat): (r: real)
    requires step > 0
    ensures 0.0 < r <= 1.0
  {
    if step == 1 then 1.0 else HORIZON_DISCOUNT * Discount(step - 1)
  }

  function Discounts(n: nat): (r: seq<real>)
    ensures |r| == n && forall i :: 0 <= i < n ==> r[i] == Discount(i + 1)
  {
    seq(n, i requires 0 <= i < n => Discount(i + 1))
  }

  /** The weighted sum of costs. */
  function Weighted(weights: seq<real>, costs: seq<real>): (r: real)
    requires |weights| == |costs|
  {
    if costs == [] then 0.0
    else
      var n := |costs| - 1;
      Weighted(weights[..n], costs[..n]) + weights[n] * costs[n]
  }

  function RatioCosts(e: Env, f: Forecast, k: int, n: nat): (r: seq<real>)
    ensures |r| == n
    ensures forall i :: 0 <= i < n ==> r[i] == RatioCost(e, RatioProjection(e, f, k, i + 1, Response(i + 1)))
  {
    seq(n, i requires 0 <= i < n => RatioCost(e, RatioProjection(e, f, k, i + 1, Response(i + 1))))
  }

  function TempCosts(e: Env, f: Forecast, w: Width, k: int, n: nat): (r: seq<real>)
    ensures |r| == n
    ensures forall i :: 0 <= i < n ==> r[i] == TempCost(e, f, w, k, Response(i + 1))
  {
    seq(n, i requires 0 <= i < n => TempCost(e, f, w, k, Response(i + 1)))
  }

  function Sums(a: seq<real>, b: seq<real>): (r: seq<real>)
    requires |a| == |b|
    ensures |r| == |a| && forall i :: 0 <= i < |a| ==> r[i] == a[i] + b[i]
  {
    seq(|a|, i requires 0 <= i < |a| => a[i] + b[i])
  }

  function StepCosts(e: Env, f: Forecast, w: Width, k: int, n: nat): (r: seq<real>)
    ensures |r| == n
  {
    Sums(RatioCosts(e, f, k, n), TempCosts(e, f, w, k, n))
  }

  function TransitionPenalty(e: Env, w: Width, current: Width): (r: real) {
    var k := Steps(w, current);
    if k < 0 then e.penaltyDown * (-k) as real else e.penaltyUp * k as real
  }

  function Span(horizon: nat): (n: nat)
    ensures n >= 1
  {
    if horizon > 1 then horizon else 1
  }

  function ThermalPart(e: Env, f: Forecast, w: Width, current: Width, horizon: nat): (r: real) {
    Weighted(Discounts(Span(horizon)), TempCosts(e, f, w, Steps(w, current), Span(horizon)))
  }

  function RatioPart(e: Env, f: Forecast, w: Width, current: Width, horizon: nat): (r: real) {
    Weighted(Discounts(Span(horizon)), RatioCosts(e, f, Steps(w, current), Span(horizon)))
  }

  function RolloutCost(e: Env, f: Forecast, w: Width, k: int, n: nat): (r: real) {
    Weighted(Discounts(n), StepCosts(e, f, w, k, n))
  }

  function Score(e: Env, f: Forecast, w: Width, current: Width, horizon: nat): (r: real) {
    RolloutCost(e, f, w, Steps(w, current), Span(horizon)) + TransitionPenalty(e, w, current)
  }

  /** Add one weighted cost to a running sum. */
  method Accumulate(cost: real, discount: real, c: real, ghost weights: seq<real>, ghost costs: seq<real>)
      returns (next: real)
    requires |weights| == |costs| && cost == Weighted(weights, costs)
    ensures next == Weighted(weights + [discount], costs + [c])
  {
    assert (weights + [discount])[..|weights|] == weights && (costs + [c])[..|costs|] == costs;
    next := cost + discount * c;
  }

  lemma StepCostsNext(e: Env, f: Forecast, w: Width, k: int, n: nat)
    ensures StepCosts(e, f, w, k, n + 1)
         == StepCosts(e, f, w, k, n) + [RatioCosts(e, f, k, n + 1)[n] + TempCosts(e, f, w, k, n + 1)[n]]
  {
  }

  lemma DiscountsNext(n: nat)
    ensures Discounts(n + 1) == Discounts(n) + [Discount(n + 1)]
  {
  }

  /** One step of the rollout. */
  method AddStep(e: Env, f: Forecast, w: Width, k: int, step: nat, response: real, discount: real, cost: real)
      returns (next: real)
    requires step > 0 && response == Response(step) && discount == Discount(step)
    requires cost == RolloutCost(e, f, w, k, step - 1)
    ensures next == RolloutCost(e, f, w, k, step)
  {
    var c := RatioCost(e, RatioProjection(e, f, k, step, response)) + TempCost(e, f, w, k, response);
    next := Accumulate(cost, discount, c, Discounts(step - 1), StepCosts(e, f, w, k, step - 1));
    StepCostsNext(e, f, w, k, step - 1);
    DiscountsNext(step - 1);
  }

  /** The scoring loop: a running discount and a halving remainder instead of powers. */
  method RollOut(e: Env, f: Forecast, w: Width, k: int, rollout: nat) returns (cost: real)
    ensures cost == RolloutCost(e, f, w, k, rollout)
  {
    var discount, half := 1.0, 1.0;
    cost := 0.0;
    for step := 1 to rollout + 1
      invariant discount == Discount(step) && half == Half(step - 1)
      invariant cost == RolloutCost(e, f, w, k, step - 1)
    {
      half := 0.5 * half;
      cost := AddStep(e, f, w, k, step, 1.0 - half, discount, cost);
      discount := HORIZON_DISCOUNT * discount;
    }
  }

  method ScoreWidth(e: Env, f: Forecast, candidate: Width, current: Width, horizon: nat) returns (cost: real)
    ensures cost == Score(e, f, candidate, current, horizon)
  {
    cost := RollOut(e, f, candidate, Steps(candidate, current), Span(horizon));
    if candidate != current {
      cost := cost + TransitionPenalty(e, candidate, current);
    } else {
      SamePenalty(e, current);
    }
  }

  lemma SamePenalty(e: Env, w: Width)
    ensures TransitionPenalty(e, w, w) == 0.0
  {
  }

  lemma {:induction false} WeightedSum(weights: seq<real>, a: seq<real>, b: seq<real>)
    requires |weights| == |a| == |b|
    ensures Weighted(weights, Sums(a, b)) == Weighted(weights, a) + Weighted(weights, b)
  {
    if a != [] {
      var n := |a| - 1;
      WeightedSum(weights[..n], a[..n], b[..n]);
      assert Sums(a, b)[..n] == Sums(a[..n], b[..n]);
      assert weights[n] * (a[n] + b[n]) == weights[n] * a[n] + weights[n] * b[n];
    }
  }

  /** The score is the ratio part, the thermal part and the transition penalty. */
  lemma ScoreParts(e: Env, f: Forecast, w: Width, current: Width, horizon: nat)
    ensures Score(e, f, w, current, horizon)
         == RatioPart(e, f, w, current, horizon) + ThermalPart(e, f, w, current, horizon) + TransitionPenalty(e, w, current)
  {
    var k, n := Steps(w, current), Span(horizon);
    WeightedSum(Discounts(n), RatioCosts(e, f, k, n), TempCosts(e, f, w, k, n));
  }

  // ---------------------------------------------------------------- width monotonicity

  lemma ScaleMonotone(d: real, x: real, y: real)
    requires d >= 0.0 && x <= y
    ensures d * x <= d * y
  {
  }

  lemma TimesMonotone(x: real, y: real, d: real)
    requires d >= 0.0 && x <= y
    ensures Times(x, d) <= Times(y, d) && Times(d, x) <= Times(d, y)
  {
  }

  lemma ProjectionMonotone(e: Env, temp: real, j: int, k: int, response: real)
    requires WellFormed(e) && j <= k && response >= 0.0
    ensures TempProjection(e, temp, j, response) <= TempProjection(e, temp, k, response)
  {
    TimesMonotone(j as real, k as real, e.tempEffect);
    TimesMonotone(Times(j as real, e.tempEffect), Times(k as real, e.tempEffect), response);
  }

  lemma TempCostMonotone(e: Env, f: Forecast, v: Width, w: Width, j: int, k: int, response: real)
    requires WellFormed(e) && Index(v) <= Index(w) && j <= k && response >= 0.0
    ensures TempCost(e, f, v, j, response) <= TempCost(e, f, w, k, response)
  {
    if f.temp.Some? {
      ProjectionMonotone(e, f.temp.value, j, k, response);
    }
  }

  lemma {:induction false} WeightedMonotone(weights: seq<real>, a: seq<real>, b: seq<real>)
    requires |weights| == |a| == |b|
    requires forall i :: 0 <= i < |a| ==> weights[i] >= 0.0 && a[i] <= b[i]
    ensures Weighted(weights, a) <= Weighted(weights, b)
  {
    if a != [] {
      var n := |a| - 1;
      WeightedMonotone(weights[..n], a[..n], b[..n]);
      ScaleMonotone(weights[n], a[n], b[n]);
    }
  }

  /** Main result: for every horizon and forecast the thermal part of the score never decreases
      with the width. */
  lemma ThermalPartMonotone(e: Env, f: Forecast, v: Width, w: Width, current: Width, horizon: nat)
    requires WellFormed(e) && Index(v) <= Index(w)
    ensures ThermalPart(e, f, v, current, horizon) <= ThermalPart(e, f, w, current, horizon)
  {
    var j, k, n := Steps(v, current), Steps(w, current), Span(horizon);
    forall i | 0 <= i < n ensures TempCosts(e, f, v, j, n)[i] <= TempCosts(e, f, w, k, n)[i] {
      TempCostMonotone(e, f, v, w, j, k, Response(i + 1));
    }
    WeightedMonotone(Discounts(n), TempCosts(e, f, v, j, n), TempCosts(e, f, w, k, n));
  }
}
