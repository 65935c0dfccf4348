/** The rollout in closed form: what the score of a candidate is worth in each regime of its
    projections, what the discount and the actuator response sum to, and exactly when a change pays
    its penalty. */
module RolloutForms {

  import opened SimdWidth
  import opened Rollout
  import opened WidthChoice

  // ---------------------------------------------------------------- the sums

  /** The ceilings the rollout accepts, and how many steps it looks ahead. */
  predicate UsableCeiling(e: Env) {
    20 <= e.ceilingC <= 125
  }

  lemma SpanExactly(horizon: nat)
    ensures Span(horizon) == if horizon == 0 then 1 else horizon
  {
  }

  function Power(b: real, n: nat): (r: real) {
    if n == 0 then 1.0 else b * Power(b, n - 1)
  }

  lemma {:induction false} DiscountIsPower(step: nat)
    requires step > 0
    ensures Discount(step) == Power(0.9, step - 1)
  {
    if step > 1 {
      DiscountIsPower(step - 1);
    }
  }

  lemma {:induction false} DiscountedHalf(step: nat)
    requires step > 0
    ensures Discount(step) * Half(step) == 0.5 * Power(0.45, step - 1)
  {
    if step > 1 {
      DiscountedHalf(step - 1);
      var d, h := Discount(step - 1), Half(step - 1);
      assert (0.9 * d) * (0.5 * h) == 0.45 * (d * h);
    } else {
      assert Half(1) == 0.5 * Half(0);
    }
  }

  /** The discounts of n steps: a geometric sum of ratio 0.9. */
  lemma {:induction false} MassClosed(n: nat)
    ensures 0.1 * Mass(n) == 1.0 - Power(0.9, n)
  {
    if n > 0 {
      assert Discounts(n)[..n - 1] == Discounts(n - 1) && Ones(n)[..n - 1] == Ones(n - 1);
      MassClosed(n - 1);
      DiscountIsPower(n);
    }
  }

  function Halves(n: nat): (r: seq<real>)
    ensures |r| == n && forall i :: 0 <= i < n ==> r[i] == Half(i + 1)
  {
    seq(n, i requires 0 <= i < n => Half(i + 1))
  }

  /** The discounted lag of the actuator. */
  function LagSum(n: nat): (r: real) {
    Weighted(Discounts(n), Halves(n))
  }

  lemma LagIsDifference(n: nat)
    ensures Reach(n) + LagSum(n) == Mass(n)
  {
    assert Sums(Responses(n), Halves(n)) == Ones(n);
    WeightedSum(Discounts(n), Responses(n), Halves(n));
  }

  lemma LagNext(n: nat)
    requires n > 0
    ensures LagSum(n) == LagSum(n - 1) + 0.5 * Power(0.45, n - 1)
  {
    assert Discounts(n)[..n - 1] == Discounts(n - 1) && Halves(n)[..n - 1] == Halves(n - 1);
    DiscountedHalf(n);
  }

  lemma {:induction false} LagClosed(n: nat)
    ensures 0.55 * LagSum(n) == 0.5 * (1.0 - Power(0.45, n))
  {
    if n > 0 {
      LagClosed(n - 1);
      LagNext(n);
    }
  }

  /** What the actuator's lag takes from it: a geometric sum of ratio 0.45. */
  lemma ReachClosed(n: nat)
    ensures 0.55 * (Mass(n) - Reach(n)) == 0.5 * (1.0 - Power(0.45, n))
  {
    LagIsDifference(n);
    LagClosed(n);
  }

  function Counting(n: nat): (r: seq<real>)
    ensures |r| == n && forall i :: 0 <= i < n ==> r[i] == (i + 1) as real
  {
    seq(n, i requires 0 <= i < n => (i + 1) as real)
  }

  /** The discounted sum of the step numbers. */
  function Pace(n: nat): (r: real) {
    Weighted(Discounts(n), Counting(n))
  }

  // ---------------------------------------------------------------- the ratio part

  /** The drift per step, and what k width steps take off at full response. */
  function Drift(e: Env, f: Forecast): (r: real) {
    f.trend * e.trendWeight
  }

  function Lift(e: Env, k: int): (r: real) {
    Times(k as real, e.benefit)
  }

  /** The unclamped projections from a level, with a drift per step and a lift at full response. */
  function Path(level: real, drift: real, lift: real, n: nat): (r: seq<real>)
    ensures |r| == n
    ensures forall i :: 0 <= i < n ==>
      r[i] == level + Times(drift, (i + 1) as real) + Times(-lift, Response(i + 1))
  {
    Sums(Affine(-lift, level, n), Scaled(drift, Counting(n)))
  }

  /** Their discounted sum. */
  function PathSum(level: real, drift: real, lift: real, n: nat): (r: real) {
    Times(level, Mass(n)) + Times(drift, Pace(n)) + Times(-lift, Reach(n))
  }

  lemma WeightedPath(level: real, drift: real, lift: real, n: nat)
    ensures Weighted(Discounts(n), Path(level, drift, lift, n)) == PathSum(level, drift, lift, n)
  {
    WeightedSum(Discounts(n), Affine(-lift, level, n), Scaled(drift, Counting(n)));
    WeightedAffine(-lift, level, n);
    WeightedScaled(Discounts(n), Counting(n), drift);
  }

  /** Costs that are linear in a path. */
  lemma WeightedLinear(weights: seq<real>, path: seq<real>, costs: seq<real>, slope: real, level: real)
    requires |weights| == |path| == |costs|
    requires forall i :: 0 <= i < |path| ==> costs[i] == Times(slope, path[i]) + level
    ensures Weighted(weights, costs) == Times(slope, Weighted(weights, path)) + Times(level, Weighted(weights, Ones(|path|)))
  {
    var a, b := Scaled(slope, path), Scaled(level, Ones(|path|));
    forall i | 0 <= i < |path| ensures costs[i] == Sums(a, b)[i] {
      assert Times(level, 1.0) == level;
    }
    assert costs == Sums(a, b);
    WeightedSum(weights, a, b);
    WeightedScaled(weights, path, slope);
    WeightedScaled(weights, Ones(|path|), level);
  }

  function Trajectory(e: Env, f: Forecast, k: int, n: nat): (r: seq<real>)
    ensures |r| == n
  {
    Path(f.ratio, Drift(e, f), Lift(e, k), n)
  }

  function TrajectorySum(e: Env, f: Forecast, k: int, n: nat): (r: real) {
    PathSum(f.ratio, Drift(e, f), Lift(e, k), n)
  }

  lemma ProjectionTerms(e: Env, f: Forecast, k: int, step: nat, response: real)
    ensures RatioProjection(e, f, k, step, response)
         == Max0(f.ratio + Times(Drift(e, f), step as real) + Times(-Lift(e, k), response))
  {
    NegativeTimes(Lift(e, k), response);
  }

  lemma NegativeTimes(x: real, y: real)
    ensures Times(-x, y) == -Times(x, y)
  {
  }

  /** Cost i in terms of trajectory i. */
  lemma RatioCostAt(e: Env, f: Forecast, k: int, n: nat, i: nat)
    requires i < n
    ensures RatioCosts(e, f, k, n)[i] == RatioCost(e, Max0(Trajectory(e, f, k, n)[i]))
  {
    ProjectionTerms(e, f, k, i + 1, Response(i + 1));
  }

  predicate AllAtLeast(s: seq<real>, x: real) {
    forall i :: 0 <= i < |s| ==> s[i] >= x
  }

  predicate AllAtMost(s: seq<real>, x: real) {
    forall i :: 0 <= i < |s| ==> s[i] <= x
  }

  lemma CostAboveObjective(e: Env, x: real)
    requires 0.0 <= e.sloRatio <= x
    ensures RatioCost(e, Max0(x)) == Times(4.05, x) + -4.0 * e.sloRatio
  {
  }

  lemma CostsAboveObjective(e: Env, f: Forecast, k: int, n: nat)
    requires e.sloRatio >= 0.0 && AllAtLeast(Trajectory(e, f, k, n), e.sloRatio)
    ensures forall i :: 0 <= i < n ==>
      RatioCosts(e, f, k, n)[i] == Times(4.05, Trajectory(e, f, k, n)[i]) + -4.0 * e.sloRatio
  {
    forall i | 0 <= i < n
      ensures RatioCosts(e, f, k, n)[i] == Times(4.05, Trajectory(e, f, k, n)[i]) + -4.0 * e.sloRatio
    {
      RatioCostAt(e, f, k, n, i);
      CostAboveObjective(e, Trajectory(e, f, k, n)[i]);
    }
  }

  /** Main result: while every projected ratio stays at or above the objective, the ratio part is 4.05 times
      the discounted trajectory, less 4 times the discounted objective. */
  lemma RatioPartAboveObjective(e: Env, f: Forecast, w: Width, current: Width, horizon: nat)
    requires e.sloRatio >= 0.0
    requires AllAtLeast(Trajectory(e, f, Steps(w, current), Span(horizon)), e.sloRatio)
    ensures var k, n := Steps(w, current), Span(horizon);
            && RatioPart(e, f, w, current, horizon)
               == Times(4.05, TrajectorySum(e, f, k, n)) + Times(-4.0 * e.sloRatio, Mass(n))
  {
    DiscountedAboveObjective(e, f, Steps(w, current), Span(horizon), -4.0 * e.sloRatio);
  }

  lemma DiscountedAboveObjective(e: Env, f: Forecast, k: int, n: nat, level: real)
    requires level == -4.0 * e.sloRatio
    requires e.sloRatio >= 0.0 && AllAtLeast(Trajectory(e, f, k, n), e.sloRatio)
    ensures Weighted(Discounts(n), RatioCosts(e, f, k, n)) == Times(4.05, TrajectorySum(e, f, k, n)) + Times(level, Mass(n))
  {
    var path, costs := Trajectory(e, f, k, n), RatioCosts(e, f, k, n);
    assert forall i :: 0 <= i < |path| ==> costs[i] == Times(4.05, path[i]) + level by {
      CostsAboveObjective(e, f, k, n);
    }
    WeightedLinear(Discounts(n), path, costs, 4.05, level);
    WeightedPath(f.ratio, Drift(e, f), Lift(e, k), n);
  }

  /** Main result: while it stays within the objective, only the efficiency weight of 0.05 counts. */
  lemma RatioPartWithinObjective(e: Env, f: Forecast, w: Width, current: Width, horizon: nat)
    requires AllAtLeast(Trajectory(e, f, Steps(w, current), Span(horizon)), 0.0)
    requires AllAtMost(Trajectory(e, f, Steps(w, current), Span(horizon)), e.sloRatio)
    ensures RatioPart(e, f, w, current, horizon) == Times(0.05, TrajectorySum(e, f, Steps(w, current), Span(horizon)))
  {
    var k, n := Steps(w, current), Span(horizon);
    var path := Trajectory(e, f, k, n);
    forall i | 0 <= i < n ensures RatioCosts(e, f, k, n)[i] == Scaled(0.05, path)[i] {
      RatioCostAt(e, f, k, n, i);
    }
    assert RatioCosts(e, f, k, n) == Scaled(0.05, path);
    WeightedScaled(Discounts(n), path, 0.05);
    WeightedPath(f.ratio, Drift(e, f), Lift(e, k), n);
  }

  /** A trajectory that has run below zero costs nothing. */
  lemma RatioPartBelowZero(e: Env, f: Forecast, w: Width, current: Width, horizon: nat)
    requires e.sloRatio >= 0.0 && AllAtMost(Trajectory(e, f, Steps(w, current), Span(horizon)), 0.0)
    ensures RatioPart(e, f, w, current, horizon) == 0.0
  {
    var k, n := Steps(w, current), Span(horizon);
    forall i | 0 <= i < n ensures RatioCosts(e, f, k, n)[i] == 0.0 {
      RatioCostAt(e, f, k, n, i);
    }
    WeightedZero(Discounts(n), RatioCosts(e, f, k, n));
  }

  lemma {:induction false} WeightedZero(weights: seq<real>, costs: seq<real>)
    requires |weights| == |costs| && forall i :: 0 <= i < |costs| ==> costs[i] == 0.0
    ensures Weighted(weights, costs) == 0.0
  {
    if costs != [] {
      WeightedZero(weights[..|costs| - 1], costs[..|costs| - 1]);
    }
  }

  // ---------------------------------------------------------------- the thermal part

  /** The projected temperatures of k width steps. */
  function Warming(e: Env, temp: real, k: int, n: nat): (r: seq<real>)
    ensures |r| == n
    ensures forall i :: 0 <= i < n ==> r[i] == TempProjection(e, temp, k, Response(i + 1))
  {
    Affine(Times(k as real, e.tempEffect), temp, n)
  }

  function WarmingSum(e: Env, temp: real, k: int, n: nat): (r: real) {
    Times(Times(k as real, e.tempEffect), Reach(n)) + Times(temp, Mass(n))
  }

  /** Main result: between the temperature objective and the ceiling the thermal part is a quarter of the
      discounted excess over the objective. */
  lemma ThermalPartAboveObjective(e: Env, f: Forecast, w: Width, current: Width, horizon: nat)
    requires UsableCeiling(e) && f.temp.Some? && e.sloTemp != 0.0
    requires AllAtLeast(Warming(e, f.temp.value, Steps(w, current), Span(horizon)), e.sloTemp)
    requires AllAtMost(Warming(e, f.temp.value, Steps(w, current), Span(horizon)), Ceiling(e))
    ensures var k, n := Steps(w, current), Span(horizon);
            && ThermalPart(e, f, w, current, horizon)
               == Times(0.25, WarmingSum(e, f.temp.value, k, n)) + Times(-0.25 * e.sloTemp, Mass(n))
  {
    DiscountedExcess(e, f, w, Steps(w, current), Span(horizon), -0.25 * e.sloTemp);
  }

  lemma DiscountedExcess(e: Env, f: Forecast, w: Width, k: int, n: nat, level: real)
    requires level == -0.25 * e.sloTemp && UsableCeiling(e) && f.temp.Some? && e.sloTemp != 0.0
    requires AllAtLeast(Warming(e, f.temp.value, k, n), e.sloTemp) && AllAtMost(Warming(e, f.temp.value, k, n), Ceiling(e))
    ensures Weighted(Discounts(n), TempCosts(e, f, w, k, n))
         == Times(0.25, WarmingSum(e, f.temp.value, k, n)) + Times(level, Mass(n))
  {
    var path, costs := Warming(e, f.temp.value, k, n), TempCosts(e, f, w, k, n);
    forall i | 0 <= i < |path| ensures costs[i] == Times(0.25, path[i]) + level {
      assert path[i] == TempProjection(e, f.temp.value, k, Response(i + 1));
    }
    WeightedLinear(Discounts(n), path, costs, 0.25, level);
    WeightedAffine(Times(k as real, e.tempEffect), f.temp.value, n);
  }

  /** Within both limits, or without an objective, the thermal part is zero. */
  lemma ThermalPartWithinObjective(e: Env, f: Forecast, w: Width, current: Width, horizon: nat)
    requires UsableCeiling(e) && f.temp.Some?
    requires AllAtMost(Warming(e, f.temp.value, Steps(w, current), Span(horizon)), Ceiling(e))
    requires e.sloTemp == 0.0 || AllAtMost(Warming(e, f.temp.value, Steps(w, current), Span(horizon)), e.sloTemp)
    ensures ThermalPart(e, f, w, current, horizon) == 0.0
  {
    var k, n, temp := Steps(w, current), Span(horizon), f.temp.value;
    var path := Warming(e, temp, k, n);
    forall i | 0 <= i < n ensures TempCosts(e, f, w, k, n)[i] == 0.0 {
      assert path[i] == TempProjection(e, temp, k, Response(i + 1));
    }
    WeightedZero(Discounts(n), TempCosts(e, f, w, k, n));
  }

  lemma CostsOverCeiling(e: Env, f: Forecast, w: Width, k: int, n: nat)
    requires UsableCeiling(e) && f.temp.Some? && e.sloTemp == 0.0
    requires forall i :: 0 <= i < n ==> Warming(e, f.temp.value, k, n)[i] > Ceiling(e)
    ensures forall i :: 0 <= i < n ==>
      TempCosts(e, f, w, k, n)[i] == Times(1.0, Warming(e, f.temp.value, k, n)[i]) + (HARD_CONSTRAINT_COST - Ceiling(e))
  {
    forall i | 0 <= i < n
      ensures TempCosts(e, f, w, k, n)[i] == Times(1.0, Warming(e, f.temp.value, k, n)[i]) + (HARD_CONSTRAINT_COST - Ceiling(e))
    {
      assert Warming(e, f.temp.value, k, n)[i] == TempProjection(e, f.temp.value, k, Response(i + 1));
    }
  }

  /** Main result: above the ceiling, without an objective, it is the hard constraint of every step and the
      discounted excess over the ceiling. */
  lemma ThermalPartOverCeiling(e: Env, f: Forecast, w: Width, current: Width, horizon: nat)
    requires UsableCeiling(e) && f.temp.Some? && e.sloTemp == 0.0
    requires forall i :: 0 <= i < Span(horizon) ==>
      Warming(e, f.temp.value, Steps(w, current), Span(horizon))[i] > Ceiling(e)
    ensures var k, n := Steps(w, current), Span(horizon);
            && ThermalPart(e, f, w, current, horizon)
               == WarmingSum(e, f.temp.value, k, n) + Times(HARD_CONSTRAINT_COST - Ceiling(e), Mass(n))
  {
    var k, n, temp := Steps(w, current), Span(horizon), f.temp.value;
    CostsOverCeiling(e, f, w, k, n);
    WeightedLinear(Discounts(n), Warming(e, temp, k, n), TempCosts(e, f, w, k, n), 1.0, HARD_CONSTRAINT_COST - Ceiling(e));
    WeightedAffine(Times(k as real, e.tempEffect), temp, n);
  }

  /** Without a usable ceiling, or without a forecast, every wide candidate pays the hard constraint at
      every step exactly when the ceiling is unusable. */
  lemma ThermalPartWithoutForecast(e: Env, f: Forecast, w: Width, current: Width, horizon: nat)
    requires f.temp.None?
    ensures ThermalPart(e, f, w, current, horizon)
         == if !UsableCeiling(e) && IsWide(w) then Times(HARD_CONSTRAINT_COST, Mass(Span(horizon))) else 0.0
  {
    var k, n := Steps(w, current), Span(horizon);
    if !UsableCeiling(e) && IsWide(w) {
      forall i | 0 <= i < n ensures TempCosts(e, f, w, k, n)[i] == Scaled(HARD_CONSTRAINT_COST, Ones(n))[i] {
      }
      assert TempCosts(e, f, w, k, n) == Scaled(HARD_CONSTRAINT_COST, Ones(n));
      WeightedScaled(Discounts(n), Ones(n), HARD_CONSTRAINT_COST);
    } else {
      WeightedZero(Discounts(n), TempCosts(e, f, w, k, n));
    }
  }

  // ---------------------------------------------------------------- the penalty

  /** The same environment with other penalties. */
  function Repriced(e: Env, down: real, up: real): (r: Env) {
    e.(penaltyDown := down, penaltyUp := up)
  }

  lemma RolloutIgnoresPenalties(e: Env, f: Forecast, w: Width, k: int, n: nat, down: real, up: real)
    ensures RolloutCost(Repriced(e, down, up), f, w, k, n) == RolloutCost(e, f, w, k, n)
  {
    var e' := Repriced(e, down, up);
    forall i | 0 <= i < n ensures StepCosts(e', f, w, k, n)[i] == StepCosts(e, f, w, k, n)[i] {
      StepIgnoresPenalties(e, f, w, k, i + 1, Response(i + 1), down, up);
    }
    assert StepCosts(e', f, w, k, n) == StepCosts(e, f, w, k, n);
  }

  lemma StepIgnoresPenalties(e: Env, f: Forecast, w: Width, k: int, step: nat, response: real, down: real, up: real)
    ensures var e' := Repriced(e, down, up);
            && RatioCost(e', RatioProjection(e', f, k, step, response)) == RatioCost(e, RatioProjection(e, f, k, step, response))
            && TempCost(e', f, w, k, response) == TempCost(e, f, w, k, response)
  {
  }

  /** What a change of k widths is charged. */
  function Charge(e: Env, current: Width, w: Width): (r: real) {
    if Index(w) > Index(current) then Times(e.penaltyUp, (Index(w) - Index(current)) as real)
    else Times(e.penaltyDown, (Index(current) - Index(w)) as real)
  }

  lemma PenaltyIsCharge(e: Env, current: Width, w: Width)
    ensures TransitionPenalty(e, w, current) == Charge(e, current, w)
  {
  }

  /** Main result: a widening score moves with the upgrade penalty, once per width, and not with the downgrade
      penalty; a narrowing score the other way round; the current width with neither. */
  lemma ScoreMovesWithOwnPenalty(e: Env, f: Forecast, w: Width, current: Width, horizon: nat, down: real, up: real)
    ensures Score(Repriced(e, down, up), f, w, current, horizon) - Score(e, f, w, current, horizon)
         == if Index(w) > Index(current) then Times(up - e.penaltyUp, (Index(w) - Index(current)) as real)
            else Times(down - e.penaltyDown, (Index(current) - Index(w)) as real)
  {
    RolloutIgnoresPenalties(e, f, w, Steps(w, current), Span(horizon), down, up);
    PenaltyIsCharge(e, current, w);
    PenaltyIsCharge(Repriced(e, down, up), current, w);
    ChargeMoves(e, current, w, down, up);
    ScoreSplits(e, f, w, current, horizon);
    ScoreSplits(Repriced(e, down, up), f, w, current, horizon);
  }

  lemma ScoreSplits(e: Env, f: Forecast, w: Width, current: Width, horizon: nat)
    ensures Score(e, f, w, current, horizon)
         == RolloutCost(e, f, w, Steps(w, current), Span(horizon)) + TransitionPenalty(e, w, current)
  {
  }

  lemma ChargeMoves(e: Env, current: Width, w: Width, down: real, up: real)
    ensures Charge(Repriced(e, down, up), current, w) - Charge(e, current, w)
         == if Index(w) > Index(current) then Times(up - e.penaltyUp, (Index(w) - Index(current)) as real)
            else Times(down - e.penaltyDown, (Index(current) - Index(w)) as real)
  {
  }

  /** What a change saves in the rollout. */
  function Saving(e: Env, f: Forecast, current: Width, w: Width, horizon: nat): (r: real) {
    RolloutCost(e, f, current, 0, Span(horizon)) - RolloutCost(e, f, w, Steps(w, current), Span(horizon))
  }

  lemma ScoreGap(e: Env, f: Forecast, current: Width, w: Width, horizon: nat)
    ensures Score(e, f, current, current, horizon) - Score(e, f, w, current, horizon)
         == Saving(e, f, current, w, horizon) - Charge(e, current, w)
  {
    PenaltyIsCharge(e, current, w);
    SamePenalty(e, current);
  }

  /** Main result: with AVX2 as the widest width, widening to it is recommended exactly when it saves the
      upgrade penalty and the minimum improvement. */
  lemma WideningPaysExactlyWhen(e: Env, f: Forecast, horizon: nat)
    ensures Decision(Scores(e, f, Sse41, horizon), Sse41, Avx2) == Some(Avx2) <==>
      Saving(e, f, Sse41, Avx2, horizon) >= e.penaltyUp + 1.0
  {
    ScoreGap(e, f, Sse41, Avx2, horizon);
    assert Charge(e, Sse41, Avx2) == e.penaltyUp;
    TwoWidths(Scores(e, f, Sse41, horizon), Sse41, Avx2);
  }

  /** Main result: narrowing from it is recommended exactly when it saves the downgrade penalty and the minimum
      improvement. */
  lemma NarrowingPaysExactlyWhen(e: Env, f: Forecast, horizon: nat)
    ensures Decision(Scores(e, f, Avx2, horizon), Avx2, Avx2) == Some(Sse41) <==>
      Saving(e, f, Avx2, Sse41, horizon) >= e.penaltyDown + 1.0
  {
    ScoreGap(e, f, Avx2, Sse41, horizon);
    assert Charge(e, Avx2, Sse41) == e.penaltyDown;
    TwoWidths(Scores(e, f, Avx2, horizon), Avx2, Sse41);
  }

  lemma TwoWidths(costs: Width -> real, current: Width, w: Width)
    requires (current == Sse41 && w == Avx2) || (current == Avx2 && w == Sse41)
    ensures Decision(costs, current, Avx2) == Some(w) <==> costs(current) - costs(w) >= 1.0
  {
  }

  /** Every recommended change, of one width or two, saves its own penalty and the minimum improvement. */
  lemma ChangePaysItsPenalty(e: Env, f: Forecast, current: Width, max: Width, w: Width, horizon: nat)
    requires Index(current) <= Index(max) && Decision(Scores(e, f, current, horizon), current, max) == Some(w)
    ensures Saving(e, f, current, w, horizon)
         >= 1.0 + Charge(e, current, w)
  {
    DecisionIsNearlyOptimal(Scores(e, f, current, horizon), current, max, current);
    ScoreGap(e, f, current, w, horizon);
  }
}
