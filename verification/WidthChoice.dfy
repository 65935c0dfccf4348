/** The choice among widths by rollout cost, and exactly when a width projected over the thermal
    ceiling can be chosen. */
module WidthChoice {

  import opened SimdWidth
  import opened Rollout

  // ---------------------------------------------------------------- choosing by cost

  /** The best candidate so far; no cost yet stands for infinity. */
  datatype Best = Best(width: Width, cost: Option<real>)

  function Consider(best: Best, w: Width, cost: real, max: Width): (r: Best) {
    if Index(w) > Index(max) then best
    else if best.cost.None? || cost + STABILITY_MARGIN < best.cost.value then Best(w, Some(cost))
    else best
  }

  /** The current width first, then every width in order. */
  function Choose(costs: Width -> real, current: Width, max: Width): (r: Best) {
    var a := Consider(Best(current, None), current, costs(current), max);
    var b := Consider(a, Sse41, costs(Sse41), max);
    var c := Consider(b, Avx2, costs(Avx2), max);
    Consider(c, Avx512, costs(Avx512), max)
  }

  predicate Allowed(w: Width, max: Width) {
    Index(w) <= Index(max)
  }

  /** Main result: the chosen cost is attained by an allowed width and is within the stability
      margin of the minimum over all allowed widths. */
  lemma ChosenWithinMargin(costs: Width -> real, current: Width, max: Width, w: Width)
    requires Allowed(w, max)
    ensures var best := Choose(costs, current, max);
            && best.cost == Some(costs(best.width)) && Allowed(best.width, max)
            && best.cost.value <= costs(w) + STABILITY_MARGIN
  {
  }

  function Decision(costs: Width -> real, current: Width, max: Width): (r: Option<Width>) {
    var best := Choose(costs, current, max);
    if best.width == current || best.cost.None? then None
    else if costs(current) - best.cost.value < MIN_IMPROVEMENT then None
    else Some(best.width)
  }

  /** A change improves the cost by at least the minimum improvement; keeping an allowed current
      width is within 1.25 of the best any allowed width could do. */
  lemma DecisionIsNearlyOptimal(costs: Width -> real, current: Width, max: Width, w: Width)
    requires Allowed(w, max)
    ensures match Decision(costs, current, max)
            case Some(d) =>
              && d != current && Allowed(d, max)
              && costs(d) <= costs(current) - MIN_IMPROVEMENT && costs(d) <= costs(w) + STABILITY_MARGIN
            case None => costs(current) <= costs(w) + STABILITY_MARGIN + MIN_IMPROVEMENT
  {
    ChosenWithinMargin(costs, current, max, w);
  }

  /** Main result: from the narrowest width, and from the widest, the decision in terms of the three costs. A
      later candidate replaces an earlier one only when it is better by more than the stability margin. */
  lemma WideningChoosesExactly(costs: Width -> real)
    ensures Decision(costs, Sse41, Avx512) == Some(Avx2) <==>
      costs(Sse41) - costs(Avx2) >= 1.0 && costs(Avx2) - costs(Avx512) <= 0.25
    ensures Decision(costs, Sse41, Avx512) == Some(Avx512) <==>
      costs(Sse41) - costs(Avx512) >= 1.0 && costs(Avx2) - costs(Avx512) > 0.25
  {
  }

  lemma NarrowingChoosesExactly(costs: Width -> real)
    ensures Decision(costs, Avx512, Avx512) == Some(Sse41) <==>
      costs(Avx512) - costs(Sse41) >= 1.0 && costs(Sse41) - costs(Avx2) <= 0.25
    ensures Decision(costs, Avx512, Avx512) == Some(Avx2) <==>
      costs(Avx512) - costs(Avx2) >= 1.0 && costs(Sse41) - costs(Avx2) > 0.25
  {
  }

  // ---------------------------------------------------------------- the thermal ceiling

  lemma ProductNonNegative(x: real, y: real)
    requires x >= 0.0 && y >= 0.0
    ensures x * y >= 0.0
  {
  }

  /** A projection over the ceiling at the first step stays over it. */
  lemma StaysOverCeiling(e: Env, temp: real, k: int, response: real)
    requires WellFormed(e) && k >= 0 && response >= 0.5
    ensures TempProjection(e, temp, k, 0.5) <= TempProjection(e, temp, k, response)
  {
    TimesMonotone(0.0, k as real, e.tempEffect);
    TimesMonotone(0.5, response, Times(k as real, e.tempEffect));
  }

  /** The ratio cost grows at most 4.05 per unit of projection. */
  lemma RatioCostLipschitz(e: Env, low: real, high: real)
    requires low <= high
    ensures RatioCost(e, high) - RatioCost(e, low) <= 4.05 * (high - low)
  {
  }

  lemma EffectBound(k: real, benefit: real, response: real)
    requires 0.0 <= k <= 2.0 && benefit >= 0.0 && 0.0 <= response <= 1.0
    ensures 0.0 <= Times(Times(k, benefit), response) <= 2.0 * benefit
  {
    TimesMonotone(0.0, k, benefit);
    TimesMonotone(k, 2.0, benefit);
    var a := Times(k, benefit);
    TimesMonotone(0.0, a, response);
    TimesMonotone(response, 1.0, a);
  }

  lemma Max0Gap(base: real, effect: real, bound: real)
    requires 0.0 <= effect <= bound
    ensures Max0(base - effect) <= Max0(base) <= Max0(base - effect) + bound
  {
  }

  lemma PenaltyNonNegative(e: Env, w: Width, current: Width)
    requires WellFormed(e)
    ensures TransitionPenalty(e, w, current) >= 0.0
  {
    var k := Steps(w, current);
    if k < 0 {
      ProductNonNegative(e.penaltyDown, (-k) as real);
    } else {
      ProductNonNegative(e.penaltyUp, k as real);
    }
  }

  function Scores(e: Env, f: Forecast, current: Width, horizon: nat): (r: Width -> real) {
    w => Score(e, f, w, current, horizon)
  }

  // ---------------------------------------------------------------- the exact benefit

  function Responses(n: nat): (r: seq<real>)
    ensures |r| == n && forall i :: 0 <= i < n ==> r[i] == Response(i + 1)
  {
    seq(n, i requires 0 <= i < n => Response(i + 1))
  }

  function Ones(n: nat): (r: seq<real>)
    ensures |r| == n && forall i :: 0 <= i < n ==> r[i] == 1.0
  {
    seq(n, i requires 0 <= i < n => 1.0)
  }

  /** The discounted sums of the actuator response and of 1 over a rollout of n steps. */
  function Reach(n: nat): (r: real) {
    Weighted(Discounts(n), Responses(n))
  }

  function Mass(n: nat): (r: real) {
    Weighted(Discounts(n), Ones(n))
  }

  /** The largest saving two width steps can bring against the hard constraint of every step. */
  function LargestSaving(benefit: real, n: nat): (r: real) {
    Times(8.1 * benefit, Reach(n)) - Times(HARD_CONSTRAINT_COST, Mass(n))
  }

  function Scaled(x: real, rs: seq<real>): (r: seq<real>)
    ensures |r| == |rs| && forall i :: 0 <= i < |rs| ==> r[i] == Times(x, rs[i])
  {
    seq(|rs|, i requires 0 <= i < |rs| => Times(x, rs[i]))
  }

  /** One more term of a scaled sum. */
  lemma ScaledTerm(x: real, sum: real, w: real, r: real)
    ensures Times(x, sum) + w * Times(x, r) == Times(x, sum + w * r)
  {
    assert w * (x * r) == x * (w * r);
    assert x * (sum + w * r) == x * sum + x * (w * r);
  }

  lemma {:induction false} WeightedScaled(weights: seq<real>, rs: seq<real>, x: real)
    requires |weights| == |rs|
    ensures Weighted(weights, Scaled(x, rs)) == Times(x, Weighted(weights, rs))
  {
    if rs != [] {
      var n := |rs| - 1;
      WeightedScaled(weights[..n], rs[..n], x);
      assert Scaled(x, rs)[..n] == Scaled(x, rs[..n]);
      ScaledTerm(x, Weighted(weights[..n], rs[..n]), weights[n], rs[n]);
    }
  }

  function Affine(slope: real, level: real, n: nat): (r: seq<real>)
    ensures |r| == n && forall i :: 0 <= i < n ==> r[i] == Times(slope, Response(i + 1)) + level
  {
    Sums(Scaled(slope, Responses(n)), Scaled(level, Ones(n)))
  }

  lemma WeightedAffine(slope: real, level: real, n: nat)
    ensures Weighted(Discounts(n), Affine(slope, level, n)) == Times(slope, Reach(n)) + Times(level, Mass(n))
  {
    WeightedSum(Discounts(n), Scaled(slope, Responses(n)), Scaled(level, Ones(n)));
    WeightedScaled(Discounts(n), Responses(n), slope);
    WeightedScaled(Discounts(n), Ones(n), level);
  }

  lemma {:induction false} MassAtLeastOne(n: nat)
    requires n > 0
    ensures Mass(n) >= 1.0
  {
    assert Discounts(n)[..n - 1] == Discounts(n - 1) && Ones(n)[..n - 1] == Ones(n - 1);
    if n > 1 {
      MassAtLeastOne(n - 1);
    } else {
      assert Weighted(Discounts(0), Ones(0)) == 0.0 && Discount(1) == 1.0;
    }
  }

  lemma {:induction false} ReachPositive(n: nat)
    requires n > 0
    ensures Reach(n) > 0.0
  {
    ReachNext(n);
    StepReachesPositive(n);
    if n > 1 {
      ReachPositive(n - 1);
    } else {
      assert Weighted(Discounts(0), Responses(0)) == 0.0;
    }
  }

  lemma ReachNext(n: nat)
    requires n > 0
    ensures Reach(n) == Reach(n - 1) + Times(Discount(n), Response(n))
  {
    var weights, costs := Discounts(n), Responses(n);
    WeightedLast(weights, costs, n - 1);
    assert weights[..n - 1] == Discounts(n - 1);
    assert costs[..n - 1] == Responses(n - 1);
  }

  lemma WeightedLast(weights: seq<real>, costs: seq<real>, n: nat)
    requires |weights| == |costs| == n + 1
    ensures Weighted(weights, costs) == Weighted(weights[..n], costs[..n]) + Times(weights[n], costs[n])
  {
  }

  lemma StepReachesPositive(n: nat)
    requires n > 0
    ensures Times(Discount(n), Response(n)) > 0.0
  {
    ProductIsPositive(Discount(n), Response(n));
  }

  lemma ProductIsPositive(x: real, y: real)
    requires x > 0.0 && y > 0.0
    ensures Times(x, y) > 0.0
  {
  }

  /** Per step, a width over the ceiling by `excess` at the first step saves at most this much. */
  lemma SavingPerStep(e: Env, f: Forecast, w: Width, current: Width, k: int, n: nat, i: nat, excess: real)
    requires WellFormed(e) && CeilingValid(e) && 0 < k <= 2 && i < n && f.temp.Some? && excess > 0.0
    requires f.temp.value <= Ceiling(e) && TempProjection(e, f.temp.value, k, 0.5) == Ceiling(e) + excess
    ensures StepCosts(e, f, current, 0, n)[i]
         <= StepCosts(e, f, w, k, n)[i] + Times(8.1 * e.benefit, Response(i + 1)) - (HARD_CONSTRAINT_COST + excess)
  {
    var response := Response(i + 1);
    OverCeilingTempExcess(e, f, w, current, k, response, excess);
    RatioSaving(e, f, k, i + 1, response);
  }

  lemma OverCeilingTempExcess(e: Env, f: Forecast, w: Width, current: Width, k: int, response: real, excess: real)
    requires WellFormed(e) && CeilingValid(e) && k > 0 && response >= 0.5 && f.temp.Some? && excess > 0.0
    requires f.temp.value <= Ceiling(e) && TempProjection(e, f.temp.value, k, 0.5) == Ceiling(e) + excess
    ensures TempCost(e, f, w, k, response) >= TempCost(e, f, current, 0, response) + HARD_CONSTRAINT_COST + excess
  {
    StaysOverCeiling(e, f.temp.value, k, response);
    assert TempProjection(e, f.temp.value, 0, response) == f.temp.value;
  }

  lemma RatioSaving(e: Env, f: Forecast, k: int, step: nat, response: real)
    requires WellFormed(e) && 0 <= k <= 2 && 0.0 <= response <= 1.0
    ensures RatioCost(e, RatioProjection(e, f, 0, step, response))
         <= RatioCost(e, RatioProjection(e, f, k, step, response)) + Times(8.1 * e.benefit, response)
  {
    var base := f.ratio + f.trend * e.trendWeight * step as real;
    var effect := Times(Times(k as real, e.benefit), response);
    EffectBound(k as real, e.benefit, response);
    TimesMonotone(k as real, 2.0, e.benefit);
    TimesMonotone(Times(k as real, e.benefit), Times(2.0, e.benefit), response);
    Max0Gap(base, effect, effect);
    assert RatioProjection(e, f, 0, step, response) == Max0(base);
    RatioCostLipschitz(e, Max0(base - effect), Max0(base));
    SlopeOfTwoSteps(e.benefit, response);
  }

  lemma SlopeOfTwoSteps(benefit: real, response: real)
    ensures 4.05 * Times(Times(2.0, benefit), response) == Times(8.1 * benefit, response)
  {
  }

  function SavingBound(e: Env, excess: real, n: nat): (r: seq<real>)
    ensures |r| == n
  {
    Affine(8.1 * e.benefit, -(HARD_CONSTRAINT_COST + excess), n)
  }

  lemma RolloutBounded(e: Env, f: Forecast, w: Width, current: Width, k: int, n: nat, excess: real)
    requires WellFormed(e) && CeilingValid(e) && 0 < k <= 2 && f.temp.Some? && excess > 0.0
    requires f.temp.value <= Ceiling(e) && TempProjection(e, f.temp.value, k, 0.5) == Ceiling(e) + excess
    ensures RolloutCost(e, f, current, 0, n)
         <= RolloutCost(e, f, w, k, n) + Weighted(Discounts(n), SavingBound(e, excess, n))
  {
    var bound := Sums(StepCosts(e, f, w, k, n), SavingBound(e, excess, n));
    forall i | 0 <= i < n ensures StepCosts(e, f, current, 0, n)[i] <= bound[i] {
      SavingPerStep(e, f, w, current, k, n, i, excess);
    }
    WeightedMonotone(Discounts(n), StepCosts(e, f, current, 0, n), bound);
    WeightedSum(Discounts(n), StepCosts(e, f, w, k, n), SavingBound(e, excess, n));
  }

  lemma Negated(x: real, m: real)
    ensures Times(-x, m) == -Times(x, m)
  {
  }

  lemma BoundBelowLargestSaving(e: Env, excess: real, n: nat)
    requires n > 0 && excess > 0.0
    ensures Weighted(Discounts(n), SavingBound(e, excess, n)) < LargestSaving(e.benefit, n)
  {
    WeightedAffine(8.1 * e.benefit, -(HARD_CONSTRAINT_COST + excess), n);
    Negated(HARD_CONSTRAINT_COST + excess, Mass(n));
    MassAtLeastOne(n);
    ExcessCosts(excess, Mass(n));
  }

  /** A rollout over the ceiling saves less than the largest saving of its horizon. */
  lemma RolloutSaving(e: Env, f: Forecast, w: Width, current: Width, k: int, n: nat)
    requires WellFormed(e) && CeilingValid(e) && 0 < k <= 2 && n > 0 && f.temp.Some?
    requires f.temp.value <= Ceiling(e) < TempProjection(e, f.temp.value, k, 0.5)
    ensures RolloutCost(e, f, current, 0, n) - RolloutCost(e, f, w, k, n) < LargestSaving(e.benefit, n)
  {
    var excess := TempProjection(e, f.temp.value, k, 0.5) - Ceiling(e);
    RolloutBounded(e, f, w, current, k, n, excess);
    BoundBelowLargestSaving(e, excess, n);
  }

  lemma ExcessCosts(excess: real, mass: real)
    requires excess > 0.0 && mass >= 1.0
    ensures Times(HARD_CONSTRAINT_COST + excess, mass) > Times(HARD_CONSTRAINT_COST, mass)
  {
    ScaleMonotone(excess, 1.0, mass);
  }

  /** Main result, necessity: such a width is recommended only when the largest saving of the horizon
      exceeds the minimum improvement. */
  lemma OverCeilingNeedsLargeBenefit(e: Env, f: Forecast, w: Width, current: Width, max: Width, horizon: nat)
    requires WellFormed(e) && CeilingValid(e) && Index(current) < Index(w) <= Index(max) && f.temp.Some?
    requires f.temp.value <= Ceiling(e) < TempProjection(e, f.temp.value, Steps(w, current), Response(1))
    requires Decision(Scores(e, f, current, horizon), current, max) == Some(w)
    ensures LargestSaving(e.benefit, Span(horizon)) > MIN_IMPROVEMENT
  {
    assert Response(1) == 0.5;
    DecisionIsNearlyOptimal(Scores(e, f, current, horizon), current, max, w);
    RolloutSaving(e, f, w, current, Steps(w, current), Span(horizon));
    PenaltyNonNegative(e, w, current);
    SamePenalty(e, current);
  }

  // Sufficiency: a forecast at the ceiling, a ratio high enough to use the whole benefit, and a
  // width effect small enough to leave exactly the minimum improvement.

  function BoundaryEnv(benefit: real, effect: real): (e: Env) {
    Env(0.0, 0.0, 0.0, 0.0, 100, 0.0, effect, benefit)
  }

  function BoundaryForecast(benefit: real): (f: Forecast) {
    Forecast(2.0 * benefit, 0.0, Some(100000.0))
  }

  function Hard(k: int): (r: real) {
    if k > 0 then HARD_CONSTRAINT_COST else 0.0
  }

  function BoundarySlope(k: int, benefit: real, effect: real): (r: real) {
    Times(k as real, effect) - 4.05 * Times(k as real, benefit)
  }

  /** Step i of the boundary case for k width steps. */
  lemma BoundaryStep(benefit: real, effect: real, w: Width, k: int, n: nat, i: nat)
    requires benefit >= 0.0 && effect > 0.0 && i < n && k == Steps(w, Sse41)
    ensures StepCosts(BoundaryEnv(benefit, effect), BoundaryForecast(benefit), w, k, n)[i]
         == Times(BoundarySlope(k, benefit, effect), Response(i + 1)) + 8.1 * benefit + Hard(k)
  {
    var e, f, r := BoundaryEnv(benefit, effect), BoundaryForecast(benefit), Response(i + 1);
    EffectBound(k as real, benefit, r);
    var a, b := Times(k as real, effect), Times(k as real, benefit);
    assert RatioProjection(e, f, k, i + 1, r) == 2.0 * benefit - Times(b, r);
    assert Ceiling(e) == 100000.0;
    if k > 0 {
      TimesMonotone(1.0, k as real, effect);
      TimesMonotone(0.5, r, a);
      TimesMonotone(effect, a, 0.5);
    }
    SplitSlope(a, b, r);
  }

  lemma SplitSlope(a: real, b: real, r: real)
    ensures Times(a - 4.05 * b, r) == Times(a, r) - 4.05 * Times(b, r)
  {
  }

  function BoundaryTotal(k: int, benefit: real, effect: real, reach: real, mass: real): (r: real) {
    Times(BoundarySlope(k, benefit, effect), reach) + Times(8.1 * benefit + Hard(k), mass)
  }

  lemma BoundaryRollout(benefit: real, effect: real, w: Width, k: int, n: nat)
    requires benefit >= 0.0 && effect > 0.0 && k == Steps(w, Sse41)
    ensures RolloutCost(BoundaryEnv(benefit, effect), BoundaryForecast(benefit), w, k, n)
         == BoundaryTotal(k, benefit, effect, Reach(n), Mass(n))
  {
    var costs := StepCosts(BoundaryEnv(benefit, effect), BoundaryForecast(benefit), w, k, n);
    var affine := Affine(BoundarySlope(k, benefit, effect), 8.1 * benefit + Hard(k), n);
    forall i | 0 <= i < n ensures costs[i] == affine[i] {
      BoundaryStep(benefit, effect, w, k, n, i);
    }
    assert costs == affine;
    WeightedAffine(BoundarySlope(k, benefit, effect), 8.1 * benefit + Hard(k), n);
  }

  lemma BoundaryScore(benefit: real, effect: real, w: Width, k: int, horizon: nat)
    requires benefit >= 0.0 && effect > 0.0 && k == Steps(w, Sse41)
    ensures Score(BoundaryEnv(benefit, effect), BoundaryForecast(benefit), w, Sse41, horizon)
         == BoundaryTotal(k, benefit, effect, Reach(Span(horizon)), Mass(Span(horizon)))
  {
    BoundaryRollout(benefit, effect, w, k, Span(horizon));
    NoPenalty(BoundaryEnv(benefit, effect), w);
  }

  lemma NoPenalty(e: Env, w: Width)
    requires e.penaltyUp == 0.0 && e.penaltyDown == 0.0
    ensures TransitionPenalty(e, w, Sse41) == 0.0
  {
  }

  /** The effect that leaves a saving of exactly 1 for two steps, and a loss for one. */
  lemma BoundaryTotals(benefit: real, reach: real, mass: real, effect: real)
    requires reach > 0.0 && mass >= 1.0
    requires effect == (Times(8.1 * benefit, reach) - Times(HARD_CONSTRAINT_COST, mass) - 1.0) / (2.0 * reach)
    ensures BoundaryTotal(2, benefit, effect, reach, mass) == BoundaryTotal(0, benefit, effect, reach, mass) - 1.0
    ensures BoundaryTotal(1, benefit, effect, reach, mass) >= BoundaryTotal(0, benefit, effect, reach, mass)
  {
    QuotientTimes(Times(8.1 * benefit, reach) - Times(HARD_CONSTRAINT_COST, mass) - 1.0, 2.0 * reach, effect);
    var half := (effect - 4.05 * benefit) * reach;
    assert 2.0 * half == effect * (2.0 * reach) - Times(8.1 * benefit, reach);
    TotalDifference(1, benefit, effect, reach, mass);
    TotalDifference(2, benefit, effect, reach, mass);
  }

  lemma QuotientTimes(x: real, y: real, q: real)
    requires y > 0.0 && q == x / y
    ensures q * y == x
  {
  }

  lemma TotalDifference(k: int, benefit: real, effect: real, reach: real, mass: real)
    requires 1 <= k <= 2
    ensures BoundaryTotal(k, benefit, effect, reach, mass)
         == BoundaryTotal(0, benefit, effect, reach, mass) + k as real * ((effect - 4.05 * benefit) * reach)
            + Times(HARD_CONSTRAINT_COST, mass)
  {
    assert Times(k as real, effect) - 4.05 * Times(k as real, benefit) == k as real * (effect - 4.05 * benefit);
    assert Times(8.1 * benefit + HARD_CONSTRAINT_COST, mass) == Times(8.1 * benefit, mass) + Times(HARD_CONSTRAINT_COST, mass);
  }

  lemma TwoStepWinner(costs: Width -> real)
    requires costs(Avx512) == costs(Sse41) - 1.0 && costs(Avx2) >= costs(Sse41)
    ensures Decision(costs, Sse41, Avx512) == Some(Avx512)
  {
  }

  /** Main result, sufficiency: for every benefit whose largest saving exceeds the minimum improvement
      there is a configuration and a forecast in which AVX-512, over the ceiling at the first step, is
      recommended from SSE4.1 while the forecast itself is at the ceiling. */
  lemma LargeBenefitOutweighsCeiling(benefit: real, horizon: nat) returns (e: Env, f: Forecast)
    requires benefit >= 0.0 && LargestSaving(benefit, Span(horizon)) > MIN_IMPROVEMENT
    ensures WellFormed(e) && CeilingValid(e) && e.benefit == benefit && f.temp.Some?
    ensures f.temp.value <= Ceiling(e) < TempProjection(e, f.temp.value, Steps(Avx512, Sse41), Response(1))
    ensures Decision(Scores(e, f, Sse41, horizon), Sse41, Avx512) == Some(Avx512)
  {
    var n := Span(horizon);
    ReachPositive(n);
    MassAtLeastOne(n);
    var effect := (LargestSaving(benefit, n) - 1.0) / (2.0 * Reach(n));
    PositiveQuotient(LargestSaving(benefit, n) - 1.0, 2.0 * Reach(n));
    e, f := BoundaryEnv(benefit, effect), BoundaryForecast(benefit);
    BoundaryScore(benefit, effect, Sse41, 0, horizon);
    BoundaryScore(benefit, effect, Avx2, 1, horizon);
    BoundaryScore(benefit, effect, Avx512, 2, horizon);
    BoundaryTotals(benefit, Reach(n), Mass(n), effect);
    TwoStepWinner(Scores(e, f, Sse41, horizon));
    assert Response(1) == 0.5;
    assert Times(Times(2.0, effect), 0.5) == effect;
  }

  lemma PositiveQuotient(x: real, y: real)
    requires x > 0.0 && y > 0.0
    ensures x / y > 0.0
  {
  }

  /** Every benefit of at most 10^9 / 8.1 is below the threshold of every horizon. */
  lemma SmallBenefitSavesNothing(benefit: real, n: nat)
    requires 0.0 <= 8.1 * benefit <= HARD_CONSTRAINT_COST
    ensures LargestSaving(benefit, n) <= 0.0
  {
    assert Reach(n) <= Mass(n) by { WeightedMonotone(Discounts(n), Responses(n), Ones(n)); }
    assert Mass(n) >= 0.0 by { if n > 0 { MassAtLeastOne(n); } }
    TimesMonotone(Reach(n), Mass(n), 8.1 * benefit);
    TimesMonotone(8.1 * benefit, HARD_CONSTRAINT_COST, Mass(n));
  }

  /** Main result: with a per-step benefit of at most 10^9 / 8.1, and so with every benefit below
      10^7, such a width is never recommended, whatever the horizon. */
  lemma OverCeilingIsNeverRecommended(e: Env, f: Forecast, w: Width, current: Width, max: Width, horizon: nat)
    requires WellFormed(e) && CeilingValid(e) && 8.1 * e.benefit <= HARD_CONSTRAINT_COST
    requires Index(current) < Index(w) <= Index(max)
    requires f.temp.Some?
    requires f.temp.value <= Ceiling(e) < TempProjection(e, f.temp.value, Steps(w, current), Response(1))
    ensures Decision(Scores(e, f, current, horizon), current, max) != Some(w)
  {
    if Decision(Scores(e, f, current, horizon), current, max) == Some(w) {
      OverCeilingNeedsLargeBenefit(e, f, w, current, max, horizon);
      SmallBenefitSavesNothing(e.benefit, Span(horizon));
      assert false;
    }
  }
}
