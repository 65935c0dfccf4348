/** The controller's sample history and forecasts, and the dispatcher policy that gates its
    advice. The fitted model's prediction is an input. */
module PolicyState {

  import opened SimdWidth
  import opened Rollout
  import opened WidthChoice

  datatype Sample = Sample(ratio: real, trimmed: real, temp: Option<real>, timestamp: int)

  function LastOf<T>(s: seq<T>, n: nat): (r: seq<T>)
    ensures |r| == if |s| < n then |s| else n
    ensures forall i :: 0 <= i < |r| ==> r[i] == s[|s| - |r| + i]
  {
    if |s| <= n then s else s[|s| - n..]
  }

  function ControlRatio(s: Sample): (r: real) {
    if s.trimmed > 0.0 then s.trimmed else s.ratio
  }

  function TotalRatio(s: seq<Sample>): (r: real) {
    if s == [] then 0.0 else TotalRatio(s[..|s| - 1]) + ControlRatio(s[|s| - 1])
  }

  function ValidTemps(s: seq<Sample>): (r: seq<real>) {
    if s == [] then []
    else
      var before := ValidTemps(s[..|s| - 1]);
      match s[|s| - 1].temp
      case None => before
      case Some(t) => before + [t]
  }

  function Total(s: seq<real>): (r: real) {
    if s == [] then 0.0 else Total(s[..|s| - 1]) + s[|s| - 1]
  }

  /** The mean of the last samples, or 0 without any. */
  function ForecastRatio(history: seq<Sample>, horizon: nat): (r: real) {
    var recent := LastOf(history, horizon);
    if recent == [] then 0.0 else TotalRatio(recent) / |recent| as real
  }

  /** A model prediction is never below the latest measurement; without one, the mean of the
      measured temperatures, or none. */
  function ForecastTemp(history: seq<Sample>, horizon: nat, prediction: Option<real>): (r: Option<real>)
    requires history != [] && horizon > 0
    ensures prediction.Some? && history[|history| - 1].temp.Some? ==>
              r.Some? && r.value >= history[|history| - 1].temp.value && r.value >= prediction.value
  {
    match prediction
    case Some(p) =>
      var latest := history[|history| - 1].temp;
      if latest.Some? && latest.value > p then latest else Some(p)
    case None =>
      var temps := ValidTemps(LastOf(history, horizon));
      if temps == [] then None else Some(Total(temps) / |temps| as real)
  }

  function Trend(history: seq<Sample>, horizon: nat): (r: real)
    requires 0 < horizon <= |history|
  {
    if horizon > 1
    then (history[|history| - 1].ratio - history[|history| - horizon].ratio) / (horizon - 1) as real
    else 0.0
  }

  /** The forecast of a non-empty history over its usable horizon. */
  function ForecastOf(history: seq<Sample>, horizon: nat, prediction: Option<real>): (f: Forecast)
    requires 0 < horizon <= |history|
  {
    Forecast(ForecastRatio(history, horizon), Trend(history, horizon), ForecastTemp(history, horizon, prediction))
  }

  // ---------------------------------------------------------------- what a forecast means

  /** Every sample controls with a ratio in the range: its trimmed ratio if that is positive, its raw
      ratio otherwise. */
  predicate ControlsWithin(s: seq<Sample>, lo: real, hi: real) {
    forall i :: 0 <= i < |s| ==>
      && (s[i].trimmed > 0.0 ==> lo <= s[i].trimmed <= hi)
      && (s[i].trimmed <= 0.0 ==> lo <= s[i].ratio <= hi)
  }

  predicate AllWithin(xs: seq<real>, lo: real, hi: real) {
    forall i :: 0 <= i < |xs| ==> lo <= xs[i] <= hi
  }

  function Controls(s: seq<Sample>): (r: seq<real>)
    ensures |r| == |s| && forall i :: 0 <= i < |s| ==> r[i] == ControlRatio(s[i])
  {
    seq(|s|, i requires 0 <= i < |s| => ControlRatio(s[i]))
  }

  lemma {:induction false} TotalOfControls(s: seq<Sample>)
    ensures TotalRatio(s) == Total(Controls(s))
  {
    if s != [] {
      TotalOfControls(s[..|s| - 1]);
      assert Controls(s)[..|s| - 1] == Controls(s[..|s| - 1]);
    }
  }

  lemma TimesNext(x: real, n: nat)
    ensures Times(x, (n + 1) as real) == Times(x, n as real) + x
  {
  }

  lemma {:induction false} TotalWithin(xs: seq<real>, lo: real, hi: real)
    requires AllWithin(xs, lo, hi)
    ensures Times(lo, |xs| as real) <= Total(xs) <= Times(hi, |xs| as real)
  {
    if xs != [] {
      var n := |xs| - 1;
      TotalWithin(xs[..n], lo, hi);
      TimesNext(lo, n);
      TimesNext(hi, n);
    }
  }

  lemma TimesStrict(x: real, y: real, n: real)
    requires n > 0.0 && x < y
    ensures Times(x, n) < Times(y, n)
  {
  }

  lemma MeanWithin(total: real, n: real, q: real, lo: real, hi: real)
    requires n > 0.0 && Times(q, n) == total && Times(lo, n) <= total <= Times(hi, n)
    ensures lo <= q <= hi
  {
    if q < lo {
      TimesStrict(q, lo, n);
    }
    if hi < q {
      TimesStrict(hi, q, n);
    }
  }

  lemma QuotientTimes(total: real, n: real)
    requires n > 0.0
    ensures Times(total / n, n) == total
  {
  }

  lemma MeanOfWithin(xs: seq<real>, lo: real, hi: real)
    requires xs != [] && AllWithin(xs, lo, hi)
    ensures lo <= Total(xs) / |xs| as real <= hi
  {
    TotalWithin(xs, lo, hi);
    QuotientTimes(Total(xs), |xs| as real);
    MeanWithin(Total(xs), |xs| as real, Total(xs) / |xs| as real, lo, hi);
  }

  /** Main result: the ratio forecast lies between the extremes of the last controlling ratios, so a steady
      ratio is forecast exactly. */
  lemma ForecastRatioWithin(history: seq<Sample>, horizon: nat, lo: real, hi: real)
    requires history != [] && horizon > 0 && ControlsWithin(LastOf(history, horizon), lo, hi)
    ensures lo <= ForecastRatio(history, horizon) <= hi
  {
    var recent := LastOf(history, horizon);
    TotalOfControls(recent);
    MeanOfWithin(Controls(recent), lo, hi);
  }

  predicate TempsWithin(s: seq<Sample>, lo: real, hi: real) {
    forall i :: 0 <= i < |s| && s[i].temp.Some? ==> lo <= s[i].temp.value <= hi
  }

  predicate NoTemps(s: seq<Sample>) {
    forall i :: 0 <= i < |s| ==> s[i].temp.None?
  }

  lemma {:induction false} ValidTempsWithin(s: seq<Sample>, lo: real, hi: real)
    requires TempsWithin(s, lo, hi)
    ensures AllWithin(ValidTemps(s), lo, hi) && (ValidTemps(s) == [] <==> NoTemps(s))
  {
    if s != [] {
      ValidTempsWithin(s[..|s| - 1], lo, hi);
    }
  }

  /** Main result: without a prediction the temperature forecast exists exactly when one of the last samples
      measured a temperature, and lies between the extremes of those measured. */
  lemma ForecastTempWithin(history: seq<Sample>, horizon: nat, lo: real, hi: real)
    requires history != [] && horizon > 0 && TempsWithin(LastOf(history, horizon), lo, hi)
    ensures var f := ForecastTemp(history, horizon, None);
            && (f.None? <==> NoTemps(LastOf(history, horizon)))
            && (f.Some? ==> lo <= f.value <= hi)
  {
    ValidTempsWithin(LastOf(history, horizon), lo, hi);
    var temps := ValidTemps(LastOf(history, horizon));
    if temps != [] {
      MeanOfWithin(temps, lo, hi);
    }
  }

  /** A prediction is raised to the latest measurement and otherwise taken as it is. */
  lemma PredictionIsRaised(history: seq<Sample>, horizon: nat, p: real)
    requires history != [] && horizon > 0
    ensures var latest := history[|history| - 1].temp;
            ForecastTemp(history, horizon, Some(p)) == Some(if latest.Some? && latest.value > p then latest.value else p)
  {
  }

  /** Main result: the trend carries the first ratio of the horizon to the last one in its steps. */
  lemma TrendSpansHorizon(history: seq<Sample>, horizon: nat)
    requires 0 < horizon <= |history|
    ensures history[|history| - horizon].ratio + Trend(history, horizon) * (horizon - 1) as real
         == history[|history| - 1].ratio
    ensures horizon == 1 ==> Trend(history, horizon) == 0.0
  {
  }

  class Controller {
    const env: Env
    const forecastHorizon: nat
    const historyLimit: nat
    const stalenessMs: int
    var history: seq<Sample>

    ghost predicate Valid()
      reads this
    {
      historyLimit >= 1 && historyLimit >= forecastHorizon && |history| <= historyLimit
    }

    constructor (env: Env, forecastHorizon: nat, requiredHistory: nat, stalenessMs: int)
      ensures Valid() && history == [] && this.env == env && this.forecastHorizon == forecastHorizon
    {
      this.env, this.forecastHorizon, this.stalenessMs := env, forecastHorizon, stalenessMs;
      historyLimit := if requiredHistory > forecastHorizon && requiredHistory > 1 then requiredHistory
                      else if forecastHorizon > 1 then forecastHorizon else 1;
      history := [];
    }

    /** Append a sample and drop the oldest ones over the limit. */
    method PushSample(s: Sample)
      requires Valid()
      modifies this
      ensures Valid() && history == LastOf(old(history) + [s], historyLimit)
    {
      history := history + [s];
      ghost var all, dropped := history, 0;
      while |history| > historyLimit
        invariant 0 <= dropped <= |all| && history == all[dropped..]
        invariant dropped > 0 ==> |history| >= historyLimit
      {
        history := history[1..];
        dropped := dropped + 1;
      }
    }

    method ComputeForecastRatio(horizon: nat) returns (r: real)
      ensures r == ForecastRatio(history, horizon)
    {
      if history == [] || horizon == 0 {
        return 0.0;
      }
      var count := if |history| < horizon then |history| else horizon;
      ghost var recent := LastOf(history, horizon);
      var sum := 0.0;
      for i := 0 to count
        invariant sum == TotalRatio(recent[..i])
      {
        assert recent[..i + 1][..i] == recent[..i];
        sum := sum + ControlRatio(history[|history| - count + i]);
      }
      assert recent[..count] == recent;
      r := sum / count as real;
    }

    method ComputeForecastTemperature(horizon: nat, prediction: Option<real>) returns (r: Option<real>)
      requires history != [] && horizon > 0
      ensures r == ForecastTemp(history, horizon, prediction)
    {
      if prediction.Some? {
        var latest := history[|history| - 1].temp;
        return if latest.Some? && latest.value > prediction.value then latest else prediction;
      }
      var count := if |history| < horizon then |history| else horizon;
      ghost var recent := LastOf(history, horizon);
      var sum, valid := 0.0, 0;
      for i := 0 to count
        invariant valid == |ValidTemps(recent[..i])| && sum == Total(ValidTemps(recent[..i]))
      {
        assert recent[..i + 1][..i] == recent[..i];
        var s := history[|history| - count + i];
        if s.temp.Some? {
          var before := ValidTemps(recent[..i]);
          assert (before + [s.temp.value])[..|before|] == before;
          sum, valid := sum + s.temp.value, valid + 1;
        }
      }
      assert recent[..count] == recent;
      r := if valid == 0 then None else Some(sum / valid as real);
    }

    /** Score every width from the forecast of a fresh history and decide. */
    method Recommend(current: Width, max: Width, now: int, prediction: Option<real>) returns (r: Option<Width>)
      requires Valid()
      ensures history == [] || forecastHorizon == 0 || now - history[|history| - 1].timestamp > stalenessMs
          ==> r == None
      ensures r.Some? ==> history != [] && forecastHorizon > 0
      ensures history != [] && forecastHorizon > 0 && now - history[|history| - 1].timestamp <= stalenessMs ==>
                var horizon := if |history| < forecastHorizon then |history| else forecastHorizon;
                r == Decision(Scores(env, ForecastOf(history, horizon, prediction), current, horizon), current, max)
    {
      if history == [] || forecastHorizon == 0 {
        return None;
      }
      if now - history[|history| - 1].timestamp > stalenessMs {
        return None;
      }
      var horizon := if |history| < forecastHorizon then |history| else forecastHorizon;
      var ratio := ComputeForecastRatio(horizon);
      var temp := ComputeForecastTemperature(horizon, prediction);
      var f := Forecast(ratio, Trend(history, horizon), temp);
      r := DecideByScore(f, current, max, horizon);
    }

    method DecideByScore(f: Forecast, current: Width, max: Width, horizon: nat) returns (r: Option<Width>)
      ensures r == Decision(Scores(env, f, current, horizon), current, max)
    {
      var sse := ScoreWidth(env, f, Sse41, current, horizon);
      var avx2 := ScoreWidth(env, f, Avx2, current, horizon);
      var avx512 := ScoreWidth(env, f, Avx512, current, horizon);
      ghost var costs := Scores(env, f, current, horizon);
      assert costs(Sse41) == sse && costs(Avx2) == avx2 && costs(Avx512) == avx512;
      r := PickWidth(sse, avx2, avx512, current, max, costs);
    }
  }

  /** Scan the candidates, the current width first, then keep or change. */
  method PickWidth(sse: real, avx2: real, avx512: real, current: Width, max: Width, ghost costs: Width -> real)
      returns (r: Option<Width>)
    requires costs(Sse41) == sse && costs(Avx2) == avx2 && costs(Avx512) == avx512
    ensures r == Decision(costs, current, max)
  {
    var score := match current case Sse41 => sse case Avx2 => avx2 case Avx512 => avx512;
    var best := Consider(Best(current, None), current, score, max);
    best := Consider(best, Sse41, sse, max);
    best := Consider(best, Avx2, avx2, max);
    best := Consider(best, Avx512, avx512, max);
    if best.width == current || best.cost.None? || score - best.cost.value < MIN_IMPROVEMENT {
      return None;
    }
    return Some(best.width);
  }

  // ---------------------------------------------------------------- dispatcher policy

  /** What the controller call does: it may throw. */
  datatype Advice = Thrown | Advised(change: Option<Width>)

  class Policy {
    var fallbackActive: bool
    var haveSample: bool
    var lastTempMillic: Option<int>
    var ceilingC: int
    var safetyMarginC: int
    var emergencyMarginC: int

    ghost predicate LimitsValid()
      reads this
    {
      20 <= ceilingC <= 125 && 0 <= safetyMarginC <= 60 && 0 <= emergencyMarginC <= 60
    }

    constructor (ceilingC: int, safetyMarginC: int, emergencyMarginC: int)
      ensures !fallbackActive && !haveSample && lastTempMillic == None
    {
      fallbackActive, haveSample, lastTempMillic := false, false, None;
      this.ceilingC, this.safetyMarginC, this.emergencyMarginC := ceilingC, safetyMarginC, emergencyMarginC;
    }

    /** INT64_MIN stands for an unusable limit: every temperature is at or above it. */
    function UpgradeLimit(): (r: int)
      reads this
    {
      if 20 <= ceilingC <= 125 && 0 <= safetyMarginC <= 60 && 0 <= emergencyMarginC <= 60
      then (ceilingC - safetyMarginC) * 1000 else -0x8000_0000_0000_0000
    }

    function EmergencyLimit(): (r: int)
      reads this
    {
      if 20 <= ceilingC <= 125 && 0 <= safetyMarginC <= 60 && 0 <= emergencyMarginC <= 60
      then (ceilingC + emergencyMarginC) * 1000 else -0x8000_0000_0000_0000
    }

    method Record(tempMillic: Option<int>, threw: bool)
      requires tempMillic.Some? ==> -0x8000_0000 <= tempMillic.value < 0x8000_0000
      modifies this`fallbackActive, this`haveSample, this`lastTempMillic
      ensures haveSample && lastTempMillic == tempMillic
      ensures fallbackActive == (old(fallbackActive) || threw)
    {
      lastTempMillic, haveSample := tempMillic, true;
      if threw {
        fallbackActive := true;
      }
    }

    method ForceFallback()
      modifies this`fallbackActive
      ensures fallbackActive
    {
      fallbackActive := true;
    }

    /** The gated advice: fallback, an emergency or a thrown exception lead to SSE4.1; a wider width
        passes only with a recorded raw temperature at or below a valid limit. */
    method Recommend(current: Width, advice: Advice) returns (target: Width)
      requires lastTempMillic.Some? ==> -0x8000_0000 <= lastTempMillic.value < 0x8000_0000
      modifies this`fallbackActive
      ensures old(fallbackActive) || advice.Thrown? || Hot(current) ==> target == Sse41
      ensures Index(target) > Index(current) ==>
                && !old(fallbackActive) && advice == Advised(Some(target)) && LimitsValid()
                && haveSample && lastTempMillic.Some? && lastTempMillic.value <= (ceilingC - safetyMarginC) * 1000
      ensures target == current || target == Sse41 || advice == Advised(Some(target))
      ensures !old(fallbackActive) && !Hot(current) && advice.Advised? ==>
                match advice.change
                case None => target == current
                case Some(w) =>
                  if Index(w) <= Index(current) || Cool() then target == w else target == current
      ensures !old(fallbackActive) && !Hot(current) && advice.Thrown? ==> fallbackActive
      ensures old(fallbackActive) ==> fallbackActive
      ensures advice.Advised? ==> fallbackActive == old(fallbackActive)
    {
      if fallbackActive {
        return Sse41;
      }
      if haveSample && lastTempMillic.Some? && IsWide(current) && lastTempMillic.value >= EmergencyLimit() {
        return Sse41;
      }
      match advice
      case Thrown =>
        fallbackActive := true;
        return Sse41;
      case Advised(change) =>
        if change.None? {
          return current;
        }
        target := change.value;
        if Index(target) > Index(current)
           && (!haveSample || lastTempMillic.None? || lastTempMillic.value > UpgradeLimit()) {
          return current;
        }
    }

    /** A wide width at or above the emergency limit, or with unusable limits. */
    ghost predicate Hot(current: Width)
      reads this
    {
      && IsWide(current) && haveSample && lastTempMillic.Some?
      && (LimitsValid() ==> lastTempMillic.value >= (ceilingC + emergencyMarginC) * 1000)
    }

    /** A recorded raw temperature at or below a valid limit. */
    ghost predicate Cool()
      reads this
    {
      && LimitsValid() && haveSample && lastTempMillic.Some?
      && lastTempMillic.value <= (ceilingC - safetyMarginC) * 1000
    }
  }
}
