/** A workload that stays slow against its calibrated reference keeps being reported, however
    far the slow average drifts towards the slow samples. */
module SustainedDegradation {

  import opened SimdWidth
  import opened Statistics
  import opened PerfPipeline

  /** Samples below this bound keep every 64-bit intermediate exact. */
  const CPI_BOUND: int := 0x40_0000_0000_0000

  /** A positive CPI sample under a threshold, raised by any memory guard, of at most `threshold`. */
  predicate BoundedSample(s: Sample, threshold: int) {
    && 0 < s.cpi < CPI_BOUND && s.work < CPI_BOUND && EffectiveThreshold(s.cfg) <= threshold
    && (s.llcOpen && s.cfg.Some? ==> s.cfg.value.memoryGuardOffset >= 0 && GuardedThreshold(s.cfg.value) <= threshold)
  }

  /** The threshold of a memory-bound sample when the averages do not lower it. */
  function GuardedThreshold(c: Config): (t: int) {
    var effective := EffectiveThreshold(Some(c));
    effective + (if c.memoryGuardDivisor > 0 then effective / c.memoryGuardDivisor else 0) + c.memoryGuardOffset
  }

  /** The rounded ratio of the sample's cost per work item, or of its CPI when no work completed,
      to the calibrated reference exceeds the threshold. */
  predicate Degraded(s: Sample, refs: References, threshold: int)
    requires refs.calibratedCpi > 0
  {
    if s.work > 0 then refs.calibratedWork > 0 && Exceeds(s.work, refs.calibratedWork, threshold)
    else Exceeds(s.cpi, refs.calibratedCpi, threshold)
  }

  predicate Exceeds(x: int, reference: int, threshold: int)
    requires reference > 0
  {
    (x * 1000 + reference / 2) / reference > threshold
  }

  predicate Throttled(e: Eval) {
    e.severity > 0
  }

  lemma RatioIsExact(x: int, reference: int)
    requires 0 <= x < CPI_BOUND && 0 < reference
    ensures 0 <= (x * 1000 + reference / 2) / reference <= x * 1000 + 1
  {
    var n := x * 1000;
    assert (n + 1) * reference >= n + reference by {
      ProductBound(n, 1, n, reference);
      assert (n + 1) * reference == n * reference + reference;
    }
    QuotientBounds(n + reference / 2, reference, 0, n + 1);
  }

  lemma ThermalBound(s: Sample)
    ensures ThermalSeverity(s) < 0x40_0000_0000_0000
  {
    if s.cfg.Some? && s.telemetry.Some? {
      var c, t := s.cfg.value, s.telemetry.value;
      TemperatureBound(c, t);
      FrequencyBound(c, t);
    }
  }

  lemma TemperatureBound(c: Config, t: Telemetry)
    ensures TemperatureSeverity(c, t) < 0x20_0000_0000_0000
  {
    if t.tempAvailable && c.tempWeight > 0 && t.tempMillic > TEMP_REF_MILLIC {
      ProductBound(t.tempMillic - TEMP_REF_MILLIC, c.tempWeight, 0x8000_0000, 0x8000_0000);
    }
  }

  lemma FrequencyBound(c: Config, t: Telemetry)
    ensures FrequencySeverity(c, t) < 0x10_0000_0000_0000
  {
    if t.freqAvailable && c.freqWeight > 0 && t.freqMilli < FREQ_REF_MILLI {
      ProductBound(FREQ_REF_MILLI - t.freqMilli, c.freqWeight, 1000, 0x8000_0000);
    }
  }

  /** The ratio of a degraded sample: exact, and above the threshold. */
  lemma DegradedRatio(refs: References, avg: Averages, s: Sample, threshold: U64)
    requires BoundedSample(s, threshold) && refs.calibratedCpi > 0 && avg.slowCpi > 0 && Degraded(s, refs, threshold)
    ensures threshold < RatioMilli(refs, avg, s) <= CPI_BOUND * 1000
  {
    if s.work > 0 {
      RatioIsExact(s.work, refs.calibratedWork);
    } else {
      RatioIsExact(s.cpi, avg.slowCpi);
      RatioIsExact(s.cpi, refs.calibratedCpi);
    }
  }

  lemma ThresholdBound(avg: Averages, memoryBound: bool, s: Sample, threshold: U64)
    requires BoundedSample(s, threshold) && (memoryBound ==> s.llcOpen)
    ensures DynamicThreshold(avg, memoryBound, s.cfg) <= threshold
  {
    if memoryBound && s.cfg.Some? && s.cfg.value.memoryGuardDivisor > 0 {
      var adjusted := SlopeAdjusted(EffectiveThreshold(s.cfg), avg);
      GuardMonotone(adjusted, EffectiveThreshold(s.cfg), s.cfg.value.memoryGuardDivisor);
    }
  }

  lemma GuardMonotone(x: int, y: int, d: int)
    requires 0 <= x <= y && d > 0
    ensures 0 <= x / d <= y / d
  {
    Floor(x, d);
    Floor(y, d);
    var next := y / d + 1;
    assert next * d == y / d * d + d;
    if x / d >= next {
      ProductBound(next, d, x / d, d);
    }
  }

  /** With a window and a ratio above the threshold, the sample is reported. */
  lemma AboveThresholdThrottles(after: Pipeline, s: Sample, threshold: U64)
    requires threshold < U32_MAX && BoundedSample(s, threshold)
    requires after.refs.calibratedCpi > 0 && after.avg.slowCpi > 0
    requires Degraded(s, after.refs, threshold)
    requires after.trimmed > threshold
    ensures Throttled(Assess(after, s))
  {
    DegradedRatio(after.refs, after.avg, s, threshold);
    ThresholdBound(after.avg, MemoryBound(after.refs, after.avg, s), s, threshold);
    ThermalBound(s);
  }

  /** One degraded sample keeps the references and leaves a window above the threshold. */
  lemma DegradedStep(p: Pipeline, s: Sample, threshold: U64)
    requires |p.window| <= RATIO_HISTORY && p.refs.calibratedCpi > 0 && threshold < U32_MAX
    requires Within(p.window, threshold + 1, U32_MAX)
    requires BoundedSample(s, threshold) && Degraded(s, p.refs, threshold)
    ensures var after := Measure(p, s);
            && after.refs == p.refs
            && after.avg.slowCpi > 0 && after.trimmed > threshold
            && Within(after.window, threshold + 1, U32_MAX)
  {
    var avg, refs := UpdateAverages(p, s), Calibrate(p.refs, s);
    assert refs == p.refs;
    DegradedRatio(refs, avg, s, threshold);
    SlideWithin(p.window, Saturate32(RatioMilli(refs, avg, s)), threshold + 1, U32_MAX);
    TrimmedMeanBounds(Measure(p, s).window, threshold + 1, U32_MAX);
  }

  lemma SlideWithin(window: seq<U32>, ratio: U32, lo: int, hi: int)
    requires Within(window, lo, hi) && lo <= ratio <= hi
    ensures Within(Slide(window, ratio), lo, hi)
  {
  }

  /** What a run of degraded samples keeps: the references, a positive slow average, and a window
      of ratios above the threshold. */
  lemma {:induction false} DegradedRun(p: Pipeline, samples: seq<Sample>, threshold: U64)
    requires p.window == [] && p.refs.calibratedCpi > 0 && threshold < U32_MAX
    requires forall i :: 0 <= i < |samples| ==>
      BoundedSample(samples[i], threshold) && Degraded(samples[i], p.refs, threshold)
    ensures var after := MeasureRun(p, samples);
            && after.refs == p.refs
            && (samples != [] ==> after.avg.slowCpi > 0 && after.trimmed > threshold)
            && Within(after.window, threshold + 1, U32_MAX)
  {
    if samples != [] {
      DegradedRun(p, samples[..|samples| - 1], threshold);
      DegradedStep(MeasureRun(p, samples[..|samples| - 1]), samples[|samples| - 1], threshold);
    }
  }

  /** Main result: from an empty history with a calibrated reference, when every sample's
      rounded ratio, of its work cost or of its CPI, to its reference exceeds a threshold below
      2^32 - 1 that is no smaller than any threshold in force, every sample reports throttling. */
  lemma DegradationIsNeverNormalizedAway(p: Pipeline, samples: seq<Sample>, threshold: U64, k: nat)
    requires p.window == [] && p.refs.calibratedCpi > 0 && threshold < U32_MAX
    requires forall i :: 0 <= i < |samples| ==>
      BoundedSample(samples[i], threshold) && Degraded(samples[i], p.refs, threshold)
    requires k < |samples|
    ensures Throttled(Assess(MeasureRun(p, samples[..k + 1]), samples[k]))
  {
    DegradedRun(p, samples[..k + 1], threshold);
    AboveThresholdThrottles(MeasureRun(p, samples[..k + 1]), samples[k], threshold);
  }

  function FreshPipeline(reference: U64): (p: Pipeline) {
    Pipeline(References(0, reference, 0, 0, 0), NO_AVERAGES, [], 0)
  }

  function BareSample(cpi: U64, threshold: U64): (s: Sample) {
    Sample(cpi, 0, 0, false, Some(Config(threshold, false, 0, 0, 0, 0)), None)
  }

  lemma RatioToItself(x: U64)
    requires x > 0
    ensures RoundedRatio(x, x) <= 1001
  {
    Remainder(x * 1000 + x / 2, x, 1000, x / 2);
  }

  /** A first sample whose ratio saturates is judged by the mean of that ratio and 2^32 - 1. */
  lemma FirstSaturatedSample(cpi: U64, reference: U64, threshold: U64)
    requires cpi > 0 && reference > 0 && threshold > 0
    requires RoundedRatio(cpi, reference) >= U32_MAX
    ensures var p, s := FreshPipeline(reference), BareSample(cpi, threshold);
            Assess(Measure(p, s), s).severity == BaseSeverity(RoundedRatio(cpi, reference), U32_MAX, threshold)
  {
    var p, s := FreshPipeline(reference), BareSample(cpi, threshold);
    var avg, refs := UpdateAverages(p, s), Calibrate(p.refs, s);
    assert avg == Averages(cpi, cpi, 0, 0) && refs == p.refs;
    RatioToItself(cpi);
    assert RatioMilli(refs, avg, s) == RoundedRatio(cpi, reference);
    var after := Measure(p, s);
    assert after.window == [U32_MAX];
    TrimmedMeanBounds(after.window, U32_MAX, U32_MAX);
  }

  /** The bound is exact: for every threshold from 2^32 - 1 up to the largest ratio a bounded
      sample can have, a degraded first sample goes unreported, because stored ratios saturate. */
  lemma SaturatedHistoryHidesDegradation(threshold: U64) returns (p: Pipeline, s: Sample)
    requires U32_MAX <= threshold < (CPI_BOUND - 1) * 1000
    ensures p.window == [] && p.refs.calibratedCpi > 0
    ensures BoundedSample(s, threshold) && EffectiveThreshold(s.cfg) == threshold
    ensures Degraded(s, p.refs, threshold)
    ensures !Throttled(Assess(Measure(p, s), s))
  {
    var small := threshold < CPI_BOUND - 1;
    var cpi := if small then threshold + 1 else threshold / 1000 + 1;
    var reference := if small then 1000 else 1;
    p, s := FreshPipeline(reference), BareSample(cpi, threshold);
    assert RoundedRatio(cpi, reference) == if small then threshold + 1 else cpi * 1000;
    FirstSaturatedSample(cpi, reference, threshold);
  }

  /** Above that range no bounded sample is degraded, so the law holds there too. */
  lemma LargerThresholdsAreUnreachable(s: Sample, refs: References, threshold: U64)
    requires refs.calibratedCpi > 0 && BoundedSample(s, threshold) && threshold >= (CPI_BOUND - 1) * 1000
    ensures !Degraded(s, refs, threshold)
  {
    if s.work > 0 {
      if refs.calibratedWork > 0 {
        RatioBelowProduct(s.work, refs.calibratedWork);
      }
    } else {
      RatioBelowProduct(s.cpi, refs.calibratedCpi);
    }
  }

  lemma RatioBelowProduct(x: int, reference: int)
    requires x > 0 && reference > 0
    ensures (x * 1000 + reference / 2) / reference <= x * 1000
  {
    var n := x * 1000;
    if reference > 1 {
      ProductBound(n, 1, n, reference - 1);
      assert n * reference == n * (reference - 1) + n;
      assert n + reference / 2 <= n * reference by { ProductBound(1000, reference - 1, n, reference - 1); }
      QuotientBounds(n + reference / 2, reference, 0, n);
    }
  }

  // ---------------------------------------------------------------- the other direction

  /** No ratio above three quarters of the threshold in force, no thermal severity. */
  predicate Healthy(after: Pipeline, s: Sample, bound: U32) {
    && RatioMilli(after.refs, after.avg, s) <= bound && ThermalSeverity(s) == 0
    && bound <= EffectiveThreshold(s.cfg) - EffectiveThreshold(s.cfg) / 4
    && (s.llcOpen && s.cfg.Some? ==>
          s.cfg.value.memoryGuardOffset >= 0 && s.cfg.value.downRatioMilli < 0x4000_0000_0000_0000)
  }

  lemma HealthyStep(p: Pipeline, s: Sample, bound: U32)
    requires |p.window| <= RATIO_HISTORY && Within(p.window, 0, bound)
    requires Healthy(Measure(p, s), s, bound)
    ensures Within(Measure(p, s).window, 0, bound) && Measure(p, s).trimmed <= bound
  {
    var after := Measure(p, s);
    SlideWithin(p.window, Saturate32(RatioMilli(after.refs, after.avg, s)), 0, bound);
    TrimmedMeanBounds(after.window, 0, bound);
  }

  lemma HealthyVerdict(after: Pipeline, s: Sample, bound: U32)
    requires Healthy(after, s, bound) && after.trimmed <= bound
    ensures !Throttled(Assess(after, s))
  {
    if s.llcOpen && s.cfg.Some? {
      MemoryGuardOnlyRaises(after.avg, s.cfg.value);
    }
  }

  lemma {:induction false} HealthyRun(p: Pipeline, samples: seq<Sample>, bound: U32)
    requires p.window == []
    requires forall k :: 0 <= k < |samples| ==> Healthy(MeasureRun(p, samples[..k + 1]), samples[k], bound)
    ensures Within(MeasureRun(p, samples).window, 0, bound)
    ensures samples != [] ==> MeasureRun(p, samples).trimmed <= bound
  {
    if samples != [] {
      var n := |samples| - 1;
      forall k | 0 <= k < n ensures Healthy(MeasureRun(p, samples[..n][..k + 1]), samples[..n][k], bound) {
        assert samples[..n][..k + 1] == samples[..k + 1];
      }
      HealthyRun(p, samples[..n], bound);
      assert samples[..n + 1] == samples;
      HealthyStep(MeasureRun(p, samples[..n]), samples[n], bound);
    }
  }

  /** Main result: a run whose ratios stay at or below three quarters of every threshold in force is
      never reported, however the averages move. */
  lemma HealthyRunIsNeverThrottled(p: Pipeline, samples: seq<Sample>, bound: U32)
    requires p.window == [] && samples != []
    requires forall k :: 0 <= k < |samples| ==> Healthy(MeasureRun(p, samples[..k + 1]), samples[k], bound)
    ensures !Throttled(Assess(MeasureRun(p, samples), samples[|samples| - 1]))
  {
    HealthyRun(p, samples, bound);
    assert samples[..|samples|] == samples;
    HealthyVerdict(MeasureRun(p, samples), samples[|samples| - 1], bound);
  }

  /** Such runs exist: a steady sample at the reference. */
  lemma SteadySampleIsHealthy() returns (p: Pipeline, s: Sample)
    ensures p.window == [] && Healthy(Measure(p, s), s, 1001)
  {
    p, s := FreshPipeline(1000), BareSample(1000, 1500);
    var avg, refs := UpdateAverages(p, s), Calibrate(p.refs, s);
    assert avg == Averages(1000, 1000, 0, 0) && refs == p.refs;
    RatioToItself(1000);
    assert Measure(p, s).avg == avg && Measure(p, s).refs == refs;
  }
}
