/** The perf measurement pipeline of one sample: averages, references, ratio window, dynamic
    threshold and severity. Unsigned 64-bit truncation is explicit; 128-bit intermediates are
    exact. */
module PerfPipeline {

  import opened SimdWidth
  import opened Statistics

  type I32 = x: int | -0x8000_0000 <= x < 0x8000_0000 witness 0

  const TWO64: int := 0x1_0000_0000_0000_0000

  const FAST_EWMA_SHIFT: nat := 2
  const SLOW_EWMA_SHIFT: nat := 5
  const MPKI_SCALE: int := 1000000
  const TEMP_REF_MILLIC: int := 85000
  const FREQ_REF_MILLI: int := 1000
  const ZERO_RUNNING_LIMIT: int := 3

  function Wrap(x: int): (r: U64)
    ensures 0 <= x < TWO64 ==> r == x
  {
    x % TWO64
  }

  // ---------------------------------------------------------------- data

  datatype References = References(
    baselineCpi: U64, calibratedCpi: U64, baselineWork: U64, calibratedWork: U64, baselineMpki: U64)

  datatype Averages = Averages(slowCpi: U64, fastCpi: U64, slowMpki: U64, fastMpki: U64)

  /** References, averages and the window of the most recent ratios, oldest first. */
  datatype Pipeline = Pipeline(refs: References, avg: Averages, window: seq<U32>, trimmed: U32)

  datatype Config = Config(
    downRatioMilli: U64, degraded: bool, memoryGuardDivisor: I32, memoryGuardOffset: I32,
    tempWeight: I32, freqWeight: I32)

  datatype Telemetry = Telemetry(
    tempAvailable: bool, freqAvailable: bool, tempMillic: I32, freqMilli: U32,
    filteredTemp: Option<I32>, filteredFreq: Option<U32>)

  datatype Sample = Sample(
    cpi: U64, work: U64, mpki: U64, llcOpen: bool, cfg: Option<Config>, telemetry: Option<Telemetry>)

  datatype Eval = Eval(
    performanceAvailable: bool, workNormalized: bool, workCost: U64, cpi: U64, ratio: U32,
    trimmed: U32, mpki: U64, severity: U64, thermalSeverity: U64, memoryBound: bool,
    telemetry: Option<Telemetry>)

  const NO_EVAL: Eval := Eval(false, false, 0, 0, 0, 0, 0, 0, 0, false, None)

  const NO_AVERAGES: Averages := Averages(0, 0, 0, 0)

  // ---------------------------------------------------------------- one measurement

  /** The averages after a sample; the slow CPI is never left at zero. */
  function UpdateAverages(p: Pipeline, s: Sample): (a: Averages) {
    var slow := UpdateEwma(p.avg.slowCpi, s.cpi, SLOW_EWMA_SHIFT);
    Averages(
      if slow != 0 then slow
      else if s.cpi != 0 then s.cpi
      else if p.refs.baselineCpi != 0 then p.refs.baselineCpi else 1000,
      UpdateEwma(p.avg.fastCpi, s.cpi, FAST_EWMA_SHIFT),
      UpdateEwma(p.avg.slowMpki, s.mpki, SLOW_EWMA_SHIFT),
      UpdateEwma(p.avg.fastMpki, s.mpki, FAST_EWMA_SHIFT))
  }

  /** The first positive sample calibrates a missing reference. */
  function Calibrate(refs: References, s: Sample): (r: References) {
    var r := if refs.calibratedCpi == 0 && s.cpi > 0 then refs.(calibratedCpi := s.cpi) else refs;
    if s.work > 0 && r.calibratedWork == 0
    then r.(calibratedWork := s.work, baselineWork := s.work) else r
  }

  /** x as thousandths of the reference, rounded to nearest. */
  function RoundedRatio(x: U64, reference: U64): (r: U64)
    requires reference > 0
  {
    Wrap((x * 1000 + reference / 2) / reference)
  }

  /** The ratio is within half a unit of x * 1000 / reference, unless it overflows 64 bits. */
  lemma RoundedRatioIsNearest(x: U64, reference: U64)
    requires reference > 0 && (x * 1000 + reference / 2) / reference < TWO64
    ensures var r := RoundedRatio(x, reference);
            r * reference - reference / 2 <= x * 1000 <= r * reference + reference / 2
  {
    Floor(x * 1000 + reference / 2, reference);
  }

  /** The larger of the drift against the slow average and against the calibrated reference;
      the cost per work item replaces both when work completed. */
  function RatioMilli(refs: References, avg: Averages, s: Sample): (r: U64) {
    if s.work > 0 && refs.calibratedWork > 0 then RoundedRatio(s.work, refs.calibratedWork)
    else
      var reference := if avg.slowCpi != 0 then avg.slowCpi
                       else if refs.baselineCpi != 0 then refs.baselineCpi else 1;
      var adaptive := RoundedRatio(s.cpi, reference);
      var absolute := RoundedRatio(s.cpi, if refs.calibratedCpi != 0 then refs.calibratedCpi else reference);
      if adaptive > absolute then adaptive else absolute
  }

  function Saturate32(x: U64): (r: U32) {
    if x > U32_MAX then U32_MAX else x
  }

  function Slide(window: seq<U32>, ratio: U32): (r: seq<U32>)
    ensures |window| <= RATIO_HISTORY ==> 0 < |r| <= RATIO_HISTORY
  {
    if |window| < RATIO_HISTORY then window + [ratio] else window[1..] + [ratio]
  }

  function MemoryBound(refs: References, avg: Averages, s: Sample): (b: bool) {
    var baseline := if refs.baselineMpki != 0 then refs.baselineMpki else 1000;
    s.llcOpen && RoundedRatio(if avg.slowMpki != 0 then avg.slowMpki else s.mpki, baseline) > 2500
  }

  function EffectiveThreshold(cfg: Option<Config>): (t: U64) {
    match cfg
    case None => 1500
    case Some(c) =>
      var value := if c.downRatioMilli != 0 then c.downRatioMilli else 1500;
      if c.degraded && value > 1300 then 1300 else value
  }

  /** A rising fast average lowers the threshold, by at most a quarter of it. */
  function SlopeAdjusted(threshold: U64, avg: Averages): (t: U64)
    ensures threshold - threshold / 4 <= t <= threshold
    ensures avg.fastCpi <= avg.slowCpi ==> t == threshold
  {
    if avg.fastCpi <= avg.slowCpi then threshold
    else
      var delta := Wrap((avg.fastCpi - avg.slowCpi) * 1000 / (if avg.slowCpi != 0 then avg.slowCpi else 1));
      var penalty := if delta / 5 > threshold / 4 then threshold / 4 else delta / 5;
      if threshold > penalty then threshold - penalty else threshold
  }

  function DynamicThreshold(avg: Averages, memoryBound: bool, cfg: Option<Config>): (t: U64) {
    var adjusted := SlopeAdjusted(EffectiveThreshold(cfg), avg);
    if memoryBound && cfg.Some? then
      var guard := if cfg.value.memoryGuardDivisor > 0 then adjusted / cfg.value.memoryGuardDivisor else 0;
      Wrap(adjusted + guard + cfg.value.memoryGuardOffset)
    else adjusted
  }

  function TemperatureSeverity(c: Config, t: Telemetry): (r: U64) {
    if t.tempAvailable && c.tempWeight > 0 && t.tempMillic > TEMP_REF_MILLIC
    then Wrap((t.tempMillic - TEMP_REF_MILLIC) * c.tempWeight) / 1000 else 0
  }

  function FrequencySeverity(c: Config, t: Telemetry): (r: U64) {
    if t.freqAvailable && c.freqWeight > 0 && t.freqMilli < FREQ_REF_MILLI
    then Wrap((FREQ_REF_MILLI - t.freqMilli) * c.freqWeight) / 1000 else 0
  }

  function ThermalSeverity(s: Sample): (r: U64) {
    if s.cfg.Some? && s.telemetry.Some?
    then Wrap(TemperatureSeverity(s.cfg.value, s.telemetry.value) + FrequencySeverity(s.cfg.value, s.telemetry.value))
    else 0
  }

  /** The memory-bound guard only ever raises the threshold, by at least its offset. */
  lemma MemoryGuardOnlyRaises(avg: Averages, c: Config)
    requires c.memoryGuardOffset >= 0 && c.downRatioMilli < 0x4000_0000_0000_0000
    ensures DynamicThreshold(avg, true, Some(c)) >= DynamicThreshold(avg, false, Some(c)) + c.memoryGuardOffset
  {
    var adjusted := SlopeAdjusted(EffectiveThreshold(Some(c)), avg);
    if c.memoryGuardDivisor > 0 {
      Floor(adjusted, c.memoryGuardDivisor);
      GuardShare(adjusted, c.memoryGuardDivisor);
    }
  }

  lemma GuardShare(x: int, d: int)
    requires x >= 0 && d > 0
    ensures 0 <= x / d <= x
  {
    assert x <= x * d by { if d > 1 && x > 0 { MulMonotone(1, d, x); } }
    QuotientBounds(x, d, 0, x);
  }

  function BaseSeverity(ratio: U64, trimmed: U32, threshold: U64): (r: U64) {
    var consensus := Wrap(ratio + trimmed) / 2;
    if consensus > threshold then consensus - threshold else 0
  }

  /** The pipeline after a sample. */
  function Measure(p: Pipeline, s: Sample): (r: Pipeline)
    requires |p.window| <= RATIO_HISTORY
    ensures 0 < |r.window| <= RATIO_HISTORY
  {
    var avg := UpdateAverages(p, s);
    var refs := Calibrate(p.refs, s);
    var window := Slide(p.window, Saturate32(RatioMilli(refs, avg, s)));
    Pipeline(refs, avg, window, Trimmed(window))
  }

  function Trimmed(window: seq<U32>): (r: U32)
    requires window != []
  {
    TrimmedMeanBounds(window, 0, U32_MAX);
    TrimmedMean(window)
  }

  /** What a sample reports, in terms of the state after it. */
  function Report(refs: References, avg: Averages, trimmed: U32, s: Sample): (e: Eval) {
    var ratio := RatioMilli(refs, avg, s);
    var memoryBound := MemoryBound(refs, avg, s);
    var thermal := ThermalSeverity(s);
    var base := BaseSeverity(ratio, trimmed, DynamicThreshold(avg, memoryBound, s.cfg));
    Eval(true, s.work > 0, s.work, s.cpi, ratio % 0x1_0000_0000, trimmed, s.mpki,
      Wrap(base + thermal), thermal, memoryBound, s.telemetry)
  }

  function Assess(after: Pipeline, s: Sample): (e: Eval) {
    Report(after.refs, after.avg, after.trimmed, s)
  }

  function MeasureRun(p: Pipeline, samples: seq<Sample>): (r: Pipeline)
    requires |p.window| <= RATIO_HISTORY
    ensures |r.window| <= RATIO_HISTORY
  {
    if samples == [] then p
    else Measure(MeasureRun(p, samples[..|samples| - 1]), samples[|samples| - 1])
  }

  // ---------------------------------------------------------------- sliding window

  /** The stored ratio of each sample of a run. */
  function StoredRatios(p: Pipeline, samples: seq<Sample>): (r: seq<U32>)
    requires |p.window| <= RATIO_HISTORY
    ensures |r| == |samples|
  {
    if samples == [] then []
    else
      var before := samples[..|samples| - 1];
      var after := MeasureRun(p, samples);
      StoredRatios(p, before) + [Saturate32(RatioMilli(after.refs, after.avg, samples[|samples| - 1]))]
  }

  function Latest(s: seq<U32>): (r: seq<U32>) {
    if |s| <= RATIO_HISTORY then s else s[|s| - RATIO_HISTORY..]
  }

  /** After any run from an empty history the window holds the last min(n, 8) stored ratios, and
      the published trimmed ratio is their trimmed mean. */
  lemma {:induction false} WindowIsLatestRatios(p: Pipeline, samples: seq<Sample>)
    requires p.window == []
    ensures MeasureRun(p, samples).window == Latest(StoredRatios(p, samples))
    ensures samples != [] ==>
              MeasureRun(p, samples).trimmed == TrimmedMean(Latest(StoredRatios(p, samples)))
  {
    if samples != [] {
      var before := samples[..|samples| - 1];
      WindowIsLatestRatios(p, before);
      var was, now := StoredRatios(p, before), StoredRatios(p, samples);
      var ratio := now[|now| - 1];
      assert Slide(Latest(was), ratio) == Latest(was + [ratio]);
    }
  }
}
