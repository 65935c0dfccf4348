/** The arithmetic of one measurement and of one evaluation, value by value: averages, references,
    ratio, threshold, severity, baseline, software cost and cursors. */
module PerfArithmetic {

  import opened SimdWidth
  import opened Statistics
  import opened WidthAuthorization
  import opened PerfPipeline
  import opened PerfModes

  // ---------------------------------------------------------------- averages and references

  /** An average that starts at its first sample and then moves by a share of the distance, rounded
      down, but by at least one. */
  predicate Follows(prev: U64, sample: U64, next: U64, share: nat) {
    if prev == 0 || prev == sample then next == sample
    else
      && (if prev < sample then prev < next <= sample else sample <= next < prev)
      && (if Distance(prev, sample) < share then Distance(next, prev) == 1
          else IsFloor(Distance(next, prev), Distance(prev, sample), share))
  }

  lemma EwmaFollows(prev: U64, sample: U64, shift: nat)
    requires shift > 0
    ensures Follows(prev, sample, UpdateEwma(prev, sample, shift), Pow2(shift))
  {
    if prev > 0 && prev != sample {
      EwmaMoves(prev, sample, shift);
    }
  }

  /** Main result: the fast averages move by a quarter of the distance to the sample, the slow ones by a
      thirty-second; a slow CPI of zero is replaced by the sample, or the baseline, or 1000. */
  lemma AveragesFollow(p: Pipeline, s: Sample)
    ensures var a := UpdateAverages(p, s);
            && Follows(p.avg.fastCpi, s.cpi, a.fastCpi, 4) && Follows(p.avg.fastMpki, s.mpki, a.fastMpki, 4)
            && Follows(p.avg.slowMpki, s.mpki, a.slowMpki, 32)
            && (p.avg.slowCpi > 0 && s.cpi > 0 ==> Follows(p.avg.slowCpi, s.cpi, a.slowCpi, 32))
            && (p.avg.slowCpi == 0 ==>
                  a.slowCpi == if s.cpi > 0 then s.cpi else if p.refs.baselineCpi > 0 then p.refs.baselineCpi else 1000)
            && a.slowCpi > 0
  {
    Shares(5, 2);
    EwmaFollows(p.avg.fastCpi, s.cpi, 2);
    EwmaFollows(p.avg.fastMpki, s.mpki, 2);
    EwmaFollows(p.avg.slowMpki, s.mpki, 5);
    EwmaFollows(p.avg.slowCpi, s.cpi, 5);
  }

  lemma Shares(slow: nat, fast: nat)
    requires slow == 5 && fast == 2
    ensures Pow2(slow) == 32 && Pow2(fast) == 4
  {
    assert Pow2(slow) == 4 * Pow2(slow - 2) && Pow2(slow - 2) == 4 * Pow2(slow - 4);
  }

  /** Main result: a reference is set once, by the first positive sample, and never moves afterwards. */
  lemma ReferencesAreSetOnce(refs: References, s: Sample)
    ensures var r := Calibrate(refs, s);
            && r.calibratedCpi == (if refs.calibratedCpi > 0 then refs.calibratedCpi else s.cpi)
            && r.calibratedWork == (if refs.calibratedWork > 0 then refs.calibratedWork else s.work)
            && r.baselineWork == (if refs.calibratedWork == 0 && s.work > 0 then s.work else refs.baselineWork)
            && r.baselineCpi == refs.baselineCpi && r.baselineMpki == refs.baselineMpki
  {
  }

  // ---------------------------------------------------------------- ratio, threshold, severity

  /** Main result: with work and a work reference the ratio is that of the work cost alone; otherwise it is
      the larger of the ratios to the slow average and to the calibrated CPI. */
  lemma RatioExactly(refs: References, avg: Averages, s: Sample)
    requires avg.slowCpi > 0 && refs.calibratedCpi > 0
    ensures s.work > 0 && refs.calibratedWork > 0 ==> RatioMilli(refs, avg, s) == RoundedRatio(s.work, refs.calibratedWork)
    ensures s.work == 0 || refs.calibratedWork == 0 ==>
              var adaptive, absolute := RoundedRatio(s.cpi, avg.slowCpi), RoundedRatio(s.cpi, refs.calibratedCpi);
              RatioMilli(refs, avg, s) == if absolute > adaptive then absolute else adaptive
  {
  }

  function LesserOf(x: int, y: int): (r: int) {
    if x < y then x else y
  }

  /** The threshold in force: the configured one, 1500 when there is none, and at most 1300 under the
      degraded overlay. */
  lemma ThresholdExactly(cfg: Option<Config>)
    ensures var configured := if cfg.Some? && cfg.value.downRatioMilli > 0 then cfg.value.downRatioMilli else 1500;
            EffectiveThreshold(cfg) == if cfg.Some? && cfg.value.degraded then LesserOf(1300, configured) else configured
  {
  }

  /** Main result: a fast average above the slow one lowers the threshold by a fifth of the excess in
      thousandths of the slow average, rounded down, up to a quarter of the threshold. */
  lemma SlopeExactly(threshold: U64, avg: Averages, delta: U64)
    requires avg.fastCpi > avg.slowCpi > 0 && IsFloor(delta, (avg.fastCpi - avg.slowCpi) * 1000, avg.slowCpi)
    requires threshold > 0
    ensures SlopeAdjusted(threshold, avg) == threshold - LesserOf(threshold / 4, delta / 5)
  {
    Remainder((avg.fastCpi - avg.slowCpi) * 1000, avg.slowCpi, delta,
      (avg.fastCpi - avg.slowCpi) * 1000 - delta * avg.slowCpi);
    WrapFits(delta);
  }

  /** Main result: memory-bound samples raise the threshold by its share, rounded down, and the offset; other
      samples leave it. */
  lemma MemoryGuardExactly(avg: Averages, c: Config, share: nat)
    requires 0 <= c.memoryGuardOffset && c.downRatioMilli < 0x4000_0000_0000_0000
    requires var adjusted := SlopeAdjusted(EffectiveThreshold(Some(c)), avg);
             if c.memoryGuardDivisor > 0 then IsFloor(share, adjusted, c.memoryGuardDivisor) else share == 0
    ensures var adjusted := SlopeAdjusted(EffectiveThreshold(Some(c)), avg);
            && DynamicThreshold(avg, true, Some(c)) == adjusted + share + c.memoryGuardOffset
            && DynamicThreshold(avg, false, Some(c)) == adjusted
  {
    var adjusted := SlopeAdjusted(EffectiveThreshold(Some(c)), avg);
    if c.memoryGuardDivisor > 0 {
      Remainder(adjusted, c.memoryGuardDivisor, share, adjusted - share * c.memoryGuardDivisor);
      GuardShare(adjusted, c.memoryGuardDivisor);
    }
    WrapFits(adjusted + share + c.memoryGuardOffset);
  }

  /** A sample is memory bound exactly when the counter is open and the slow miss rate, or the sample's
      own before there is one, is above 2.5 times its baseline. */
  lemma MemoryBoundExactly(refs: References, avg: Averages, s: Sample)
    ensures MemoryBound(refs, avg, s) <==>
      s.llcOpen && RoundedRatio(if avg.slowMpki > 0 then avg.slowMpki else s.mpki,
                     if refs.baselineMpki > 0 then refs.baselineMpki else 1000) > 2500
  {
  }

  /** Main result: heat counts from 85 C and a frequency loss from 1.0, each with its weight in thousandths,
      rounded down, and only when it was measured and weighted. */
  lemma ThermalSeverityExactly(c: Config, t: Telemetry, s: Sample)
    requires s.cfg == Some(c) && s.telemetry == Some(t)
    ensures if t.tempAvailable && c.tempWeight > 0 && t.tempMillic > 85000
            then IsFloor(TemperatureSeverity(c, t), (t.tempMillic - 85000) * c.tempWeight, 1000) else TemperatureSeverity(c, t) == 0
    ensures if t.freqAvailable && c.freqWeight > 0 && t.freqMilli < 1000
            then IsFloor(FrequencySeverity(c, t), (1000 - t.freqMilli) * c.freqWeight, 1000) else FrequencySeverity(c, t) == 0
    ensures ThermalSeverity(s) == TemperatureSeverity(c, t) + FrequencySeverity(c, t)
  {
    HeatExactly(c, t);
    LossExactly(c, t);
    WrapFits(TemperatureSeverity(c, t) + FrequencySeverity(c, t));
  }

  lemma HeatExactly(c: Config, t: Telemetry)
    ensures TemperatureSeverity(c, t) < 0x20_0000_0000_0000
    ensures if t.tempAvailable && c.tempWeight > 0 && t.tempMillic > 85000
            then IsFloor(TemperatureSeverity(c, t), (t.tempMillic - 85000) * c.tempWeight, 1000) else TemperatureSeverity(c, t) == 0
  {
    if t.tempAvailable && c.tempWeight > 0 && t.tempMillic > 85000 {
      ProductBound(t.tempMillic - 85000, c.tempWeight, 0x8000_0000, 0x8000_0000);
      WrapFits((t.tempMillic - 85000) * c.tempWeight);
    }
  }

  lemma LossExactly(c: Config, t: Telemetry)
    ensures FrequencySeverity(c, t) < 0x20_0000_0000_0000
    ensures if t.freqAvailable && c.freqWeight > 0 && t.freqMilli < 1000
            then IsFloor(FrequencySeverity(c, t), (1000 - t.freqMilli) * c.freqWeight, 1000) else FrequencySeverity(c, t) == 0
  {
    if t.freqAvailable && c.freqWeight > 0 && t.freqMilli < 1000 {
      ProductBound(1000 - t.freqMilli, c.freqWeight, 1000, 0x8000_0000);
      WrapFits((1000 - t.freqMilli) * c.freqWeight);
    }
  }

  /** Main result: the severity is the excess of the mean of ratio and trimmed ratio over the dynamic
      threshold, and the thermal severity on top, while both fit 64 bits. */
  lemma SeverityExactly(refs: References, avg: Averages, trimmed: U32, s: Sample)
    requires RatioMilli(refs, avg, s) + trimmed < TWO64
    ensures var e := Report(refs, avg, trimmed, s);
            var mean := (RatioMilli(refs, avg, s) + trimmed) / 2;
            var threshold := DynamicThreshold(avg, MemoryBound(refs, avg, s), s.cfg);
            var base := if mean > threshold then mean - threshold else 0;
            && (base + ThermalSeverity(s) < TWO64 ==> e.severity == base + ThermalSeverity(s))
            && e.thermalSeverity == ThermalSeverity(s) && e.memoryBound == MemoryBound(refs, avg, s)
            && e.performanceAvailable && (e.workNormalized <==> s.work > 0) && e.workCost == s.work
            && e.cpi == s.cpi && e.mpki == s.mpki && e.trimmed == trimmed && e.telemetry == s.telemetry
            && (RatioMilli(refs, avg, s) <= U32_MAX ==> e.ratio == RatioMilli(refs, avg, s))
  {
  }

  // ---------------------------------------------------------------- the baseline

  /** Main result: an observation is accepted exactly when all four counters advanced between its reads and
      both scale to something; its references are the floors of what it counted, and its averages
      start there. */
  lemma BaselineExactly(o: Observation, cfg: Option<Config>)
    ensures HardwareBaseline(o, cfg).Some? <==>
      && o.before.Some? && o.after.Some? && GroupOrderValid(o.before.value, o.after.value)
      && o.before.value.enabled < o.after.value.enabled && o.before.value.running < o.after.value.running
      && o.before.value.cycles < o.after.value.cycles && o.before.value.insns < o.after.value.insns
      && Counted(o).0 > 0 && Counted(o).1 > 0
    ensures HardwareBaseline(o, cfg).Some? ==>
      var b := HardwareBaseline(o, cfg).value;
      var (cycles, insns) := Counted(o);
      && b.pipe.refs.baselineCpi == CpiMilli(cycles, insns)
      && b.pipe.refs.baselineWork == WorkCostMilli(cycles, Advance(o.workAfter, o.workBefore))
      && b.pipe.refs.baselineMpki == (if MpkiMilli(Missed(o), insns) > 0 then MpkiMilli(Missed(o), insns) else 1000)
      && b.pipe.avg == Averages(Nonzero(b.pipe.refs.baselineCpi, 1000), Nonzero(b.pipe.refs.baselineCpi, 1000),
                         b.pipe.refs.baselineMpki, b.pipe.refs.baselineMpki)
      && b.pipe.refs.calibratedCpi == Nonzero(b.pipe.refs.baselineCpi, 1)
      && b.llc == LlcAfter(o) && b.iterations == o.workAfter && Some(b.group) == o.after
  {
  }

  function Nonzero(x: U64, other: U64): (r: U64) {
    if x > 0 then x else other
  }

  /** The scaled cycles and instructions of an observation. */
  function Counted(o: Observation): (r: (U64, U64)) {
    if o.before.Some? && o.after.Some? && GroupOrderValid(o.before.value, o.after.value) then
      var b, a := o.before.value, o.after.value;
      (ScaleCounter(a.cycles - b.cycles, a.enabled - b.enabled, a.running - b.running),
       ScaleCounter(a.insns - b.insns, a.enabled - b.enabled, a.running - b.running))
    else (0, 0)
  }

  /** The miss counter after an observation: a closed one reads 0, and a failed second read repeats the
      first. */
  function LlcAfter(o: Observation): (r: U64) {
    match (o.llcOpen, o.llcBefore, o.llcAfter)
    case (false, _, _) => 0
    case (true, _, Some(after)) => after
    case (true, Some(before), None) => before
    case (true, None, None) => 0
  }

  function Missed(o: Observation): (r: U64) {
    match (o.llcOpen, o.llcBefore, o.llcAfter)
    case (true, Some(before), Some(after)) => if after >= before then after - before else 0
    case (true, None, Some(after)) => after
    case _ => 0
  }

  /** Main result: an accepted reprobe enters hardware mode validated, with the observation's cursors; a
      rejected one or one that could not be enabled ends unvalidated; one that could not be opened only
      closes the counters. */
  lemma ReprobeExactly(c: Context, t: Tick)
    requires c.mode == Software
    ensures var d := TryRecover(c, t);
            match t.reprobe
            case NotDue => d == c
            case OpenFailed => d == c.(llcOpen := false, lastGroup := None, lastLlc := 0, zeroRunning := 0)
            case EnableFailed => d == c.(llcOpen := false, lastGroup := None, lastLlc := 0, zeroRunning := 0, validated := false)
            case Observed(o) =>
              if HardwareBaseline(o, t.cfg).None?
              then d == c.(llcOpen := false, lastGroup := None, lastLlc := 0, zeroRunning := 0, validated := false)
              else
                && d.mode == Hardware && d.validated && !d.softwareAdaptation && d.zeroRunning == 0
                && d.llcOpen == o.llcOpen && d.lastGroup == o.after && d.lastLlc == LlcAfter(o)
                && d.hwLastIterations == o.workAfter && d.stay == Stay(false, t.nowNs, false)
                && d.pipe.refs == HardwareBaseline(o, t.cfg).value.pipe.refs
                && d.pipe.avg == NO_AVERAGES && d.pipe.window == [] && d.pipe.trimmed == 0
  {
    if t.reprobe.Observed? {
      BaselineExactly(t.reprobe.observation, t.cfg);
    }
  }

  // ---------------------------------------------------------------- software mode

  /** Main result: after seeding, a software tick with progress measures the nanoseconds per work item in
      thousandths, rounded down but at least one, without work normalization or misses. */
  lemma SoftwareTickExactly(d: Context, t: Tick)
    requires WellFormed(d)
    ensures var (e, out) := EvaluateCost(d, t);
            && e.swLastIterations == t.iterations && e.swLastNs == t.nowNs && e.softwareAdaptation
            && (!d.softwareAdaptation || t.iterations <= d.swLastIterations || t.nowNs <= d.swLastNs ==>
                  out == QUIET && e.pipe == d.pipe)
            && (d.softwareAdaptation && t.iterations > d.swLastIterations && t.nowNs > d.swLastNs ==>
                  var cost := SoftwareCost(t.nowNs - d.swLastNs, t.iterations - d.swLastIterations);
                  out.eval.cpi == cost && out.eval.workCost == 0 && out.eval.mpki == 0 && !out.eval.workNormalized)
  {
  }

  lemma SoftwareCostIsFloor(deltaNs: U64, items: U64)
    requires items > 0 && deltaNs * 1000 < TWO64
    ensures SoftwareCost(deltaNs, items) == 1 || IsFloor(SoftwareCost(deltaNs, items), deltaNs * 1000, items)
    ensures deltaNs * 1000 >= items ==> IsFloor(SoftwareCost(deltaNs, items), deltaNs * 1000, items)
  {
    var scaled := deltaNs * 1000;
    WrapFits(scaled);
    CostIsFloor(scaled, items, Quotient(scaled, items));
  }

  lemma CostIsFloor(scaled: U64, items: U64, cost: U64)
    requires items > 0 && cost == Quotient(scaled, items)
    ensures IsFloor(cost, scaled, items) && (scaled >= items ==> cost > 0)
  {
    Floor(scaled, items);
    FloorIsZero(cost, scaled, items);
  }

  // ---------------------------------------------------------------- cursors

  /** Main result: the cursors follow what was read. A tick that measures or finds unrelated work moves all of
      them, an idle one all but the work counter, a first read the group and the misses, a stalled one
      none. */
  lemma CursorsFollowReads(c: Context, t: Tick, last: Group, now: Group, llcNow: U64)
    requires WellFormed(c) && GroupOrderValid(last, now)
    ensures var d := EvaluateDeltas(c, t, last, now, llcNow).0;
            var stalled := now.running == last.running || now.enabled == last.enabled;
            && (!stalled && now.insns == last.insns ==>
                  d == c.(zeroRunning := 0, lastGroup := Some(now), lastLlc := llcNow))
            && (!stalled && now.insns > last.insns && EvaluateDeltas(c, t, last, now, llcNow).1.eval.telemetry.Some? ==>
                  && d.zeroRunning == 0 && d.lastGroup == Some(now) && d.lastLlc == llcNow && d.hwLastIterations == t.iterations
                  && d.mode == c.mode && d.validated == c.validated && d.llcOpen == c.llcOpen && d.stay == c.stay)
            && (stalled && c.zeroRunning < 2 ==> d == c.(zeroRunning := c.zeroRunning + 1))
  {
  }

  /** The first read after the counters were opened only sets the cursors. */
  lemma FirstReadSetsCursors(c: Context, t: Tick)
    requires WellFormed(c) && c.mode == Hardware && c.validated && c.lastGroup.None?
    requires t.group.Some? && t.group.value.nr == 2
    ensures var d := RecoverLlc(c, t);
            Evaluate(c, t) == (d.(llcOpen := d.llcOpen && t.llc.Some?, lastGroup := t.group,
                                  lastLlc := if d.llcOpen && t.llc.Some? then t.llc.value else 0), QUIET)
  {
  }

  /** A miss counter is reopened only when it is closed and the reopening worked; it starts from what it
      then reads. */
  lemma LlcReopensExactly(c: Context, t: Tick)
    ensures RecoverLlc(c, t) == if !c.llcOpen && t.llcReopened.Some? then c.(llcOpen := true, lastLlc := t.llcReopened.value) else c
  {
  }

  /** A timeout is reported once per stay in software mode, from the given number of seconds after the mode
      was entered; a timeout of zero or less never. */
  lemma TimeoutExactly(c: Context, nowNs: U64, timeoutSec: I32, later: U64)
    ensures var (d, reported) := CheckTimeout(c, nowNs, timeoutSec);
            && (reported <==>
                  && c.mode == Software && !c.stay.timeoutNotified && timeoutSec > 0
                  && nowNs >= c.stay.enteredNs + timeoutSec * 1000000000)
            && d == (if reported then c.(stay := c.stay.(timeoutNotified := true)) else c)
            && (reported ==> CheckTimeout(d, later, timeoutSec) == (d, false))
  {
  }

  /** Main result: counters that ran backwards fail closed at once, counters that stood still are counted,
      and the third such read in a row fails closed. */
  lemma StandstillExactly(c: Context, t: Tick, last: Group, now: Group)
    requires WellFormed(c) && c.mode == Hardware && c.validated
    requires c.lastGroup == Some(last) && t.group == Some(now) && last.nr == now.nr == 2
    ensures var (d, out) := Evaluate(c, t);
            var backwards := now.enabled < last.enabled || now.running < last.running
                             || now.cycles < last.cycles || now.insns < last.insns;
            var still := now.enabled == last.enabled || now.running == last.running;
            && (backwards ==> d.mode == Software && out == FAIL_CLOSED)
            && (!backwards && still && c.zeroRunning >= 2 ==> d.mode == Software && out == FAIL_CLOSED)
            && (!backwards && still && c.zeroRunning < 2 ==>
                  d.mode == Hardware && d.zeroRunning == c.zeroRunning + 1 && d.lastGroup == c.lastGroup && out == QUIET)
            && (!backwards && !still && now.insns == last.insns ==>
                  d.mode == Hardware && d.zeroRunning == 0 && d.lastGroup == Some(now) && out == QUIET)
  {
  }

  /** Entering a different mode forgets averages and history and starts a stay; only software mode forgets
      the calibrated references and the validation. */
  lemma ModeChangeExactly(c: Context, mode: PerfMode, nowNs: U64)
    requires c.mode != mode
    ensures var d := SetMode(c, mode, nowNs);
            && d.mode == mode && d.stay.enteredNs == nowNs && !d.stay.timeoutNotified
            && d.pipe.avg == NO_AVERAGES && d.pipe.window == [] && d.pipe.trimmed == 0
            && d.pipe.refs == (if mode == Software then c.pipe.refs.(calibratedCpi := 0, calibratedWork := 0) else c.pipe.refs)
            && d.validated == (mode == Hardware && c.validated)
            && d.stay.degraded == (mode == Software || (mode == NoPerf && c.stay.degraded))
            && d.lastGroup == c.lastGroup && d.llcOpen == c.llcOpen && d.softwareAdaptation == c.softwareAdaptation
  {
  }
}
