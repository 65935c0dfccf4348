/** The hardware/software mode machine around the measurement pipeline, and the isolation of the
    two measurement domains: CPI of hardware counters and nanoseconds per work item never mix. */
module PerfModes {

  import opened SimdWidth
  import opened Statistics
  import opened WidthAuthorization
  import opened PerfPipeline

  /** One read of the counter group. */
  datatype Group = Group(nr: U64, enabled: U64, running: U64, cycles: U64, insns: U64)

  /** What changes only with the mode: the degraded overlay, when the mode was entered, and whether
      its timeout has been reported. */
  datatype Stay = Stay(degraded: bool, enteredNs: U64, timeoutNotified: bool)

  datatype Context = Context(
    mode: PerfMode, validated: bool, softwareAdaptation: bool, llcOpen: bool, ownWorkload: bool,
    pipe: Pipeline, lastGroup: Option<Group>, lastLlc: U64, zeroRunning: nat,
    swLastIterations: U64, swLastNs: U64, hwLastIterations: U64, stay: Stay)

  predicate WellFormed(c: Context) {
    |c.pipe.window| <= RATIO_HISTORY
  }

  /** Two reads around an observation of the workload; a failed read is None. */
  datatype Observation = Observation(
    llcOpen: bool, before: Option<Group>, after: Option<Group>, llcBefore: Option<U64>,
    llcAfter: Option<U64>, workBefore: U64, workAfter: U64)

  /** What an attempt to leave software mode meets. */
  datatype Reprobe = NotDue | OpenFailed | EnableFailed | Observed(observation: Observation)

  /** Everything an evaluation reads from outside the context. */
  datatype Tick = Tick(
    cfg: Option<Config>, telemetry: Telemetry, nowNs: U64, iterations: U64, reprobe: Reprobe,
    llcReopened: Option<U64>, group: Option<Group>, llc: Option<U64>)

  datatype Outcome = Outcome(throttled: bool, eval: Eval)

  const QUIET: Outcome := Outcome(false, NO_EVAL)

  /** The answer to lost or untrusted counters: throttle. */
  const FAIL_CLOSED: Outcome := Outcome(true, NO_EVAL.(severity := 1))

  // ---------------------------------------------------------------- counters

  /** A 128-bit product scaled down and truncated. */
  function Scaled(product: nat, running: U64): (r: U64)
    requires running > 0
  {
    Wrap(product / running)
  }

  function ScaleCounter(delta: U64, enabled: U64, running: U64): (r: U64)
    ensures running == 0 || enabled == 0 ==> r == 0
  {
    if running == 0 || enabled == 0 then 0 else Scaled(delta * enabled, running)
  }

  /** Scaling is the exact floor while it fits 64 bits, and the identity on counters that were
      never multiplexed. */
  lemma ScaledIsFloor(product: nat, running: U64)
    requires running > 0 && product / running < TWO64
    ensures Scaled(product, running) * running <= product < Scaled(product, running) * running + running
  {
    var q := product / running;
    WrapFits(q);
    FloorOf(product, running, q);
  }

  lemma WrapFits(x: int)
    requires 0 <= x < TWO64
    ensures Wrap(x) == x
  {
  }

  lemma FloorOf(n: int, d: int, q: int)
    requires d > 0 && q == n / d
    ensures q * d <= n < q * d + d
  {
    Floor(n, d);
  }

  lemma UnscaledCounter(delta: U64, time: U64)
    requires time > 0
    ensures ScaleCounter(delta, time, time) == delta
  {
    QuotientBounds(delta * time, time, delta, delta);
  }

  function Quotient(x: U64, d: U64): (r: U64)
    requires d > 0
    ensures r <= x
  {
    GuardShare(x, d);
    x / d
  }

  /** Cycles per instruction, in thousandths. */
  function CpiMilli(cycles: U64, insns: U64): (r: U64)
    requires insns > 0
  {
    Quotient(Wrap(cycles * 1000), insns)
  }

  /** Cycles per work item, in thousandths; 0 when no work completed. */
  function WorkCostMilli(cycles: U64, items: U64): (r: U64) {
    if items > 0 then Wrap(cycles * 1000 / items) else 0
  }

  /** Misses per thousand instructions, in thousandths. */
  function MpkiMilli(misses: U64, insns: U64): (r: U64)
    requires insns > 0
  {
    Quotient(Wrap(misses * MPKI_SCALE), insns)
  }

  /** An unsigned difference that a regressing counter turns into 0. */
  function Advance(now: U64, last: U64): (r: U64) {
    if now >= last then now - last else 0
  }

  predicate GroupOrderValid(before: Group, after: Group) {
    && before.nr == 2 && after.nr == 2
    && before.enabled <= after.enabled && before.running <= after.running
    && before.cycles <= after.cycles && before.insns <= after.insns
  }

  predicate GroupProgressValid(before: Group, after: Group) {
    && GroupOrderValid(before, after)
    && before.enabled < after.enabled && before.running < after.running
    && before.cycles < after.cycles && before.insns < after.insns
  }

  // ---------------------------------------------------------------- modes

  function ResetDomain(p: Pipeline): (r: Pipeline) {
    p.(avg := NO_AVERAGES, window := [], trimmed := 0)
  }

  /** Entering a different mode clears averages and history and starts a new stay; software mode
      also drops the calibrated references and switches the degraded overlay on, hardware mode
      switches it off. Naming the current mode again changes nothing. */
  function SetMode(c: Context, mode: PerfMode, nowNs: U64): (r: Context) {
    if c.mode == mode then c
    else
      var p := ResetDomain(c.pipe);
      match mode
      case Software =>
        c.(mode := mode, validated := false, stay := Stay(true, nowNs, false),
           pipe := p.(refs := p.refs.(calibratedCpi := 0, calibratedWork := 0)))
      case Hardware => c.(mode := mode, pipe := p, stay := Stay(false, nowNs, false))
      case NoPerf =>
        c.(mode := mode, validated := false, pipe := p, stay := Stay(c.stay.degraded, nowNs, false))
  }

  /** A timeout in whole seconds has passed since the mode was entered. */
  predicate Expired(stay: Stay, nowNs: U64, timeoutSec: I32) {
    timeoutSec > 0 && nowNs >= stay.enteredNs && nowNs - stay.enteredNs >= timeoutSec * 1000000000
  }

  /** The timeout check: it reports in software mode, and remembers that it did. */
  function CheckTimeout(c: Context, nowNs: U64, timeoutSec: I32): (r: (Context, bool)) {
    if c.stay.timeoutNotified || c.mode != Software || !Expired(c.stay, nowNs, timeoutSec) then (c, false)
    else (c.(stay := c.stay.(timeoutNotified := true)), true)
  }

  function CloseEvents(c: Context): (r: Context) {
    c.(llcOpen := false, lastGroup := None, lastLlc := 0, zeroRunning := 0)
  }

  function FailClosed(c: Context, nowNs: U64): (r: Context) {
    SetMode(CloseEvents(c).(validated := false, softwareAdaptation := false), Software, nowNs)
  }

  /** What an accepted observation establishes. */
  datatype Baseline = Baseline(pipe: Pipeline, group: Group, llc: U64, iterations: U64)

  function BaselinePipeline(cpi: U64, work: U64, rate: U64, cfg: Option<Config>): (p: Pipeline)
    ensures p.window == []
  {
    var mpki := if rate == 0 then 1000 else rate;
    var average := if cpi != 0 then cpi else 1000;
    Pipeline(References(cpi, if cpi != 0 then cpi else 1, work, work, mpki),
      Averages(average, average, mpki, mpki), [],
      if cfg.Some? then cfg.value.downRatioMilli % 0x1_0000_0000 else 1500)
  }

  /** The baseline of an observation, or None for one that is rejected. */
  function HardwareBaseline(o: Observation, cfg: Option<Config>): (r: Option<Baseline>)
    ensures r.Some? ==> r.value.pipe.window == [] && r.value.pipe.refs.calibratedCpi > 0
    ensures r.Some? ==> o.after == Some(r.value.group) && r.value.iterations == o.workAfter
    ensures r.Some? ==>
              var refs := r.value.pipe.refs;
              && refs.calibratedWork == refs.baselineWork && refs.baselineMpki > 0
              && (refs.baselineCpi > 0 ==> refs.calibratedCpi == refs.baselineCpi)
  {
    if o.before.None? || o.after.None? || !GroupProgressValid(o.before.value, o.after.value) then None
    else
      var b, a := o.before.value, o.after.value;
      var cycles := ScaleCounter(a.cycles - b.cycles, a.enabled - b.enabled, a.running - b.running);
      var insns := ScaleCounter(a.insns - b.insns, a.enabled - b.enabled, a.running - b.running);
      if cycles == 0 || insns == 0 then None
      else
        var llcBefore := if o.llcOpen && o.llcBefore.Some? then o.llcBefore.value else 0;
        var llcAfter := if !o.llcOpen then 0
                        else if o.llcAfter.Some? then o.llcAfter.value else llcBefore;
        var pipe := BaselinePipeline(CpiMilli(cycles, insns),
                      WorkCostMilli(cycles, Advance(o.workAfter, o.workBefore)),
                      MpkiMilli(Advance(llcAfter, llcBefore), insns), cfg);
        Some(Baseline(pipe, a, llcAfter, o.workAfter))
  }

  /** A reprobe leaves software mode only through an accepted baseline. */
  function TryRecover(c: Context, t: Tick): (r: Context)
    ensures WellFormed(c) ==> WellFormed(r)
  {
    match t.reprobe
    case NotDue => c
    case OpenFailed => CloseEvents(c)
    case EnableFailed => CloseEvents(c).(validated := false)
    case Observed(o) =>
      match HardwareBaseline(o, t.cfg)
      case None => CloseEvents(c).(validated := false)
      case Some(b) => Adopt(c, b, o.llcOpen, t.nowNs)
  }

  /** Hardware mode with an accepted baseline: its references stay, its averages are cleared by
      the change of mode. */
  function Adopt(c: Context, b: Baseline, llcOpen: bool, nowNs: U64): (r: Context) {
    SetMode(Load(c, b, llcOpen), Hardware, nowNs)
  }

  function Load(c: Context, b: Baseline, llcOpen: bool): (r: Context) {
    c.(validated := true, softwareAdaptation := false, pipe := b.pipe, llcOpen := llcOpen,
       hwLastIterations := b.iterations, lastGroup := Some(b.group), lastLlc := b.llc, zeroRunning := 0)
  }

  // ---------------------------------------------------------------- evaluation

  /** The configuration under the overlay in force. */
  function Overlaid(cfg: Option<Config>, degraded: bool): (r: Option<Config>) {
    match cfg
    case None => None
    case Some(c) => Some(c.(degraded := degraded))
  }

  function Process(c: Context, s: Sample): (r: (Context, Outcome))
    requires WellFormed(c)
    ensures WellFormed(r.0)
  {
    var p := Measure(c.pipe, s);
    var e := Assess(p, s);
    (c.(pipe := p), Outcome(e.severity > 0, e))
  }

  /** Nanoseconds per completed work item, in thousandths, never zero. */
  function SoftwareCost(deltaNs: U64, items: U64): (r: U64)
    requires items > 0
    ensures r > 0
  {
    var cost := Quotient(Wrap(deltaNs * 1000), items);
    if cost == 0 then 1 else cost
  }

  function EvaluateSoftware(c: Context, t: Tick): (r: (Context, Outcome))
    requires WellFormed(c) && c.mode == Software
    ensures WellFormed(r.0)
  {
    var d := TryRecover(c, t);
    if d.mode == Hardware then (d, QUIET) else EvaluateCost(d, t)
  }

  /** Software mode after a reprobe that did not leave it. */
  function EvaluateCost(d: Context, t: Tick): (r: (Context, Outcome))
    requires WellFormed(d)
    ensures WellFormed(r.0)
  {
    var e := d.(swLastIterations := t.iterations, swLastNs := t.nowNs);
    if !d.softwareAdaptation then (e.(softwareAdaptation := true), QUIET)
    else
      var items := Advance(t.iterations, d.swLastIterations);
      var deltaNs := Advance(t.nowNs, d.swLastNs);
      if items == 0 || deltaNs == 0 then (e, QUIET)
      else
        var r := Process(e, Sample(SoftwareCost(deltaNs, items), 0, 0, e.llcOpen, Overlaid(t.cfg, e.stay.degraded),
          Some(t.telemetry)));
        (r.0, r.1.(eval := r.1.eval.(performanceAvailable := false)))
  }

  function NoRunningProgress(c: Context, nowNs: U64): (r: (Context, Outcome))
    requires WellFormed(c)
    ensures WellFormed(r.0)
  {
    var d := c.(zeroRunning := c.zeroRunning + 1);
    if d.zeroRunning < ZERO_RUNNING_LIMIT then (d, QUIET) else (FailClosed(d, nowNs), FAIL_CLOSED)
  }

  function RecoverLlc(c: Context, t: Tick): (r: Context) {
    if c.llcOpen || t.llcReopened.None? then c
    else c.(llcOpen := true, lastLlc := t.llcReopened.value)
  }

  /** What the deltas of two ordered reads amount to. */
  datatype Delta = Stalled | Idle | Unscaled | Unrelated | Measured(sample: Sample)

  /** `items` work items and `misses` cache misses went with the deltas. */
  function Classify(last: Group, now: Group, items: U64, misses: U64, ownWorkload: bool, llcOpen: bool,
      cfg: Option<Config>, telemetry: Telemetry): (r: Delta)
    requires GroupOrderValid(last, now)
  {
    var enabled, running := now.enabled - last.enabled, now.running - last.running;
    if running == 0 || enabled == 0 then Stalled
    else if now.insns == last.insns then Idle
    else
      var cycles := ScaleCounter(now.cycles - last.cycles, enabled, running);
      var insns := ScaleCounter(now.insns - last.insns, enabled, running);
      if cycles == 0 || insns == 0 then Unscaled
      else if !ownWorkload && items == 0 then Unrelated
      else Measured(Sample(CpiMilli(cycles, insns), WorkCostMilli(cycles, items), MpkiMilli(misses, insns),
        llcOpen, cfg, Some(telemetry)))
  }

  /** Main result: a pair of ordered reads is measured exactly when both times and the instructions advanced,
      both counters scale to something, and the workload is the runtime's own or completed work. */
  lemma MeasuredExactlyWhen(last: Group, now: Group, items: U64, misses: U64, ownWorkload: bool, llcOpen: bool,
      cfg: Option<Config>, telemetry: Telemetry)
    requires GroupOrderValid(last, now)
    ensures var enabled, running := now.enabled - last.enabled, now.running - last.running;
            && (Classify(last, now, items, misses, ownWorkload, llcOpen, cfg, telemetry).Measured? <==>
                  && enabled > 0 && running > 0 && now.insns > last.insns
                  && ScaleCounter(now.cycles - last.cycles, enabled, running) > 0
                  && ScaleCounter(now.insns - last.insns, enabled, running) > 0 && (ownWorkload || items > 0))
  {
  }

  /** Main result: the sample is the floor of cycles per instruction, of cycles per work item and of misses
      per thousand instructions, in thousandths, while each fits 64 bits; without multiplexing those
      are the counter deltas themselves. */
  lemma MeasuredSampleIsFloor(last: Group, now: Group, items: U64, misses: U64, ownWorkload: bool, llcOpen: bool,
      cfg: Option<Config>, telemetry: Telemetry, s: Sample)
    requires GroupOrderValid(last, now)
    requires Classify(last, now, items, misses, ownWorkload, llcOpen, cfg, telemetry) == Measured(s)
    ensures var enabled, running := now.enabled - last.enabled, now.running - last.running;
            var cycles, insns := ScaleCounter(now.cycles - last.cycles, enabled, running),
                                 ScaleCounter(now.insns - last.insns, enabled, running);
            && (enabled == running ==> cycles == now.cycles - last.cycles && insns == now.insns - last.insns)
            && (cycles * 1000 < TWO64 ==> IsFloor(s.cpi, cycles * 1000, insns))
            && (misses * 1000000 < TWO64 ==> IsFloor(s.mpki, misses * 1000000, insns))
            && (items == 0 ==> s.work == 0)
            && (items > 0 && cycles * 1000 < TWO64 ==> IsFloor(s.work, cycles * 1000, items))
            && s.llcOpen == llcOpen && s.cfg == cfg && s.telemetry == Some(telemetry)
  {
    var enabled, running := now.enabled - last.enabled, now.running - last.running;
    var cycles := ScaleCounter(now.cycles - last.cycles, enabled, running);
    var insns := ScaleCounter(now.insns - last.insns, enabled, running);
    if enabled == running {
      UnscaledCounter(now.cycles - last.cycles, enabled);
      UnscaledCounter(now.insns - last.insns, enabled);
    }
    if cycles * 1000 < TWO64 {
      CpiIsFloor(cycles, insns);
      if items > 0 {
        WorkCostIsFloor(cycles, items);
      }
    }
    if misses * 1000000 < TWO64 {
      MpkiIsFloor(misses, insns);
    }
  }

  lemma CpiIsFloor(cycles: U64, insns: U64)
    requires insns > 0 && cycles * 1000 < TWO64
    ensures IsFloor(CpiMilli(cycles, insns), cycles * 1000, insns)
  {
    WrapFits(cycles * 1000);
    Floor(cycles * 1000, insns);
  }

  lemma MpkiIsFloor(misses: U64, insns: U64)
    requires insns > 0 && misses * 1000000 < TWO64
    ensures IsFloor(MpkiMilli(misses, insns), misses * 1000000, insns)
  {
    WrapFits(misses * 1000000);
    Floor(misses * 1000000, insns);
  }

  lemma WorkCostIsFloor(cycles: U64, items: U64)
    requires items > 0 && cycles * 1000 < TWO64
    ensures IsFloor(WorkCostMilli(cycles, items), cycles * 1000, items)
  {
    GuardShare(cycles * 1000, items);
    WrapFits(cycles * 1000 / items);
    Floor(cycles * 1000, items);
  }

  /** Reads that fail, have the wrong layout or run backwards leave hardware mode. */
  function EvaluateHardware(c: Context, t: Tick): (r: (Context, Outcome))
    requires WellFormed(c) && c.mode == Hardware && c.validated
    ensures WellFormed(r.0)
  {
    var d := RecoverLlc(c, t);
    if t.group.None? || t.group.value.nr != 2 then (FailClosed(d, t.nowNs), FAIL_CLOSED)
    else
      var now := t.group.value;
      var llcNow := if d.llcOpen && t.llc.Some? then t.llc.value else 0;
      var e := d.(llcOpen := d.llcOpen && t.llc.Some?);
      if e.lastGroup.None? then (e.(lastGroup := Some(now), lastLlc := llcNow), QUIET)
      else if !GroupOrderValid(e.lastGroup.value, now) then (FailClosed(e, t.nowNs), FAIL_CLOSED)
      else EvaluateDeltas(e, t, e.lastGroup.value, now, llcNow)
  }

  function MoveCounters(c: Context, now: Group, llcNow: U64, iterations: U64): (r: Context) {
    c.(zeroRunning := 0, lastGroup := Some(now), lastLlc := llcNow, hwLastIterations := iterations)
  }

  function EvaluateDeltas(c: Context, t: Tick, last: Group, now: Group, llcNow: U64): (r: (Context, Outcome))
    requires WellFormed(c) && GroupOrderValid(last, now)
    ensures WellFormed(r.0)
  {
    var items := Advance(t.iterations, c.hwLastIterations);
    var misses := if c.llcOpen then Advance(llcNow, c.lastLlc) else 0;
    match Classify(last, now, items, misses, c.ownWorkload, c.llcOpen, Overlaid(t.cfg, c.stay.degraded), t.telemetry)
    case Stalled => NoRunningProgress(c, t.nowNs)
    case Idle => (MoveCounters(c, now, llcNow, c.hwLastIterations), QUIET)
    case Unscaled => NoRunningProgress(c.(zeroRunning := 0), t.nowNs)
    case Unrelated =>
      (MoveCounters(c, now, llcNow, t.iterations), Outcome(false, NO_EVAL.(telemetry := Some(t.telemetry))))
    case Measured(sample) => Process(MoveCounters(c, now, llcNow, t.iterations), sample)
  }

  function Evaluate(c: Context, t: Tick): (r: (Context, Outcome))
    requires WellFormed(c)
    ensures WellFormed(r.0)
  {
    if c.mode == Software then EvaluateSoftware(c, t)
    else if c.mode == Hardware && c.validated then EvaluateHardware(c, t)
    else (c, FAIL_CLOSED)
  }

  function Run(c: Context, ticks: seq<Tick>): (r: (Context, seq<Outcome>))
    requires WellFormed(c)
    ensures WellFormed(r.0) && |r.1| == |ticks|
  {
    if ticks == [] then (c, [])
    else
      var before := Run(c, ticks[..|ticks| - 1]);
      var step := Evaluate(before.0, ticks[|ticks| - 1]);
      (step.0, before.1 + [step.1])
  }

  // ---------------------------------------------------------------- isolation

  /** Equal up to what the current domain can never read: in software mode the baselines and the
      hardware cursors, and the software cursor until adaptation has seeded it. */
  predicate SameDomain(a: Context, b: Context) {
    && a.mode == b.mode && a.mode != NoPerf
    && a.validated == b.validated && a.softwareAdaptation == b.softwareAdaptation
    && a.llcOpen == b.llcOpen && a.ownWorkload == b.ownWorkload && a.stay == b.stay
    && a.pipe.avg == b.pipe.avg && a.pipe.window == b.pipe.window && a.pipe.trimmed == b.pipe.trimmed
    && a.pipe.refs.calibratedCpi == b.pipe.refs.calibratedCpi
    && a.pipe.refs.calibratedWork == b.pipe.refs.calibratedWork
    && a.lastGroup == b.lastGroup && a.lastLlc == b.lastLlc && a.zeroRunning == b.zeroRunning
    && (a.softwareAdaptation ==> a.swLastIterations == b.swLastIterations && a.swLastNs == b.swLastNs)
    && (a.mode == Hardware ==>
          a.pipe == b.pipe && a.hwLastIterations == b.hwLastIterations && !a.softwareAdaptation)
    && (a.mode == Software ==> !a.llcOpen)
  }

  /** A sample of positive CPI without work or LLC counter does not read the baselines. */
  lemma MeasureIgnoresBaselines(p: Pipeline, q: Pipeline, s: Sample)
    requires |p.window| <= RATIO_HISTORY && p.window == q.window && p.avg == q.avg
    requires p.refs.calibratedCpi == q.refs.calibratedCpi
    requires p.refs.calibratedWork == q.refs.calibratedWork
    requires s.cpi > 0 && s.work == 0 && !s.llcOpen
    ensures var p', q' := Measure(p, s), Measure(q, s);
            && p'.avg == q'.avg && p'.window == q'.window && p'.trimmed == q'.trimmed
            && p'.refs.calibratedCpi == q'.refs.calibratedCpi
            && p'.refs.calibratedWork == q'.refs.calibratedWork
            && Assess(p', s) == Assess(q', s)
  {
  }

  /** A reprobe cannot tell the two apart, and one that succeeds forgets all software history. */
  lemma RecoverySameDomain(a: Context, b: Context, t: Tick)
    requires SameDomain(a, b) && a.mode == Software
    ensures SameDomain(TryRecover(a, t), TryRecover(b, t))
  {
    if t.reprobe.Observed? && HardwareBaseline(t.reprobe.observation, t.cfg).Some? {
      var o := t.reprobe.observation;
      AdoptForgets(a, b, HardwareBaseline(o, t.cfg).value, o.llcOpen, t.nowNs);
    }
  }

  lemma SoftwareSameDomain(a: Context, b: Context, t: Tick)
    requires WellFormed(a) && WellFormed(b) && SameDomain(a, b) && a.mode == Software
    ensures var x, y := EvaluateSoftware(a, t), EvaluateSoftware(b, t);
            SameDomain(x.0, y.0) && x.1 == y.1
  {
    var c, d := TryRecover(a, t), TryRecover(b, t);
    RecoverySameDomain(a, b, t);
    if c.mode == Software && c.softwareAdaptation {
      var items := Advance(t.iterations, c.swLastIterations);
      var deltaNs := Advance(t.nowNs, c.swLastNs);
      if items > 0 && deltaNs > 0 {
        MeasureIgnoresBaselines(c.pipe, d.pipe,
          Sample(SoftwareCost(deltaNs, items), 0, 0, false, Overlaid(t.cfg, c.stay.degraded), Some(t.telemetry)));
      }
    }
  }

  /** The context with another software cursor. */
  function Retime(c: Context, iterations: U64, ns: U64): (r: Context) {
    c.(swLastIterations := iterations, swLastNs := ns)
  }

  lemma ProcessRetimed(c: Context, s: Sample, iterations: U64, ns: U64)
    requires WellFormed(c)
    ensures Process(Retime(c, iterations, ns), s)
         == (Retime(Process(c, s).0, iterations, ns), Process(c, s).1)
  {
  }

  lemma FailClosedRetimed(c: Context, nowNs: U64, iterations: U64, ns: U64)
    ensures FailClosed(Retime(c, iterations, ns), nowNs) == Retime(FailClosed(c, nowNs), iterations, ns)
  {
  }

  lemma NoProgressRetimed(c: Context, nowNs: U64, iterations: U64, ns: U64)
    requires WellFormed(c)
    ensures NoRunningProgress(Retime(c, iterations, ns), nowNs)
         == (Retime(NoRunningProgress(c, nowNs).0, iterations, ns), NoRunningProgress(c, nowNs).1)
  {
    FailClosedRetimed(c.(zeroRunning := c.zeroRunning + 1), nowNs, iterations, ns);
  }

  lemma DeltasRetimed(c: Context, t: Tick, last: Group, now: Group, llcNow: U64, iterations: U64, ns: U64)
    requires WellFormed(c) && GroupOrderValid(last, now)
    ensures EvaluateDeltas(Retime(c, iterations, ns), t, last, now, llcNow)
         == (Retime(EvaluateDeltas(c, t, last, now, llcNow).0, iterations, ns),
             EvaluateDeltas(c, t, last, now, llcNow).1)
  {
    var items := Advance(t.iterations, c.hwLastIterations);
    var misses := if c.llcOpen then Advance(llcNow, c.lastLlc) else 0;
    match Classify(last, now, items, misses, c.ownWorkload, c.llcOpen, Overlaid(t.cfg, c.stay.degraded), t.telemetry)
    case Stalled => NoProgressRetimed(c, t.nowNs, iterations, ns);
    case Idle =>
    case Unscaled => NoProgressRetimed(c.(zeroRunning := 0), t.nowNs, iterations, ns);
    case Unrelated =>
    case Measured(sample) =>
      ProcessRetimed(MoveCounters(c, now, llcNow, t.iterations), sample, iterations, ns);
  }

  /** A hardware evaluation never reads the software cursor. */
  lemma HardwareRetimed(c: Context, t: Tick, iterations: U64, ns: U64)
    requires WellFormed(c) && c.mode == Hardware && c.validated
    ensures EvaluateHardware(Retime(c, iterations, ns), t)
         == (Retime(EvaluateHardware(c, t).0, iterations, ns), EvaluateHardware(c, t).1)
  {
    var d := RecoverLlc(c, t);
    assert RecoverLlc(Retime(c, iterations, ns), t) == Retime(d, iterations, ns);
    FailClosedRetimed(d, t.nowNs, iterations, ns);
    if t.group.Some? && t.group.value.nr == 2 {
      var e := d.(llcOpen := d.llcOpen && t.llc.Some?);
      FailClosedRetimed(e, t.nowNs, iterations, ns);
      if e.lastGroup.Some? && GroupOrderValid(e.lastGroup.value, t.group.value) {
        DeltasRetimed(e, t, e.lastGroup.value, t.group.value,
          if d.llcOpen && t.llc.Some? then t.llc.value else 0, iterations, ns);
      }
    }
  }

  /** Outside software adaptation, with no LLC counter open in software mode. */
  predicate Unadapted(c: Context) {
    !c.softwareAdaptation && c.mode != NoPerf && (c.mode == Software ==> !c.llcOpen)
  }

  lemma DeltasUnadapted(c: Context, t: Tick, last: Group, now: Group, llcNow: U64)
    requires WellFormed(c) && GroupOrderValid(last, now) && c.mode == Hardware && Unadapted(c)
    ensures Unadapted(EvaluateDeltas(c, t, last, now, llcNow).0)
  {
  }

  lemma HardwareUnadapted(c: Context, t: Tick)
    requires WellFormed(c) && c.mode == Hardware && c.validated && Unadapted(c)
    ensures Unadapted(EvaluateHardware(c, t).0)
  {
    var d := RecoverLlc(c, t);
    var e := d.(llcOpen := d.llcOpen && t.llc.Some?);
    if t.group.Some? && e.lastGroup.Some? && GroupOrderValid(e.lastGroup.value, t.group.value) {
      DeltasUnadapted(e, t, e.lastGroup.value, t.group.value,
        if d.llcOpen && t.llc.Some? then t.llc.value else 0);
    }
  }

  lemma HardwareSameDomain(a: Context, b: Context, t: Tick)
    requires WellFormed(a) && WellFormed(b) && SameDomain(a, b) && a.mode == Hardware && a.validated
    ensures var x, y := EvaluateHardware(a, t), EvaluateHardware(b, t);
            SameDomain(x.0, y.0) && x.1 == y.1
  {
    assert b == Retime(a, b.swLastIterations, b.swLastNs);
    HardwareRetimed(a, t, b.swLastIterations, b.swLastNs);
    HardwareUnadapted(a, t);
  }

  lemma {:induction false} RunSameDomain(a: Context, b: Context, ticks: seq<Tick>)
    requires WellFormed(a) && WellFormed(b) && SameDomain(a, b)
    ensures SameDomain(Run(a, ticks).0, Run(b, ticks).0)
    ensures Run(a, ticks).1 == Run(b, ticks).1
  {
    if ticks != [] {
      var before, t := ticks[..|ticks| - 1], ticks[|ticks| - 1];
      RunSameDomain(a, b, before);
      var c, d := Run(a, before).0, Run(b, before).0;
      if c.mode == Software {
        SoftwareSameDomain(c, d, t);
      } else if c.validated {
        HardwareSameDomain(c, d, t);
      }
    }
  }

  /** Main result: two contexts that fall out of hardware mode, whatever their hardware histories,
      report exactly the same on every later run of ticks: ratios, trimmed ratios, memory-bound
      flags, severities and verdicts, through failed reprobes, recovery and later falls. */
  lemma HardwareHistoryIsForgotten(a: Context, b: Context, nowNs: U64, ticks: seq<Tick>)
    requires WellFormed(a) && WellFormed(b)
    requires a.mode == Hardware && b.mode == Hardware && a.ownWorkload == b.ownWorkload
    ensures Run(FailClosed(a, nowNs), ticks).1 == Run(FailClosed(b, nowNs), ticks).1
  {
    RunSameDomain(FailClosed(a, nowNs), FailClosed(b, nowNs), ticks);
  }

  lemma AdoptedSameDomain(a: Context, b: Context, t: Tick)
    requires WellFormed(a) && WellFormed(b) && a.mode == Software && b.mode == Software
    requires a.ownWorkload == b.ownWorkload
    requires t.reprobe.Observed? && HardwareBaseline(t.reprobe.observation, t.cfg).Some?
    ensures SameDomain(Evaluate(a, t).0, Evaluate(b, t).0)
    ensures Evaluate(a, t).1 == QUIET == Evaluate(b, t).1
  {
    var o := t.reprobe.observation;
    var b0 := HardwareBaseline(o, t.cfg).value;
    assert TryRecover(a, t) == Adopt(a, b0, o.llcOpen, t.nowNs) && TryRecover(b, t) == Adopt(b, b0, o.llcOpen, t.nowNs);
    AdoptForgets(a, b, b0, o.llcOpen, t.nowNs);
  }

  lemma AdoptForgets(a: Context, b: Context, base: Baseline, llcOpen: bool, nowNs: U64)
    requires a.mode == Software && b.mode == Software && a.ownWorkload == b.ownWorkload
    ensures SameDomain(Adopt(a, base, llcOpen, nowNs), Adopt(b, base, llcOpen, nowNs))
    ensures Adopt(a, base, llcOpen, nowNs).mode == Hardware == Adopt(b, base, llcOpen, nowNs).mode
  {
  }

  /** The other direction: contexts that leave software mode through the same accepted baseline
      report the same ever after, whatever their software histories. */
  lemma SoftwareHistoryIsForgotten(a: Context, b: Context, t: Tick, ticks: seq<Tick>)
    requires WellFormed(a) && WellFormed(b) && a.mode == Software && b.mode == Software
    requires a.ownWorkload == b.ownWorkload
    requires t.reprobe.Observed? && HardwareBaseline(t.reprobe.observation, t.cfg).Some?
    ensures Evaluate(a, t).1 == Evaluate(b, t).1
    ensures Run(Evaluate(a, t).0, ticks).1 == Run(Evaluate(b, t).0, ticks).1
  {
    AdoptedSameDomain(a, b, t);
    RunSameDomain(Evaluate(a, t).0, Evaluate(b, t).0, ticks);
  }

  predicate Accepted(t: Tick) {
    t.reprobe.Observed? && HardwareBaseline(t.reprobe.observation, t.cfg).Some?
  }

  lemma SoftwareModes(c: Context, t: Tick)
    requires WellFormed(c) && c.mode == Software
    ensures EvaluateSoftware(c, t).0.mode == if Accepted(t) then Hardware else Software
  {
  }

  lemma HardwareModes(c: Context, t: Tick)
    requires WellFormed(c) && c.mode == Hardware && c.validated
    ensures EvaluateHardware(c, t).0.mode in {Hardware, Software}
  {
  }

  lemma EvaluateModes(c: Context, t: Tick)
    requires WellFormed(c) && c.mode != NoPerf
    ensures Evaluate(c, t).0.mode != NoPerf
    ensures c.mode == Software && Evaluate(c, t).0.mode == Hardware ==> Accepted(t)
  {
    if c.mode == Software {
      SoftwareModes(c, t);
    } else if c.validated {
      HardwareModes(c, t);
    }
  }

  function ModesOf(c: Context, ticks: seq<Tick>): (r: seq<PerfMode>)
    requires WellFormed(c)
    ensures |r| == |ticks| + 1 && r[|ticks|] == Run(c, ticks).0.mode
  {
    if ticks == [] then [c.mode]
    else ModesOf(c, ticks[..|ticks| - 1]) + [Run(c, ticks).0.mode]
  }

  predicate ModeStep(before: PerfMode, after: PerfMode, t: Tick) {
    before != NoPerf && (before == Software && after == Hardware ==> Accepted(t))
  }

  lemma LastModeStep(c: Context, ticks: seq<Tick>)
    requires WellFormed(c) && c.mode != NoPerf && ticks != []
    ensures ModeStep(Run(c, ticks[..|ticks| - 1]).0.mode, Run(c, ticks).0.mode, ticks[|ticks| - 1])
  {
    RunKeepsMode(c, ticks[..|ticks| - 1]);
    EvaluateModes(Run(c, ticks[..|ticks| - 1]).0, ticks[|ticks| - 1]);
  }

  lemma {:induction false} ModesStep(c: Context, ticks: seq<Tick>, k: nat)
    requires WellFormed(c) && c.mode != NoPerf && k < |ticks|
    ensures ModeStep(ModesOf(c, ticks)[k], ModesOf(c, ticks)[k + 1], ticks[k])
  {
    if k == |ticks| - 1 {
      LastModeStep(c, ticks);
    } else {
      ModesStep(c, ticks[..|ticks| - 1], k);
    }
  }

  lemma {:induction false} RunKeepsMode(c: Context, ticks: seq<Tick>)
    requires WellFormed(c) && c.mode != NoPerf
    ensures Run(c, ticks).0.mode != NoPerf
  {
    if ticks != [] {
      RunKeepsMode(c, ticks[..|ticks| - 1]);
      EvaluateModes(Run(c, ticks[..|ticks| - 1]).0, ticks[|ticks| - 1]);
    }
  }

  /** Hardware mode is entered again only through an accepted baseline: a run that starts in
      software mode and ends in hardware mode contains one. */
  lemma RecoveryNeedsBaseline(c: Context, ticks: seq<Tick>) returns (i: nat)
    requires WellFormed(c) && c.mode == Software && Run(c, ticks).0.mode == Hardware
    ensures i < |ticks| && Accepted(ticks[i])
  {
    var modes := ModesOf(c, ticks);
    FirstMode(c, ticks);
    i := 0;
    while i + 1 < |modes| && modes[i + 1] != Hardware
      invariant i < |modes| && modes[i] == Software
    {
      ModesStep(c, ticks, i);
      if i + 1 < |ticks| { ModesStep(c, ticks, i + 1); }
      i := i + 1;
    }
    ModesStep(c, ticks, i);
  }

  lemma {:induction false} FirstMode(c: Context, ticks: seq<Tick>)
    requires WellFormed(c)
    ensures ModesOf(c, ticks)[0] == c.mode
  {
    if ticks != [] { FirstMode(c, ticks[..|ticks| - 1]); }
  }

  /** Counters that cannot be read, have the wrong layout or run backwards leave hardware mode at
      once, throttled and unvalidated. */
  lemma LostCountersFailClosed(c: Context, t: Tick)
    requires WellFormed(c) && c.mode == Hardware && c.validated
    requires t.group.None? || t.group.value.nr != 2
      || (c.lastGroup.Some? && !GroupOrderValid(c.lastGroup.value, t.group.value))
    ensures var r := Evaluate(c, t);
            r.0.mode == Software && !r.0.validated && r.1 == FAIL_CLOSED && r.0.pipe.window == []
  {
  }

  /** A group that stops accumulating time is tolerated twice; the third sample in a row fails
      closed, and any sample that accumulates starts the count again. */
  lemma StalledCountersFailClosed(c: Context, t: Tick, last: Group, now: Group, llcNow: U64)
    requires WellFormed(c) && c.mode == Hardware && GroupOrderValid(last, now)
    ensures var r, stalled := EvaluateDeltas(c, t, last, now, llcNow).0, now.running == last.running || now.enabled == last.enabled;
            && (stalled ==> (r.mode == Software <==> c.zeroRunning >= 2))
            && (stalled && c.zeroRunning < 2 ==> r == c.(zeroRunning := c.zeroRunning + 1))
            && (!stalled ==> r.mode == Hardware && r.zeroRunning <= 1)
  {
  }

  /** A reprobe that is not due, fails or is rejected leaves mode, pipeline and software cursor as
      they were. */
  lemma FailedReprobeIsHarmless(c: Context, t: Tick)
    requires c.mode == Software && !Accepted(t)
    ensures var d := TryRecover(c, t);
            && d.mode == Software && d.pipe == c.pipe && d.softwareAdaptation == c.softwareAdaptation
            && d.swLastIterations == c.swLastIterations && d.swLastNs == c.swLastNs && d.stay == c.stay
  {
  }

  lemma RatioToReference(x: U64)
    requires 0 < x < 0x40_0000_0000_0000
    ensures RoundedRatio(x, x) == 1000
  {
    Remainder(x * 1000 + x / 2, x, 1000, x / 2);
  }

  /** Main result: after a recovery the workload that was observed reads as nominal, whatever the
      software history: its first sample has the ratio 1000 against the new references. */
  lemma ObservedWorkloadIsNominal(c: Context, t: Tick, s: Sample)
    requires WellFormed(c) && c.mode == Software && Accepted(t)
    requires var refs := HardwareBaseline(t.reprobe.observation, t.cfg).value.pipe.refs;
             && s.cpi == refs.baselineCpi && s.work == refs.baselineWork
             && 0 < s.cpi < 0x40_0000_0000_0000 && s.work < 0x40_0000_0000_0000
    ensures Measure(TryRecover(c, t).pipe, s).window == [1000]
  {
    var b := HardwareBaseline(t.reprobe.observation, t.cfg).value;
    assert TryRecover(c, t) == Adopt(c, b, t.reprobe.observation.llcOpen, t.nowNs);
    AdoptedPipe(c, b, t.reprobe.observation.llcOpen, t.nowNs);
    RatioToReference(s.cpi);
    if s.work > 0 {
      RatioToReference(s.work);
    }
  }

  lemma AdoptedPipe(c: Context, b: Baseline, llcOpen: bool, nowNs: U64)
    requires c.mode == Software
    ensures Adopt(c, b, llcOpen, nowNs).pipe == ResetDomain(b.pipe)
  {
  }
}
