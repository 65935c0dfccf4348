/** What the perf context reports over runs of ticks in hardware mode: a workload that stays slow
    against its reference is throttled at every measured tick, a healthy one at none. */
module PerfVerdicts {

  import opened SimdWidth
  import opened Statistics
  import opened WidthAuthorization
  import opened PerfPipeline
  import opened PerfModes
  import opened SustainedDegradation

  predicate InHardware(c: Context) {
    WellFormed(c) && c.mode == Hardware && c.validated
  }

  /** The sample that a tick measures, if its counters were read in order, advanced and did work. */
  function MeasuredSample(c: Context, t: Tick): (s: Option<Sample>) {
    var d := RecoverLlc(c, t);
    if t.group.None? || c.lastGroup.None? || !GroupOrderValid(c.lastGroup.value, t.group.value) then None
    else
      var open := d.llcOpen && t.llc.Some?;
      var misses := if open then Advance(t.llc.value, d.lastLlc) else 0;
      SampleOf(Classify(c.lastGroup.value, t.group.value, Advance(t.iterations, c.hwLastIterations), misses, c.ownWorkload,
        open, Overlaid(t.cfg, c.stay.degraded), t.telemetry))
  }

  /** A measured tick is judged by its severity; any other tick that stays in hardware mode is not
      throttled and leaves the history alone. */
  predicate Judged(p: Pipeline, sample: Option<Sample>, d: Context, out: Outcome)
    requires |p.window| <= RATIO_HISTORY
  {
    match sample
    case Some(s) =>
      && InHardware(d) && d.pipe == Measure(p, s) && out.eval == Assess(d.pipe, s)
      && (out.throttled <==> out.eval.severity > 0)
    case None =>
      && !out.eval.performanceAvailable
      && (d.mode == Hardware ==> InHardware(d) && d.pipe == p && !out.throttled)
  }

  lemma HardwareVerdict(c: Context, t: Tick)
    requires InHardware(c)
    ensures Judged(c.pipe, MeasuredSample(c, t), Evaluate(c, t).0, Evaluate(c, t).1)
  {
    var d := RecoverLlc(c, t);
    var e := d.(llcOpen := d.llcOpen && t.llc.Some?);
    if t.group.Some? && c.lastGroup.Some? && GroupOrderValid(c.lastGroup.value, t.group.value) {
      var llcNow := if d.llcOpen && t.llc.Some? then t.llc.value else 0;
      assert Evaluate(c, t) == EvaluateDeltas(e, t, c.lastGroup.value, t.group.value, llcNow);
      DeltaVerdict(e, t, c.lastGroup.value, t.group.value, llcNow);
    }
  }

  function SampleOf(d: Delta): (s: Option<Sample>) {
    match d
    case Measured(sample) => Some(sample)
    case _ => None
  }

  lemma DeltaVerdict(c: Context, t: Tick, last: Group, now: Group, llcNow: U64)
    requires InHardware(c) && GroupOrderValid(last, now)
    ensures var (d, out) := EvaluateDeltas(c, t, last, now, llcNow);
            Judged(c.pipe,
              SampleOf(Classify(last, now, Advance(t.iterations, c.hwLastIterations),
                if c.llcOpen then Advance(llcNow, c.lastLlc) else 0, c.ownWorkload, c.llcOpen,
                Overlaid(t.cfg, c.stay.degraded), t.telemetry)), d, out)
  {
  }

  /** In every mode the verdict is a positive severity. */
  lemma ThrottledExactlyWhenSevere(c: Context, t: Tick)
    requires WellFormed(c)
    ensures var out := Evaluate(c, t).1; out.throttled <==> out.eval.severity > 0
  {
    if c.mode == Hardware && c.validated {
      var d := RecoverLlc(c, t);
      var e := d.(llcOpen := d.llcOpen && t.llc.Some?);
      if t.group.Some? && c.lastGroup.Some? && GroupOrderValid(c.lastGroup.value, t.group.value) {
        DeltaSeverity(e, t, c.lastGroup.value, t.group.value, if d.llcOpen && t.llc.Some? then t.llc.value else 0);
      }
    }
  }

  lemma DeltaSeverity(c: Context, t: Tick, last: Group, now: Group, llcNow: U64)
    requires WellFormed(c) && GroupOrderValid(last, now)
    ensures var out := EvaluateDeltas(c, t, last, now, llcNow).1; out.throttled <==> out.eval.severity > 0
  {
  }

  // ---------------------------------------------------------------- chains of evaluations

  /** Contexts linked by the evaluations of ticks, all in hardware mode. */
  ghost predicate Chain(cs: seq<Context>, ticks: seq<Tick>) {
    && |cs| == |ticks| + 1 && (forall i :: 0 <= i < |cs| ==> InHardware(cs[i]))
    && forall i :: 0 <= i < |ticks| ==> Evaluate(cs[i], ticks[i]).0 == cs[i + 1]
  }

  /** Every measured tick is slow against the references. */
  predicate Slow(cs: seq<Context>, ticks: seq<Tick>, refs: References, threshold: U64)
    requires |cs| == |ticks| + 1 && refs.calibratedCpi > 0
  {
    forall i :: 0 <= i < |ticks| && MeasuredSample(cs[i], ticks[i]).Some? ==>
      var s := MeasuredSample(cs[i], ticks[i]).value; BoundedSample(s, threshold) && Degraded(s, refs, threshold)
  }

  lemma {:induction false} SlowHistory(cs: seq<Context>, ticks: seq<Tick>, threshold: U64, n: nat)
    requires Chain(cs, ticks) && n < |cs| && cs[0].pipe.window == [] && cs[0].pipe.refs.calibratedCpi > 0
    requires threshold < U32_MAX && Slow(cs, ticks, cs[0].pipe.refs, threshold)
    ensures cs[n].pipe.refs == cs[0].pipe.refs
    ensures Within(cs[n].pipe.window, threshold + 1, U32_MAX)
  {
    if n > 0 {
      SlowHistory(cs, ticks, threshold, n - 1);
      HardwareVerdict(cs[n - 1], ticks[n - 1]);
      assert Evaluate(cs[n - 1], ticks[n - 1]).0 == cs[n];
      if MeasuredSample(cs[n - 1], ticks[n - 1]).Some? {
        DegradedStep(cs[n - 1].pipe, MeasuredSample(cs[n - 1], ticks[n - 1]).value, threshold);
      }
    }
  }

  /** A slow workload is throttled at every measured tick of a chain. */
  lemma SlowChainIsThrottled(cs: seq<Context>, ticks: seq<Tick>, threshold: U64, k: nat)
    requires Chain(cs, ticks) && k < |ticks| && cs[0].pipe.window == [] && cs[0].pipe.refs.calibratedCpi > 0
    requires threshold < U32_MAX && Slow(cs, ticks, cs[0].pipe.refs, threshold)
    ensures MeasuredSample(cs[k], ticks[k]).Some? ==> Evaluate(cs[k], ticks[k]).1.throttled
    ensures MeasuredSample(cs[k], ticks[k]).None? ==> !Evaluate(cs[k], ticks[k]).1.eval.performanceAvailable
  {
    SlowHistory(cs, ticks, threshold, k);
    HardwareVerdict(cs[k], ticks[k]);
    if MeasuredSample(cs[k], ticks[k]).Some? {
      var s := MeasuredSample(cs[k], ticks[k]).value;
      DegradedStep(cs[k].pipe, s, threshold);
      AboveThresholdThrottles(Measure(cs[k].pipe, s), s, threshold);
    }
  }

  /** The outcomes of a chain. */
  ghost predicate Outcomes(cs: seq<Context>, ticks: seq<Tick>, outs: seq<Outcome>) {
    Chain(cs, ticks) && |outs| == |ticks| && forall i :: 0 <= i < |ticks| ==> outs[i] == Evaluate(cs[i], ticks[i]).1
  }

  predicate ThrottledWhenMeasured(outs: seq<Outcome>) {
    forall i :: 0 <= i < |outs| && outs[i].eval.performanceAvailable ==> outs[i].throttled
  }

  lemma SlowOutcomes(cs: seq<Context>, ticks: seq<Tick>, outs: seq<Outcome>, threshold: U64)
    requires Outcomes(cs, ticks, outs) && cs[0].pipe.window == [] && cs[0].pipe.refs.calibratedCpi > 0
    requires threshold < U32_MAX && Slow(cs, ticks, cs[0].pipe.refs, threshold)
    ensures ThrottledWhenMeasured(outs)
  {
    forall i | 0 <= i < |outs| && outs[i].eval.performanceAvailable ensures outs[i].throttled {
      SlowChainIsThrottled(cs, ticks, threshold, i);
    }
  }

  /** Every measured tick leaves a healthy pipeline. */
  predicate Fit(cs: seq<Context>, ticks: seq<Tick>, bound: U32)
    requires |cs| == |ticks| + 1
  {
    forall i :: 0 <= i < |ticks| && MeasuredSample(cs[i], ticks[i]).Some? ==>
      Healthy(cs[i + 1].pipe, MeasuredSample(cs[i], ticks[i]).value, bound)
  }

  lemma {:induction false} FitHistory(cs: seq<Context>, ticks: seq<Tick>, bound: U32, n: nat)
    requires Chain(cs, ticks) && n < |cs| && cs[0].pipe.window == [] && Fit(cs, ticks, bound)
    ensures Within(cs[n].pipe.window, 0, bound)
  {
    if n > 0 {
      FitHistory(cs, ticks, bound, n - 1);
      HardwareVerdict(cs[n - 1], ticks[n - 1]);
      assert Evaluate(cs[n - 1], ticks[n - 1]).0 == cs[n];
      if MeasuredSample(cs[n - 1], ticks[n - 1]).Some? {
        HealthyStep(cs[n - 1].pipe, MeasuredSample(cs[n - 1], ticks[n - 1]).value, bound);
      }
    }
  }

  /** A healthy workload is throttled at no tick of a chain. */
  lemma FitChainIsNeverThrottled(cs: seq<Context>, ticks: seq<Tick>, bound: U32, k: nat)
    requires Chain(cs, ticks) && k < |ticks| && cs[0].pipe.window == [] && Fit(cs, ticks, bound)
    ensures !Evaluate(cs[k], ticks[k]).1.throttled
  {
    FitHistory(cs, ticks, bound, k);
    HardwareVerdict(cs[k], ticks[k]);
    assert Evaluate(cs[k], ticks[k]).0 == cs[k + 1];
    if MeasuredSample(cs[k], ticks[k]).Some? {
      var s := MeasuredSample(cs[k], ticks[k]).value;
      HealthyStep(cs[k].pipe, s, bound);
      HealthyVerdict(cs[k + 1].pipe, s, bound);
    }
  }

  // ---------------------------------------------------------------- runs of ticks

  /** The context before each tick of a run, and after the last. */
  function Contexts(c: Context, ticks: seq<Tick>): (cs: seq<Context>)
    requires WellFormed(c)
    ensures |cs| == |ticks| + 1
    ensures forall i :: 0 <= i < |cs| ==> WellFormed(cs[i])
  {
    seq(|ticks| + 1, i requires 0 <= i <= |ticks| => Run(c, ticks[..i]).0)
  }

  lemma RunNext(c: Context, ticks: seq<Tick>, t: Tick)
    requires WellFormed(c)
    ensures var step := Evaluate(Run(c, ticks).0, t); Run(c, ticks + [t]) == (step.0, Run(c, ticks).1 + [step.1])
  {
    assert (ticks + [t])[..|ticks|] == ticks;
  }

  lemma RunAt(c: Context, ticks: seq<Tick>, k: nat)
    requires WellFormed(c) && k < |ticks|
    ensures Contexts(c, ticks)[k + 1] == Evaluate(Contexts(c, ticks)[k], ticks[k]).0
    ensures Run(c, ticks).1[k] == Evaluate(Contexts(c, ticks)[k], ticks[k]).1
  {
    var before, t := ticks[..k], ticks[k];
    assert ticks[..k + 1] == before + [t];
    RunNext(c, before, t);
    OutcomesExtend(c, ticks, k + 1);
    LastOf(Run(c, ticks).1, Run(c, before).1, Evaluate(Run(c, before).0, t).1);
  }

  lemma LastOf(outs: seq<Outcome>, init: seq<Outcome>, last: Outcome)
    requires |init| < |outs| && outs[..|init| + 1] == init + [last]
    ensures outs[|init|] == last
  {
    assert outs[..|init| + 1][|init|] == last;
  }

  lemma {:induction false} OutcomesExtend(c: Context, ticks: seq<Tick>, n: nat)
    requires WellFormed(c) && n <= |ticks|
    ensures Run(c, ticks).1[..n] == Run(c, ticks[..n]).1
    decreases |ticks|
  {
    if n < |ticks| {
      var before := ticks[..|ticks| - 1];
      OutcomesExtend(c, before, n);
      assert before[..n] == ticks[..n];
    } else {
      assert ticks[..n] == ticks;
    }
  }

  lemma RunIsChain(c: Context, ticks: seq<Tick>)
    requires WellFormed(c) && forall i :: 0 <= i <= |ticks| ==> InHardware(Contexts(c, ticks)[i])
    ensures Chain(Contexts(c, ticks), ticks)
  {
    forall i | 0 <= i < |ticks| ensures Evaluate(Contexts(c, ticks)[i], ticks[i]).0 == Contexts(c, ticks)[i + 1] {
      RunAt(c, ticks, i);
    }
  }

  /** Main result: in hardware mode, from an empty history with a calibrated reference, a run whose measured
      samples all exceed a threshold below 2^32 - 1 reports throttling at every measured tick, whatever
      idle, unrelated or stalled ticks lie between. */
  lemma SlowRunIsThrottled(c: Context, ticks: seq<Tick>, threshold: U64, k: nat)
    requires WellFormed(c) && c.pipe.window == [] && c.pipe.refs.calibratedCpi > 0 && threshold < U32_MAX
    requires forall i :: 0 <= i <= |ticks| ==> InHardware(Contexts(c, ticks)[i])
    requires Slow(Contexts(c, ticks), ticks, c.pipe.refs, threshold)
    requires k < |ticks| && MeasuredSample(Contexts(c, ticks)[k], ticks[k]).Some?
    ensures Run(c, ticks).1[k].throttled
  {
    RunIsChain(c, ticks);
    assert Contexts(c, ticks)[0] == c;
    SlowChainIsThrottled(Contexts(c, ticks), ticks, threshold, k);
    RunAt(c, ticks, k);
  }

  /** Main result: a run in hardware mode whose measured ratios stay within three quarters of every threshold
      in force reports throttling at no tick. */
  lemma FitRunIsNeverThrottled(c: Context, ticks: seq<Tick>, bound: U32, k: nat)
    requires WellFormed(c) && c.pipe.window == [] && k < |ticks|
    requires forall i :: 0 <= i <= |ticks| ==> InHardware(Contexts(c, ticks)[i])
    requires Fit(Contexts(c, ticks), ticks, bound)
    ensures !Run(c, ticks).1[k].throttled
  {
    RunIsChain(c, ticks);
    assert Contexts(c, ticks)[0] == c;
    FitChainIsNeverThrottled(Contexts(c, ticks), ticks, bound, k);
    RunAt(c, ticks, k);
  }
}
