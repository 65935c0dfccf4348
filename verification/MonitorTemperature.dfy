/** When the monitor loop sees the raw temperature: exactly when an evaluation of the perf context
    reports it, and what a hot package does to the loop otherwise. */
module MonitorTemperature {

  import opened SimdWidth
  import opened Statistics
  import opened PerfPipeline
  import opened PerfModes
  import opened WidthAuthorization
  import opened MonitorPerf
  import M = MonitorLoop
  import MonitorSafety

  /** An evaluation reaches the telemetry: in software mode when it is seeded, does not recover and both
      work and time have advanced; in hardware mode when the group was read and both times and the
      instructions have advanced and scale to something. */
  predicate ReachesTelemetry(c: Context, t: Tick) {
    if c.mode == Software then
      && !(t.reprobe.Observed? && HardwareBaseline(t.reprobe.observation, t.cfg).Some?)
      && c.softwareAdaptation && t.iterations > c.swLastIterations && t.nowNs > c.swLastNs
    else
      && c.mode == Hardware && c.validated && t.group.Some? && c.lastGroup.Some?
      && GroupOrderValid(c.lastGroup.value, t.group.value) && CountersAdvance(c.lastGroup.value, t.group.value)
  }

  predicate CountersAdvance(last: Group, now: Group)
    requires GroupOrderValid(last, now)
  {
    var enabled, running := now.enabled - last.enabled, now.running - last.running;
    && enabled > 0 && running > 0 && now.insns > last.insns
    && ScaleCounter(now.cycles - last.cycles, enabled, running) > 0
    && ScaleCounter(now.insns - last.insns, enabled, running) > 0
  }

  function ReportedTemperature(t: Tick, reached: bool): (r: Option<int>) {
    if reached && t.telemetry.tempAvailable then Some(t.telemetry.tempMillic) else None
  }

  lemma DeltasReport(c: Context, t: Tick, last: Group, now: Group, llcNow: U64)
    requires WellFormed(c) && GroupOrderValid(last, now)
    ensures var e := EvaluateDeltas(c, t, last, now, llcNow).1.eval;
            && RawTemperature(e) == ReportedTemperature(t, CountersAdvance(last, now))
            && (!CountersAdvance(last, now) ==> !e.performanceAvailable)
  {
  }

  lemma HardwareReport(c: Context, t: Tick)
    requires WellFormed(c) && c.mode == Hardware && c.validated
    ensures var e := EvaluateHardware(c, t).1.eval;
            && RawTemperature(e) == ReportedTemperature(t, ReachesTelemetry(c, t))
            && (!ReachesTelemetry(c, t) ==> !e.performanceAvailable)
  {
    var d := RecoverLlc(c, t);
    var e := d.(llcOpen := d.llcOpen && t.llc.Some?);
    if t.group.Some? && e.lastGroup.Some? && GroupOrderValid(e.lastGroup.value, t.group.value) {
      DeltasReport(e, t, e.lastGroup.value, t.group.value, if d.llcOpen && t.llc.Some? then t.llc.value else 0);
    }
  }

  lemma RecoveryKeepsCursor(c: Context, t: Tick)
    requires c.mode == Software
    ensures var d := TryRecover(c, t);
            && (d.mode == Hardware <==> t.reprobe.Observed? && HardwareBaseline(t.reprobe.observation, t.cfg).Some?)
            && (d.mode != Hardware ==>
                  && d.softwareAdaptation == c.softwareAdaptation
                  && d.swLastIterations == c.swLastIterations && d.swLastNs == c.swLastNs)
  {
  }

  lemma CostReport(d: Context, t: Tick)
    requires WellFormed(d)
    ensures var e := EvaluateCost(d, t).1.eval;
            && !e.performanceAvailable
            && RawTemperature(e) == ReportedTemperature(t,
                 d.softwareAdaptation && t.iterations > d.swLastIterations && t.nowNs > d.swLastNs)
  {
  }

  lemma SoftwareReport(c: Context, t: Tick)
    requires WellFormed(c) && c.mode == Software
    ensures RawTemperature(EvaluateSoftware(c, t).1.eval) == ReportedTemperature(t, ReachesTelemetry(c, t))
    ensures !EvaluateSoftware(c, t).1.eval.performanceAvailable
  {
    RecoveryKeepsCursor(c, t);
    CostReport(TryRecover(c, t), t);
  }

  /** A round reports the raw temperature exactly when it is available and the evaluation reaches the
      telemetry; one that does not reach it measures nothing either. */
  lemma TemperatureReportedExactlyWhen(c: Context, r: Round, timeoutSec: I32)
    requires WellFormed(c)
    ensures var e := Observe(c, r, timeoutSec).1.outcome.eval;
            && RawTemperature(e) == ReportedTemperature(r.tick, ReachesTelemetry(c, r.tick))
            && (!ReachesTelemetry(c, r.tick) ==> !e.performanceAvailable)
  {
    var d := CheckTimeout(c, r.checkNs, timeoutSec).0;
    if d.mode == Software {
      SoftwareReport(d, r.tick);
    } else if d.mode == Hardware && d.validated {
      HardwareReport(d, r.tick);
    }
  }

  /** Main result: in every driven run a package at or above the emergency limit makes its sample an
      emergency exactly when the evaluation reaches the telemetry; otherwise, unless the timeout is
      reported, the sample does nothing. */
  lemma HotPackageIsEmergencyExactlyWhen(c: M.Config, r: M.Run, w: Watch, timeoutSec: I32, k: nat)
    requires Driven(c, r, w, timeoutSec) && k < |r.ticks|
    requires var m := w.rounds[k].tick.telemetry; m.tempAvailable && M.EmergencyExceeded(c, Some(m.tempMillic))
    ensures MonitorSafety.Emergency(c, r.ticks[k]) <==> ReachesTelemetry(w.contexts[k], w.rounds[k].tick)
    ensures !ReachesTelemetry(w.contexts[k], w.rounds[k].tick) && !w.reports[k].timeout ==>
              r.actions[k] == M.Nothing && r.states[k + 1].selection == M.Current(r.states[k], r.ticks[k])
  {
    TemperatureReportedExactlyWhen(w.contexts[k], w.rounds[k], timeoutSec);
    assert Observe(w.contexts[k], w.rounds[k], timeoutSec) == (w.contexts[k + 1], w.reports[k]);
    assert Reads(r.ticks[k], w.reports[k]);
    MonitorSafety.RunStep(c, r, k);
  }

  /** A healthy context whose workload thread has been idle since its first sample. */
  predicate Idling(c: Context, n: nat) {
    && n < TWO64 && WellFormed(c) && c.mode == Hardware && c.validated && !c.llcOpen
    && c.lastGroup == Some(Group(2, n, n, 1, 1)) && c.stay == Stay(false, 0, false)
  }

  function IdleTick(n: nat, tempMillic: I32): (t: Tick)
    requires n < TWO64 - 1
  {
    Tick(None, Telemetry(true, false, tempMillic, 0, None, None), 0, 0, NotDue, None, Some(Group(2, n + 1, n + 1, 1, 1)), None)
  }

  lemma IdleRound(c: Context, n: nat, tempMillic: I32)
    requires Idling(c, n) && n < TWO64 - 1
    ensures var (d, report) := Observe(c, Round(0, IdleTick(n, tempMillic)), 1);
            Idling(d, n + 1) && report == Report(false, QUIET, false, true)
  {
    var t, last, now := IdleTick(n, tempMillic), Group(2, n, n, 1, 1), Group(2, n + 1, n + 1, 1, 1);
    assert EvaluateHardware(c, t) == EvaluateDeltas(c, t, last, now, 0);
  }

  /** Sample k reads a hot idle package, could patch, and does nothing. */
  predicate HotAndIgnored(c: M.Config, r: M.Run, w: Watch, k: nat)
    requires k < |r.ticks| == |r.actions| == |w.rounds| < |r.states|
  {
    var m := w.rounds[k].tick.telemetry;
    && m.tempAvailable && M.EmergencyExceeded(c, Some(m.tempMillic)) && r.ticks[k].safetyPatchOk
    && r.actions[k] == M.Nothing && r.states[k + 1].selection == Avx2
  }

  /** Every sample after the first, at which the loop widened, is hot and ignored. */
  predicate IgnoredSince(c: M.Config, r: M.Run, w: Watch, n: nat) {
    && |r.ticks| == |r.actions| == |w.rounds| == n + 1 && |r.states| == n + 2 == |w.contexts|
    && r.states[0] == M.State(0, 0, 0, 0, Sse41) && r.states[n + 1].selection == Avx2
    && Idling(w.contexts[n + 1], n + 1)
    && forall k :: 0 < k <= n ==> HotAndIgnored(c, r, w, k)
  }

  lemma SampledContinues(ticks: seq<M.Tick>, us: seq<nat>, interval: nat, t: M.Tick, u: nat)
    requires MonitorSafety.Sampled(ticks, us, interval) && |us| > 0
    requires u >= us[|us| - 1] + interval && t.now == u / 1000
    ensures MonitorSafety.Sampled(ticks + [t], us + [u], interval)
  {
  }

  lemma OneMoreIdle(c: M.Config, interval: nat, n: nat, r: M.Run, w: Watch, us: seq<nat>)
      returns (r': M.Run, w': Watch, us': seq<nat>)
    requires MonitorSafety.CanWiden(c) && 0 < n < TWO64 - 1 && Driven(c, r, w, 1) && IgnoredSince(c, r, w, n - 1)
    requires MonitorSafety.Sampled(r.ticks, us, interval) && MonitorSafety.AdviceAllowed(c, r.ticks)
    ensures Driven(c, r', w', 1) && IgnoredSince(c, r', w', n)
    ensures MonitorSafety.Sampled(r'.ticks, us', interval) && MonitorSafety.AdviceAllowed(c, r'.ticks)
  {
    var u := us[n - 1] + interval;
    var round := Round(0, IdleTick(n, MonitorSafety.HotMillic(c)));
    IdleRound(w.contexts[n], n, MonitorSafety.HotMillic(c));
    r', w' := QuietSample(c, r, w, round, u / 1000, true);
    us' := us + [u];
    var t := QuietTick(u / 1000, w'.reports[n], true);
    SampledContinues(r.ticks, us, interval, t, u);
    IgnoredContinues(c, r, w, r', w', n, t);
  }

  lemma IgnoredContinues(c: M.Config, r: M.Run, w: Watch, r': M.Run, w': Watch, n: nat, t: M.Tick)
    requires n > 0 && IgnoredSince(c, r, w, n - 1)
    requires |w'.rounds| == n + 1 && |w'.contexts| == n + 2 && w'.rounds[..n] == w.rounds
    requires Idling(w'.contexts[n + 1], n + 1)
    requires w'.rounds[n].tick.telemetry.tempAvailable && t.safetyPatchOk
    requires M.EmergencyExceeded(c, Some(w'.rounds[n].tick.telemetry.tempMillic))
    requires r'.ticks == r.ticks + [t] && r'.actions == r.actions + [M.Nothing]
    requires r'.states == r.states + [r.states[n].(stable := 0)]
    ensures IgnoredSince(c, r', w', n)
  {
    forall k | 0 < k <= n ensures HotAndIgnored(c, r', w', k) {
      if k < n {
        assert HotAndIgnored(c, r, w, k);
        assert w'.rounds[k] == w.rounds[k];
      }
    }
  }

  /** Main result: the promise to evaluate the raw temperature on every sample does not hold: in every
      configuration that can widen, and for any number of samples, there is a run from a started
      loop that widens to AVX2 and then stays there through a hot package whose workload is idle. */
  lemma {:induction false} HotIdlePackageStaysWide(c: M.Config, interval: nat, n: nat)
      returns (r: M.Run, w: Watch, us: seq<nat>)
    requires MonitorSafety.CanWiden(c) && n < TWO64 - 1
    ensures Driven(c, r, w, 1) && |r.ticks| == n + 1
    ensures MonitorSafety.Sampled(r.ticks, us, interval) && MonitorSafety.AdviceAllowed(c, r.ticks)
    ensures IgnoredSince(c, r, w, n)
  {
    if n == 0 {
      r, w := WidenedStart(c, interval);
      us := [1000 * r.ticks[0].now];
    } else {
      r, w, us := HotIdlePackageStaysWide(c, interval, n - 1);
      r, w, us := OneMoreIdle(c, interval, n, r, w, us);
    }
  }
}
