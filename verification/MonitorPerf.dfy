/** The monitor loop driven by the perf context: every round checks the software timeout, evaluates
    the context and hands the loop what it reads. What the loop's guarantees assume about its ticks
    is proved here of the perf modes. */
module MonitorPerf {

  import opened SimdWidth
  import opened Statistics
  import opened WidthAuthorization
  import opened PerfPipeline
  import opened PerfModes
  import M = MonitorLoop
  import MonitorSafety

  // ---------------------------------------------------------------- rounds

  /** The clock at the timeout check, and what the evaluation then reads. */
  datatype Round = Round(checkNs: U64, tick: Tick)

  /** What one round reports to the loop. */
  datatype Report = Report(timeout: bool, outcome: Outcome, degraded: bool, upgradesAllowed: bool)

  function Observe(c: Context, r: Round, timeoutSec: I32): (o: (Context, Report))
    requires WellFormed(c)
    ensures WellFormed(o.0)
  {
    var (checked, timeout) := CheckTimeout(c, r.checkNs, timeoutSec);
    var (d, outcome) := Evaluate(checked, r.tick);
    (d, Report(timeout, outcome, d.stay.degraded, d.mode == Hardware && d.validated))
  }

  /** A run of rounds: contexts[i] before round i. */
  datatype Watch = Watch(rounds: seq<Round>, contexts: seq<Context>, reports: seq<Report>)

  ghost predicate IsWatch(w: Watch, timeoutSec: I32) {
    && |w.contexts| == |w.rounds| + 1 && |w.reports| == |w.rounds|
    && (forall i :: 0 <= i < |w.contexts| ==> WellFormed(w.contexts[i]))
    && OverlayFollowsMode(w.contexts[0])
    && forall i :: 0 <= i < |w.rounds| ==>
         Observe(w.contexts[i], w.rounds[i], timeoutSec) == (w.contexts[i + 1], w.reports[i])
  }

  /** The degraded overlay is on exactly in software mode. */
  predicate OverlayFollowsMode(c: Context) {
    c.mode != NoPerf && (c.stay.degraded <==> c.mode == Software)
  }

  // ---------------------------------------------------------------- one round

  /** The first mode of a context, and every later one, brings the overlay in step. */
  lemma EnteringModeSetsOverlay(c: Context, mode: PerfMode, nowNs: U64)
    requires mode != NoPerf && (c.mode != mode || OverlayFollowsMode(c))
    ensures OverlayFollowsMode(SetMode(c, mode, nowNs))
  {
  }

  /** What an evaluation does to mode and stay. */
  predicate ModesKept(c: Context, d: Context, e: Eval) {
    && OverlayFollowsMode(d) && (d.mode == c.mode ==> d.stay == c.stay)
    && (e.performanceAvailable ==> c.mode == Hardware && d.mode == Hardware && d.validated)
  }

  lemma RecoveryKeepsModes(c: Context, t: Tick)
    requires c.mode == Software && OverlayFollowsMode(c)
    ensures var d := TryRecover(c, t); OverlayFollowsMode(d) && (d.mode == Software ==> d.stay == c.stay)
  {
  }

  lemma CostKeepsModes(d: Context, t: Tick)
    requires WellFormed(d)
    ensures var r := EvaluateCost(d, t);
            r.0.mode == d.mode && r.0.stay == d.stay && !r.1.eval.performanceAvailable
  {
  }

  lemma SoftwareKeepsModes(c: Context, t: Tick)
    requires WellFormed(c) && c.mode == Software && OverlayFollowsMode(c)
    ensures var r := EvaluateSoftware(c, t); ModesKept(c, r.0, r.1.eval)
  {
    RecoveryKeepsModes(c, t);
    CostKeepsModes(TryRecover(c, t), t);
  }

  lemma DeltasKeepModes(c: Context, t: Tick, last: Group, now: Group, llcNow: U64)
    requires WellFormed(c) && GroupOrderValid(last, now) && c.mode == Hardware && c.validated && OverlayFollowsMode(c)
    ensures var r := EvaluateDeltas(c, t, last, now, llcNow); ModesKept(c, r.0, r.1.eval)
  {
  }

  lemma HardwareKeepsModes(c: Context, t: Tick)
    requires WellFormed(c) && c.mode == Hardware && c.validated && OverlayFollowsMode(c)
    ensures var r := EvaluateHardware(c, t); ModesKept(c, r.0, r.1.eval)
  {
    var d := RecoverLlc(c, t);
    var e := d.(llcOpen := d.llcOpen && t.llc.Some?);
    if t.group.Some? && e.lastGroup.Some? && GroupOrderValid(e.lastGroup.value, t.group.value) {
      DeltasKeepModes(e, t, e.lastGroup.value, t.group.value, if d.llcOpen && t.llc.Some? then t.llc.value else 0);
    }
  }

  lemma EvaluateKeepsModes(c: Context, t: Tick)
    requires WellFormed(c) && OverlayFollowsMode(c)
    ensures var r := Evaluate(c, t); ModesKept(c, r.0, r.1.eval)
  {
    if c.mode == Software {
      SoftwareKeepsModes(c, t);
    } else if c.validated {
      HardwareKeepsModes(c, t);
    }
  }

  lemma RoundKeepsModes(c: Context, r: Round, timeoutSec: I32)
    requires WellFormed(c) && OverlayFollowsMode(c)
    ensures var (d, report) := Observe(c, r, timeoutSec);
            && ModesKept(CheckTimeout(c, r.checkNs, timeoutSec).0, d, report.outcome.eval)
            && report.degraded == (d.mode == Software)
            && report.timeout == CheckTimeout(c, r.checkNs, timeoutSec).1
  {
    EvaluateKeepsModes(CheckTimeout(c, r.checkNs, timeoutSec).0, r.tick);
  }

  lemma {:induction false} WatchOverlay(w: Watch, timeoutSec: I32, i: nat)
    requires IsWatch(w, timeoutSec) && i < |w.contexts|
    ensures OverlayFollowsMode(w.contexts[i])
  {
    if i > 0 {
      WatchOverlay(w, timeoutSec, i - 1);
      RoundKeepsModes(w.contexts[i - 1], w.rounds[i - 1], timeoutSec);
      assert Observe(w.contexts[i - 1], w.rounds[i - 1], timeoutSec) == (w.contexts[i], w.reports[i - 1]);
    }
  }

  /** Round i of a watch, in terms of the timeout check and of mode and stay alone. */
  lemma WatchStep(w: Watch, timeoutSec: I32, i: nat)
    requires IsWatch(w, timeoutSec) && i < |w.rounds|
    ensures var c, d, report := w.contexts[i], w.contexts[i + 1], w.reports[i];
            var checked := CheckTimeout(c, w.rounds[i].checkNs, timeoutSec);
            && ModesKept(checked.0, d, report.outcome.eval)
            && report.timeout == checked.1 && report.degraded == (d.mode == Software)
            && (report.upgradesAllowed <==> d.mode == Hardware && d.validated)
  {
    WatchOverlay(w, timeoutSec, i);
    RoundKeepsModes(w.contexts[i], w.rounds[i], timeoutSec);
    assert Observe(w.contexts[i], w.rounds[i], timeoutSec) == (w.contexts[i + 1], w.reports[i]);
  }

  // ---------------------------------------------------------------- the software timeout

  /** The modes, stays, checks and reports of a run of rounds. */
  datatype Stays = Stays(modes: seq<PerfMode>, stays: seq<Stay>, checks: seq<U64>, reports: seq<bool>)

  /** A check reports an expired, unreported stay in software mode; only a change of mode starts
      another stay. */
  predicate StayStep(before: PerfMode, s: Stay, after: PerfMode, s': Stay, checkNs: U64, reported: bool, timeoutSec: I32) {
    && (reported <==> !s.timeoutNotified && before == Software && Expired(s, checkNs, timeoutSec))
    && (after == before ==> s' == s.(timeoutNotified := s.timeoutNotified || reported))
  }

  predicate AreStays(h: Stays, timeoutSec: I32) {
    && |h.modes| == |h.stays| == |h.checks| + 1 && |h.reports| == |h.checks|
    && forall i :: 0 <= i < |h.checks| ==>
         StayStep(h.modes[i], h.stays[i], h.modes[i + 1], h.stays[i + 1], h.checks[i], h.reports[i], timeoutSec)
  }

  function StaysOf(w: Watch): (h: Stays) {
    Stays(seq(|w.contexts|, i requires 0 <= i < |w.contexts| => w.contexts[i].mode),
      seq(|w.contexts|, i requires 0 <= i < |w.contexts| => w.contexts[i].stay),
      seq(|w.rounds|, i requires 0 <= i < |w.rounds| => w.rounds[i].checkNs),
      seq(|w.reports|, i requires 0 <= i < |w.reports| => w.reports[i].timeout))
  }

  lemma WatchStays(w: Watch, timeoutSec: I32)
    requires IsWatch(w, timeoutSec)
    ensures AreStays(StaysOf(w), timeoutSec)
  {
    var h := StaysOf(w);
    forall i | 0 <= i < |h.checks|
      ensures StayStep(h.modes[i], h.stays[i], h.modes[i + 1], h.stays[i + 1], h.checks[i], h.reports[i], timeoutSec)
    {
      WatchStep(w, timeoutSec, i);
    }
  }

  predicate Throughout(h: Stays, a: nat, k: nat)
    requires a <= k < |h.modes|
  {
    forall l :: a <= l <= k ==> h.modes[l] == Software
  }

  /** Through an unbroken stretch of software mode the entry time stands, and the stay is notified
      exactly when one of its checks has found it expired. */
  lemma {:induction false} StretchStay(h: Stays, timeoutSec: I32, a: nat, k: nat)
    requires AreStays(h, timeoutSec) && a <= k < |h.modes| && Throughout(h, a, k)
    ensures h.stays[k].enteredNs == h.stays[a].enteredNs
    ensures h.stays[k].timeoutNotified <==>
      h.stays[a].timeoutNotified || exists l :: a <= l < k && Expired(h.stays[a], h.checks[l], timeoutSec)
    ensures forall l :: a <= l < k && h.reports[l] ==> h.stays[k].timeoutNotified
    decreases k
  {
    if a < k {
      var p := k - 1;
      StretchStay(h, timeoutSec, a, p);
      assert StayStep(h.modes[p], h.stays[p], h.modes[p + 1], h.stays[p + 1], h.checks[p], h.reports[p], timeoutSec);
      assert Expired(h.stays[p], h.checks[p], timeoutSec) <==> Expired(h.stays[a], h.checks[p], timeoutSec);
    }
  }

  predicate SoftwareThroughout(w: Watch, i: nat, k: nat)
    requires i <= k < |w.contexts|
  {
    forall l :: i <= l <= k ==> w.contexts[l].mode == Software
  }

  /** Main result: within one stay in software mode the timeout is reported exactly at the first check
      that finds it expired. */
  lemma TimeoutReportedExactlyOnce(w: Watch, timeoutSec: I32, a: nat, k: nat)
    requires IsWatch(w, timeoutSec) && a <= k < |w.rounds| && SoftwareThroughout(w, a, k)
    requires !w.contexts[a].stay.timeoutNotified
    ensures w.reports[k].timeout <==>
      && Expired(w.contexts[a].stay, w.rounds[k].checkNs, timeoutSec)
      && forall l :: a <= l < k ==> !Expired(w.contexts[a].stay, w.rounds[l].checkNs, timeoutSec)
  {
    var h := StaysOf(w);
    WatchStays(w, timeoutSec);
    ReportedFirst(h, timeoutSec, a, k);
    assert forall l :: 0 <= l < |w.rounds| ==> w.rounds[l].checkNs == h.checks[l];
  }

  lemma ReportedFirst(h: Stays, timeoutSec: I32, a: nat, k: nat)
    requires AreStays(h, timeoutSec) && a <= k < |h.checks| && Throughout(h, a, k) && !h.stays[a].timeoutNotified
    ensures h.reports[k] <==>
      && Expired(h.stays[a], h.checks[k], timeoutSec)
      && forall l :: a <= l < k ==> !Expired(h.stays[a], h.checks[l], timeoutSec)
  {
    StretchStay(h, timeoutSec, a, k);
    assert StayStep(h.modes[k], h.stays[k], h.modes[k + 1], h.stays[k + 1], h.checks[k], h.reports[k], timeoutSec);
  }

  /** A reported stay is not reported again. */
  lemma ReportedStaysQuiet(h: Stays, timeoutSec: I32, i: nat, k: nat)
    requires AreStays(h, timeoutSec) && i < k < |h.checks| && Throughout(h, i, k) && h.reports[i]
    ensures !h.reports[k]
  {
    StretchStay(h, timeoutSec, i, k);
    assert StayStep(h.modes[k], h.stays[k], h.modes[k + 1], h.stays[k + 1], h.checks[k], h.reports[k], timeoutSec);
  }

  /** Entering software mode starts a stay that has not been reported. */
  lemma FreshStayIsUnreported(w: Watch, timeoutSec: I32, a: nat)
    requires IsWatch(w, timeoutSec) && 0 < a < |w.contexts|
    requires w.contexts[a].mode == Software && w.contexts[a - 1].mode == Hardware
    ensures !w.contexts[a].stay.timeoutNotified
  {
    WatchOverlay(w, timeoutSec, a - 1);
    assert Observe(w.contexts[a - 1], w.rounds[a - 1], timeoutSec) == (w.contexts[a], w.reports[a - 1]);
    EnteredStay(w.contexts[a - 1], w.rounds[a - 1].tick);
  }

  lemma EnteredStay(c: Context, t: Tick)
    requires WellFormed(c) && c.mode == Hardware && Evaluate(c, t).0.mode == Software
    ensures Evaluate(c, t).0.stay == Stay(true, t.nowNs, false)
  {
    assert c.validated;
    var d := RecoverLlc(c, t);
    var e := d.(llcOpen := d.llcOpen && t.llc.Some?);
    if t.group.Some? && e.lastGroup.Some? && GroupOrderValid(e.lastGroup.value, t.group.value) {
      DeltasEnter(e, t, e.lastGroup.value, t.group.value, if d.llcOpen && t.llc.Some? then t.llc.value else 0);
    }
  }

  lemma DeltasEnter(c: Context, t: Tick, last: Group, now: Group, llcNow: U64)
    requires WellFormed(c) && GroupOrderValid(last, now) && c.mode == Hardware
    ensures var d := EvaluateDeltas(c, t, last, now, llcNow).0;
            d.mode == Software ==> d.stay == Stay(true, t.nowNs, false)
  {
  }

  // ---------------------------------------------------------------- driven runs

  function RawTemperature(e: Eval): (t: Option<int>) {
    if e.telemetry.Some? && e.telemetry.value.tempAvailable then Some(e.telemetry.value.tempMillic) else None
  }

  /** The tick reads exactly what the round reported. */
  predicate Reads(t: M.Tick, r: Report) {
    && t.softwareTimeout == r.timeout && t.degraded == r.degraded && t.upgradesAllowed == r.upgradesAllowed
    && t.performanceAvailable == r.outcome.eval.performanceAvailable && t.throttled == r.outcome.throttled
    && t.tempMillic == RawTemperature(r.outcome.eval)
  }

  /** A run of the loop whose every tick reads a round of the perf context. */
  ghost predicate Driven(c: M.Config, r: M.Run, w: Watch, timeoutSec: I32) {
    && M.IsRun(c, r) && IsWatch(w, timeoutSec) && |r.ticks| == |w.rounds|
    && forall i :: 0 <= i < |r.ticks| ==> Reads(r.ticks[i], w.reports[i])
  }

  /** Main result: what the cooldown law assumes of its ticks holds of every driven run. */
  lemma DrivenOverlayIsOff(c: M.Config, r: M.Run, w: Watch, timeoutSec: I32)
    requires Driven(c, r, w, timeoutSec)
    ensures MonitorSafety.OverlayOffWhenMeasured(r.ticks)
  {
    forall i | 0 <= i < |r.ticks| && r.ticks[i].performanceAvailable ensures !r.ticks[i].degraded {
      WatchStep(w, timeoutSec, i);
      assert Reads(r.ticks[i], w.reports[i]);
    }
  }

  /** Main result: in every driven run, through any changes of mode and any successful fallbacks, two
      transitions keep the earlier one's cooldown when the configuration covers it. */
  lemma DrivenCooldownSurvivesFallbacks(c: M.Config, r: M.Run, w: Watch, timeoutSec: I32, us: seq<nat>,
      interval: nat, i: nat, j: nat)
    requires Driven(c, r, w, timeoutSec) && MonitorSafety.Sampled(r.ticks, us, interval) && i < j < |r.ticks|
    requires MonitorSafety.AdviceAllowed(c, r.ticks)
    requires r.states[0].widthSince <= r.ticks[0].now && c.cooldownDownMs <= M.INT_MAX
    requires MonitorSafety.FallbackCovers(c, interval) || !MonitorSafety.CanWiden(c)
    requires r.actions[i].Changed? && r.actions[j].Changed?
    requires forall k :: i < k < j ==> r.actions[k] != M.SafetyFailed
    ensures r.ticks[j].now >= MonitorSafety.CooldownEnd(c, r, i)
  {
    DrivenOverlayIsOff(c, r, w, timeoutSec);
    MonitorSafety.CooldownSurvivesFallbacks(c, r, us, interval, i, j);
  }

  // A steady hardware workload, to show that driven runs reach the failing cases.

  function SteadyGroup(n: nat): (g: Group)
    requires n < 10
  {
    Group(2, n, n, n, n)
  }

  function SteadyTick(n: nat, tempMillic: I32): (t: Tick)
    requires n < 9
  {
    Tick(None, Telemetry(true, false, tempMillic, 0, None, None), 0, 0, NotDue, None, Some(SteadyGroup(n + 1)), None)
  }

  predicate Steady(c: Context, n: nat) {
    && n < 10 && WellFormed(c) && c.mode == Hardware && c.validated && c.ownWorkload && !c.llcOpen
    && c.lastGroup == Some(SteadyGroup(n)) && c.stay == Stay(false, 0, false)
  }

  predicate Nominal(r: Report, tempMillic: int) {
    && !r.timeout && !r.degraded && r.upgradesAllowed
    && r.outcome.eval.performanceAvailable && RawTemperature(r.outcome.eval) == Some(tempMillic)
  }

  lemma SteadyRound(c: Context, n: nat, tempMillic: I32)
    requires Steady(c, n) && n < 9
    ensures var (d, report) := Observe(c, Round(0, SteadyTick(n, tempMillic)), 1);
            Steady(d, n + 1) && Nominal(report, tempMillic)
  {
    UnscaledCounter(1, 1);
    var t, last, now := SteadyTick(n, tempMillic), SteadyGroup(n), SteadyGroup(n + 1);
    var delta := Classify(last, now, Advance(0, c.hwLastIterations), 0, true, false, Overlaid(t.cfg, false), t.telemetry);
    assert delta.Measured?;
    assert EvaluateHardware(c, t) == EvaluateDeltas(c, t, last, now, 0);
  }

  /** Main result: the condition of the cooldown law is exact for driven runs too: under every other
      configuration the three samples that break it read a healthy hardware context. */
  lemma DrivenFallbackShortensCooldown(c: M.Config, interval: nat) returns (r: M.Run, w: Watch, us: seq<nat>)
    requires !MonitorSafety.FallbackCovers(c, interval) && MonitorSafety.CanWiden(c)
    ensures Driven(c, r, w, 1) && |r.ticks| == 3
    ensures MonitorSafety.Sampled(r.ticks, us, interval) && MonitorSafety.AdviceAllowed(c, r.ticks)
    ensures r.states[0] == M.State(0, 0, 0, 0, Sse41) && us[0] >= interval
    ensures r.actions[0].Changed? && r.actions[1] == M.SafetySelected && r.actions[2].Changed?
    ensures r.ticks[2].now < MonitorSafety.CooldownEnd(c, r, 0)
  {
    w := SteadyWatch(MonitorSafety.CoolMillic(c), MonitorSafety.HotMillic(c));
    r, us := MonitorSafety.FallbackShortensCooldown(c, interval,
      [w.reports[0].outcome.throttled, w.reports[1].outcome.throttled, w.reports[2].outcome.throttled]);
    DrivenByThree(c, r, w);
  }

  const STEADY_START: Context := Context(Hardware, true, false, false, true,
    Pipeline(References(0, 0, 0, 0, 0), NO_AVERAGES, [], 0), Some(SteadyGroup(0)), 0, 0, 0, 0, 0, Stay(false, 0, false))

  /** Three steady rounds, the second one hot. */
  lemma SteadyWatch(cool: I32, hot: I32) returns (w: Watch)
    ensures IsWatch(w, 1) && |w.rounds| == 3
    ensures Nominal(w.reports[0], cool) && Nominal(w.reports[1], hot) && Nominal(w.reports[2], cool)
  {
    w := Watch([], [STEADY_START], []);
    w := SteadyExtended(w, cool);
    w := SteadyExtended(w, hot);
    w := SteadyExtended(w, cool);
  }

  lemma SteadyExtended(w: Watch, tempMillic: I32) returns (w': Watch)
    requires IsWatch(w, 1) && |w.rounds| < 9 && Steady(w.contexts[|w.rounds|], |w.rounds|)
    ensures IsWatch(w', 1) && |w'.rounds| == |w.rounds| + 1 && Steady(w'.contexts[|w'.rounds|], |w'.rounds|)
    ensures w'.reports[..|w.rounds|] == w.reports && Nominal(w'.reports[|w.rounds|], tempMillic)
  {
    var n := |w.rounds|;
    var round := Round(0, SteadyTick(n, tempMillic));
    SteadyRound(w.contexts[n], n, tempMillic);
    WatchContinues(w, 1, round);
    w' := Watched(w, 1, round);
  }

  /** One more round. */
  function Watched(w: Watch, timeoutSec: I32, round: Round): (w': Watch)
    requires |w.contexts| == |w.rounds| + 1 && WellFormed(w.contexts[|w.rounds|])
  {
    var (d, report) := Observe(w.contexts[|w.rounds|], round, timeoutSec);
    Watch(w.rounds + [round], w.contexts + [d], w.reports + [report])
  }

  lemma WatchContinues(w: Watch, timeoutSec: I32, round: Round)
    requires IsWatch(w, timeoutSec)
    ensures IsWatch(Watched(w, timeoutSec, round), timeoutSec)
  {
    var w' := Watched(w, timeoutSec, round);
    forall i | 0 <= i < |w'.rounds|
      ensures Observe(w'.contexts[i], w'.rounds[i], timeoutSec) == (w'.contexts[i + 1], w'.reports[i])
    {
      if i < |w.rounds| {
        assert Observe(w.contexts[i], w.rounds[i], timeoutSec) == (w.contexts[i + 1], w.reports[i]);
      }
    }
  }

  lemma DrivenByThree(c: M.Config, r: M.Run, w: Watch)
    requires M.IsRun(c, r) && |r.ticks| == 3 && IsWatch(w, 1) && |w.rounds| == 3
    requires Reads(r.ticks[0], w.reports[0]) && Reads(r.ticks[1], w.reports[1]) && Reads(r.ticks[2], w.reports[2])
    ensures Driven(c, r, w, 1)
  {
  }

  /** Main result: in a driven run the selection grows only through a round that measured performance
      with validated hardware counters, the overlay off and the raw temperature in bounds. */
  lemma WideningNeedsValidatedHardware(c: M.Config, r: M.Run, w: Watch, timeoutSec: I32, i: nat, j: nat)
      returns (k: nat)
    requires Driven(c, r, w, timeoutSec) && i < j < |r.states|
    requires Index(r.states[j].selection) > Index(r.states[i].selection)
    ensures i <= k < j && MonitorSafety.GatedWidening(c, r.ticks[k])
    ensures w.contexts[k].mode == Hardware == w.contexts[k + 1].mode && w.contexts[k + 1].validated
    ensures !w.contexts[k + 1].stay.degraded && w.reports[k].outcome.eval.performanceAvailable
  {
    k := MonitorSafety.SelectionGrowsOnlyGated(c, r, i, j);
    WatchStep(w, timeoutSec, k);
    assert Reads(r.ticks[k], w.reports[k]);
    WatchOverlay(w, timeoutSec, k + 1);
  }

  /** Main result: once a fallback on the software timeout has failed, every later tick of the same
      stay in software mode leaves the selection alone unless an emergency or another thread narrows
      it: nothing retries it. */
  lemma FailedTimeoutIsNotRetried(c: M.Config, r: M.Run, w: Watch, timeoutSec: I32, i: nat, k: nat)
    requires Driven(c, r, w, timeoutSec) && i < k < |r.ticks| && SoftwareThroughout(w, i, k)
    requires r.ticks[i].softwareTimeout && r.actions[i] == M.SafetyFailed
    ensures MonitorSafety.IsSafety(r.actions[k]) <==> MonitorSafety.Emergency(c, r.ticks[k])
    ensures !MonitorSafety.Emergency(c, r.ticks[k]) ==>
              r.actions[k] == M.Nothing && r.states[k + 1].selection == M.Current(r.states[k], r.ticks[k])
  {
    assert Reads(r.ticks[i], w.reports[i]) && Reads(r.ticks[k], w.reports[k]);
    WatchStays(w, timeoutSec);
    ReportedStaysQuiet(StaysOf(w), timeoutSec, i, k);
    WatchStep(w, timeoutSec, k);
    assert w.contexts[k].mode == Software;
    MonitorSafety.RunStep(c, r, k);
  }

  // ---------------------------------------------------------------- longer driven runs

  /** One more tick. */
  function Ran(c: M.Config, r: M.Run, t: M.Tick): (r': M.Run)
    requires |r.states| == |r.ticks| + 1
  {
    var (s, a) := M.Step(c, r.states[|r.ticks|], t);
    M.Run(r.ticks + [t], r.states + [s], r.actions + [a])
  }

  lemma RunContinues(c: M.Config, r: M.Run, t: M.Tick)
    requires M.IsRun(c, r)
    ensures M.IsRun(c, Ran(c, r, t))
  {
  }

  /** One more sample: the round the perf context evaluates and the tick that reads it. */
  lemma Continued(c: M.Config, r: M.Run, w: Watch, timeoutSec: I32, round: Round, t: M.Tick)
    requires Driven(c, r, w, timeoutSec)
    requires Reads(t, Observe(w.contexts[|w.rounds|], round, timeoutSec).1)
    ensures Driven(c, Ran(c, r, t), Watched(w, timeoutSec, round), timeoutSec)
  {
    WatchContinues(w, timeoutSec, round);
    RunContinues(c, r, t);
  }

  /** A started loop on a healthy context, after its first sample has widened to AVX2. */
  lemma WidenedStart(c: M.Config, interval: nat) returns (r: M.Run, w: Watch)
    requires MonitorSafety.CanWiden(c)
    ensures Driven(c, r, w, 1) && |r.ticks| == 1 && w.contexts[0] == STEADY_START && Steady(w.contexts[1], 1)
    ensures r.states[0] == M.State(0, 0, 0, 0, Sse41) && r.actions == [M.Changed(Sse41, Avx2, M.Advice)]
    ensures r.ticks[0].now == M.MinDwell(c, false) + interval && r.ticks[0].advice == Some(Avx2)
    ensures r.states[1].selection == Avx2
  {
    var cool := MonitorSafety.CoolMillic(c);
    SteadyRound(STEADY_START, 0, cool);
    var report := Observe(STEADY_START, Round(0, SteadyTick(0, cool)), 1).1;
    var t := M.Tick(M.MinDwell(c, false) + interval, false, false, true, report.outcome.throttled, Some(cool), false,
               false, Some(Avx2), true, true, true, true, true);
    r, w := M.Run([], [M.State(0, 0, 0, 0, Sse41)], []), Watch([], [STEADY_START], []);
    Continued(c, r, w, 1, Round(0, SteadyTick(0, cool)), t);
    r, w := Ran(c, r, t), Watched(w, 1, Round(0, SteadyTick(0, cool)));
  }

  /** A quiet sample of the loop: nothing measured, no other thread narrows. */
  function QuietTick(now: nat, report: Report, safetyPatchOk: bool): (t: M.Tick) {
    M.Tick(now, report.degraded, report.timeout, report.outcome.eval.performanceAvailable, report.outcome.throttled,
      RawTemperature(report.outcome.eval), false, false, None, true, report.upgradesAllowed, safetyPatchOk, false, false)
  }

  /** The counters can no longer be read, or nothing is due. */
  const BLANK_TICK: Tick := PerfModes.Tick(None, Telemetry(false, false, 0, 0, None, None), 0, 0, NotDue, None, None, None)

  const LOST: Report := Report(false, FAIL_CLOSED, true, false)
  const SILENT: Report := Report(false, QUIET, true, false)

  lemma LostRound(c: Context, n: nat)
    requires Steady(c, n)
    ensures var (d, report) := Observe(c, Round(0, BLANK_TICK), 1);
            report == LOST && d.mode == Software && !d.softwareAdaptation && d.stay == Stay(true, 0, false)
  {
  }

  lemma TimeoutRound(c: Context)
    requires WellFormed(c) && c.mode == Software && !c.softwareAdaptation && c.stay == Stay(true, 0, false)
    ensures var (d, report) := Observe(c, Round(1000000000, BLANK_TICK), 1);
            && report == SILENT.(timeout := true) && d.mode == Software && d.softwareAdaptation
            && d.stay.timeoutNotified && d.stay.degraded && d.swLastIterations == 0
  {
  }

  lemma SilentRound(c: Context)
    requires WellFormed(c) && c.mode == Software && c.softwareAdaptation && c.swLastIterations == 0
    requires c.stay.timeoutNotified && c.stay.degraded
    ensures var (d, report) := Observe(c, Round(1000000000, BLANK_TICK), 1); report == SILENT && d.mode == Software
  {
  }

  /** The comment that promises a retry does not hold: in every configuration that can widen there is a
      run from a started loop that widens to AVX2, loses its counters while the mode change's own
      patch fails, fails the fallback on the timeout, and at the next sample, still in software mode,
      with a working patch and without an emergency, leaves AVX2 selected. */
  lemma TimeoutFallbackIsLeftBehind(c: M.Config, interval: nat) returns (r: M.Run, w: Watch, us: seq<nat>)
    requires MonitorSafety.CanWiden(c)
    ensures Driven(c, r, w, 1) && |r.ticks| == 4
    ensures MonitorSafety.Sampled(r.ticks, us, interval) && MonitorSafety.AdviceAllowed(c, r.ticks)
    ensures r.states[0] == M.State(0, 0, 0, 0, Sse41) && w.contexts[0].mode == Hardware && w.contexts[0].validated
    ensures SoftwareThroughout(w, 2, 4) && r.ticks[2].softwareTimeout
    ensures r.actions == [M.Changed(Sse41, Avx2, M.Advice), M.Nothing, M.SafetyFailed, M.Nothing]
    ensures r.ticks[3].safetyPatchOk && !MonitorSafety.Emergency(c, r.ticks[3])
    ensures r.states[4].selection == Avx2
  {
    r, w := StaySilent(c, interval);
    us := LeftSamples(c, interval, r);
  }

  /** Sample k comes at an even pace, is quiet and reads the report. */
  predicate QuietAt(c: M.Config, interval: nat, r: M.Run, k: nat, report: Report, patchOk: bool)
    requires k < |r.ticks|
  {
    r.ticks[k] == QuietTick(M.MinDwell(c, false) + Pace(interval, k + 1), report, patchOk)
  }

  function Pace(interval: nat, k: nat): (ms: nat) {
    if k == 0 then 0 else Pace(interval, k - 1) + interval
  }

  /** The first sample has widened, and the actions since are as given. */
  predicate LeftAfter(c: M.Config, interval: nat, r: M.Run, w: Watch, actions: seq<M.Action>) {
    && |r.ticks| == |w.rounds| == |w.reports| == |actions| + 1 && |r.states| == |w.contexts| == |actions| + 2
    && r.actions == [M.Changed(Sse41, Avx2, M.Advice)] + actions
    && r.states[0] == M.State(0, 0, 0, 0, Sse41) && r.states[|actions| + 1].selection == Avx2
    && w.contexts[0] == STEADY_START
    && r.ticks[0].now == M.MinDwell(c, false) + interval && r.ticks[0].advice == Some(Avx2)
  }

  lemma LoseCounters(c: M.Config, interval: nat) returns (r: M.Run, w: Watch)
    requires MonitorSafety.CanWiden(c)
    ensures Driven(c, r, w, 1) && LeftAfter(c, interval, r, w, [M.Nothing]) && QuietAt(c, interval, r, 1, LOST, false)
    ensures var d := w.contexts[2]; d.mode == Software && !d.softwareAdaptation && d.stay == Stay(true, 0, false)
  {
    r, w := WidenedStart(c, interval);
    LostRound(w.contexts[1], 1);
    r, w := QuietSample(c, r, w, Round(0, BLANK_TICK), M.MinDwell(c, false) + Pace(interval, 2), false);
  }

  lemma FailTimeout(c: M.Config, interval: nat) returns (r': M.Run, w': Watch)
    requires MonitorSafety.CanWiden(c)
    ensures Driven(c, r', w', 1) && LeftAfter(c, interval, r', w', [M.Nothing, M.SafetyFailed])
    ensures QuietAt(c, interval, r', 1, LOST, false) && QuietAt(c, interval, r', 2, SILENT.(timeout := true), false)
    ensures w'.contexts[2].mode == Software
    ensures var d := w'.contexts[3];
            && WellFormed(d) && d.mode == Software && d.softwareAdaptation && d.swLastIterations == 0
            && d.stay.timeoutNotified && d.stay.degraded
  {
    var r, w := LoseCounters(c, interval);
    TimeoutRound(w.contexts[2]);
    r', w' := FailedFallback(c, r, w, Round(1000000000, BLANK_TICK), M.MinDwell(c, false) + Pace(interval, 3));
  }

  lemma StaySilent(c: M.Config, interval: nat) returns (r': M.Run, w': Watch)
    requires MonitorSafety.CanWiden(c)
    ensures Driven(c, r', w', 1) && LeftAfter(c, interval, r', w', [M.Nothing, M.SafetyFailed, M.Nothing])
    ensures QuietAt(c, interval, r', 1, LOST, false) && QuietAt(c, interval, r', 2, SILENT.(timeout := true), false)
    ensures QuietAt(c, interval, r', 3, SILENT, true) && SoftwareThroughout(w', 2, 4)
  {
    var r, w := FailTimeout(c, interval);
    SilentRound(w.contexts[3]);
    r', w' := QuietSample(c, r, w, Round(1000000000, BLANK_TICK), M.MinDwell(c, false) + Pace(interval, 4), true);
  }

  lemma LeftSamples(c: M.Config, interval: nat, r: M.Run) returns (us: seq<nat>)
    requires MonitorSafety.CanWiden(c) && |r.ticks| == 4
    requires r.ticks[0].now == M.MinDwell(c, false) + interval && r.ticks[0].advice == Some(Avx2)
    requires QuietAt(c, interval, r, 1, LOST, false) && QuietAt(c, interval, r, 2, SILENT.(timeout := true), false)
    requires QuietAt(c, interval, r, 3, SILENT, true)
    ensures MonitorSafety.Sampled(r.ticks, us, interval) && MonitorSafety.AdviceAllowed(c, r.ticks)
    ensures r.ticks[2].softwareTimeout && r.ticks[3].safetyPatchOk && !MonitorSafety.Emergency(c, r.ticks[3])
  {
    assert Pace(interval, 2) == Pace(interval, 1) + interval && Pace(interval, 1) == interval;
    assert Pace(interval, 4) == Pace(interval, 3) + interval && Pace(interval, 3) == Pace(interval, 2) + interval;
    us := [1000 * r.ticks[0].now, 1000 * r.ticks[1].now, 1000 * r.ticks[2].now, 1000 * r.ticks[3].now];
  }

  /** A sample without measured performance, timeout or emergency leaves the selection alone. */
  lemma QuietSample(c: M.Config, r: M.Run, w: Watch, round: Round, now: nat, patchOk: bool) returns (r': M.Run, w': Watch)
    requires Driven(c, r, w, 1)
    requires var report := Observe(w.contexts[|w.rounds|], round, 1).1;
             && !report.timeout && !report.outcome.eval.performanceAvailable
             && RawTemperature(report.outcome.eval) == None
    ensures Driven(c, r', w', 1) && w' == Watched(w, 1, round)
    ensures var t := QuietTick(now, w'.reports[|w.rounds|], patchOk);
            r'.ticks == r.ticks + [t] && !MonitorSafety.Emergency(c, t)
    ensures r'.actions == r.actions + [M.Nothing]
    ensures r'.states == r.states + [r.states[|r.ticks|].(stable := 0)]
  {
    var t := QuietTick(now, Observe(w.contexts[|w.rounds|], round, 1).1, patchOk);
    Continued(c, r, w, 1, round, t);
    r', w' := Ran(c, r, t), Watched(w, 1, round);
  }

  /** A sample whose timeout fallback fails leaves the wide width. */
  lemma FailedFallback(c: M.Config, r: M.Run, w: Watch, round: Round, now: nat) returns (r': M.Run, w': Watch)
    requires Driven(c, r, w, 1) && Observe(w.contexts[|w.rounds|], round, 1).1 == SILENT.(timeout := true)
    requires r.states[|r.ticks|].selection == Avx2
    ensures Driven(c, r', w', 1) && w' == Watched(w, 1, round)
    ensures r'.ticks == r.ticks + [QuietTick(now, SILENT.(timeout := true), false)]
    ensures r'.actions == r.actions + [M.SafetyFailed]
    ensures |r'.states| == |r.states| + 1 && r'.states[..|r.states|] == r.states && r'.states[|r.states|].selection == Avx2
  {
    var t := QuietTick(now, SILENT.(timeout := true), false);
    Continued(c, r, w, 1, round, t);
    r', w' := Ran(c, r, t), Watched(w, 1, round);
  }
}
