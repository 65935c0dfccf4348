/** From counters to widths: in a run of the monitor loop that reads the perf context, a workload that
    stays slow against its reference is narrowed after the required number of ordinary samples. */
module MonitorVerdicts {

  import opened SimdWidth
  import opened Statistics
  import opened WidthAuthorization
  import opened PerfPipeline
  import opened PerfModes
  import opened PerfVerdicts
  import opened MonitorPerf
  import M = MonitorLoop
  import H = MonitorHysteresis
  import MonitorSafety

  /** The rounds from a on, up to but not including b. */
  function TicksOf(w: Watch, a: nat, b: nat): (ticks: seq<Tick>)
    requires a <= b <= |w.rounds|
    ensures |ticks| == b - a && forall i :: 0 <= i < b - a ==> ticks[i] == w.rounds[a + i].tick
  {
    seq(b - a, i requires 0 <= i < b - a => w.rounds[a + i].tick)
  }

  function OutcomesOf(w: Watch, a: nat, b: nat): (outs: seq<Outcome>)
    requires a <= b <= |w.reports|
    ensures |outs| == b - a && forall i :: 0 <= i < b - a ==> outs[i] == w.reports[a + i].outcome
  {
    seq(b - a, i requires 0 <= i < b - a => w.reports[a + i].outcome)
  }

  /** In hardware mode the timeout check does nothing, so a stretch of rounds is a chain. */
  lemma WatchIsChain(w: Watch, timeoutSec: I32, a: nat, b: nat)
    requires IsWatch(w, timeoutSec) && a <= b <= |w.rounds|
    requires forall k :: a <= k <= b ==> InHardware(w.contexts[k])
    ensures Outcomes(w.contexts[a..b + 1], TicksOf(w, a, b), OutcomesOf(w, a, b))
  {
    var cs, ticks, outs := w.contexts[a..b + 1], TicksOf(w, a, b), OutcomesOf(w, a, b);
    forall i | 0 <= i < |ticks| ensures Evaluate(cs[i], ticks[i]).0 == cs[i + 1] && outs[i] == Evaluate(cs[i], ticks[i]).1 {
      HardwareRound(w, timeoutSec, a + i);
    }
  }

  lemma HardwareRound(w: Watch, timeoutSec: I32, k: nat)
    requires IsWatch(w, timeoutSec) && k < |w.rounds| && w.contexts[k].mode == Hardware
    ensures Evaluate(w.contexts[k], w.rounds[k].tick) == (w.contexts[k + 1], w.reports[k].outcome)
  {
    assert Observe(w.contexts[k], w.rounds[k], timeoutSec) == (w.contexts[k + 1], w.reports[k]);
  }

  /** Every measured tick of the stretch is slow against the reference at its start. */
  predicate SlowStretch(w: Watch, a: nat, b: nat, threshold: U64)
    requires a <= b <= |w.rounds| < |w.contexts| && w.contexts[a].pipe.refs.calibratedCpi > 0
  {
    Slow(w.contexts[a..b + 1], TicksOf(w, a, b), w.contexts[a].pipe.refs, threshold)
  }

  lemma SlowStretchIsThrottled(w: Watch, timeoutSec: I32, a: nat, b: nat, threshold: U64)
    requires IsWatch(w, timeoutSec) && a <= b <= |w.rounds| && threshold < U32_MAX
    requires forall l :: a <= l <= b ==> InHardware(w.contexts[l])
    requires w.contexts[a].pipe.window == [] && w.contexts[a].pipe.refs.calibratedCpi > 0
    requires SlowStretch(w, a, b, threshold)
    ensures ThrottledWhenMeasured(OutcomesOf(w, a, b))
  {
    WatchIsChain(w, timeoutSec, a, b);
    SlowOutcomes(w.contexts[a..b + 1], TicksOf(w, a, b), OutcomesOf(w, a, b), threshold);
  }

  function OrdinaryTicks(c: M.Config, r: M.Run, i: nat, n: nat): (count: nat)
    requires i <= n <= |r.ticks| < |r.states|
    decreases n
  {
    if n == i then 0
    else OrdinaryTicks(c, r, i, n - 1) + if H.Ordinary(c, r.states[n - 1], r.ticks[n - 1]) then 1 else 0
  }

  lemma {:induction false} AllThrottled(c: M.Config, r: M.Run, i: nat, n: nat)
    requires i <= n <= |r.ticks| < |r.states|
    requires forall k :: i <= k < n && r.ticks[k].performanceAvailable ==> r.ticks[k].throttled
    ensures H.ThrottledTicks(c, r, i, n) == OrdinaryTicks(c, r, i, n)
    decreases n
  {
    if i < n {
      AllThrottled(c, r, i, n - 1);
    }
  }

  /** Main result: in a driven run, a stretch in hardware mode from an empty history whose measured samples
      are all slow, with no safety condition and no other change of width, ends one width narrower
      once it holds the required number of ordinary samples, or in a failed patch that is retried. */
  lemma SlowWorkloadNarrows(c: M.Config, r: M.Run, w: Watch, timeoutSec: I32, threshold: U64, i: nat, j: nat)
    requires Driven(c, r, w, timeoutSec) && i <= j < |r.ticks| && r.states[0].throttle >= 0 && threshold < U32_MAX
    requires forall k :: i <= k <= j + 1 ==> InHardware(w.contexts[k])
    requires w.contexts[i].pipe.window == [] && w.contexts[i].pipe.refs.calibratedCpi > 0
    requires SlowStretch(w, i, j + 1, threshold)
    requires forall k :: i <= k < j ==> !M.SafetyTick(c, r.ticks[k]) && !r.actions[k].Changed?
    requires H.Ordinary(c, r.states[j], r.ticks[j]) && !H.Advised(r.actions[j])
    requires OrdinaryTicks(c, r, i, j + 1) >= M.DownCount(c, r.ticks[j].degraded)
    requires M.Observed(r.states[j], r.ticks[j]) != Sse41
    ensures H.Narrows(c, r.states[j], r.ticks[j], r.states[j + 1], r.actions[j])
  {
    SlowStretchIsThrottled(w, timeoutSec, i, j + 1, threshold);
    forall k | i <= k <= j && r.ticks[k].performanceAvailable ensures r.ticks[k].throttled {
      assert Reads(r.ticks[k], w.reports[k]);
      assert OutcomesOf(w, i, j + 1)[k - i] == w.reports[k].outcome;
    }
    AllThrottled(c, r, i, j + 1);
    H.ThrottlingNarrows(c, r, i, j);
  }
}
