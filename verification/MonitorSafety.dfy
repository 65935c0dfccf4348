/** What the monitor loop guarantees over whole runs. */
module MonitorSafety {

  import opened SimdWidth
  import opened MonitorLoop

  predicate Monotone(ticks: seq<Tick>) {
    forall i, j :: 0 <= i <= j < |ticks| ==> ticks[i].now <= ticks[j].now
  }

  /** The samples in microseconds: the loop sleeps `interval` between them and reads the clock in whole
      milliseconds. */
  predicate Sampled(ticks: seq<Tick>, us: seq<nat>, interval: nat) {
    && |us| == |ticks| && (forall i :: 0 <= i < |us| ==> ticks[i].now == us[i] / 1000)
    && forall i :: 0 < i < |us| ==> us[i] >= us[i - 1] + interval
  }

  /** The policy advises no width above the widest one it is given: a controller's recommendation is
      allowed, and the gate around it otherwise falls back to SSE4.1. */
  predicate AdviceAllowed(c: Config, ticks: seq<Tick>) {
    forall i :: 0 <= i < |ticks| && ticks[i].advice.Some? ==> Index(ticks[i].advice.value) <= Index(c.maxWidth)
  }

  /** Performance is measured only with the degraded overlay off, as the perf modes guarantee. */
  predicate OverlayOffWhenMeasured(ticks: seq<Tick>) {
    forall i :: 0 <= i < |ticks| ==> ticks[i].performanceAvailable ==> !ticks[i].degraded
  }

  predicate IsSafety(a: Action) {
    a == SafetySelected || a == SafetyFailed
  }

  /** Ceiling and both margins are in range. */
  predicate LimitsUsable(c: Config) {
    20 <= c.ceilingC <= 125 && 0 <= c.safetyMarginC <= 60 && 0 <= c.emergencyMarginC <= 60
  }

  /** The conditions of a widening: transitions allowed, validated counters, measured performance, no
      safety condition, and a raw temperature at or below the ceiling minus the safety margin. */
  predicate GatedWidening(c: Config, t: Tick) {
    && t.allowTransitions && t.upgradesAllowed && t.performanceAvailable && !SafetyTick(c, t)
    && LimitsUsable(c) && t.tempMillic.Some? && t.tempMillic.value <= (c.ceilingC - c.safetyMarginC) * 1000
  }

  lemma RunStep(c: Config, r: Run, i: nat)
    requires IsRun(c, r) && i < |r.ticks|
    ensures Step(c, r.states[i], r.ticks[i]) == (r.states[i + 1], r.actions[i])
  {
  }

  // ---------------------------------------------------------------- one tick

  /** A transition passes both gates with measured performance, commits its target and starts a new
      dwell and cooldown epoch. */
  lemma ChangePassesGates(c: Config, s: State, t: Tick)
    requires Step(c, s, t).1.Changed?
    ensures GatesOpen(c, s, t) && t.performanceAvailable && !SafetyTick(c, t)
    ensures var (s', a) := Step(c, s, t);
            && s'.widthSince == t.now && s'.cooldownUntil == t.now + Cooldown(c, t, a.from, a.to)
            && s'.selection == a.to && a.from == Observed(s, t) && a.to != a.from
            && (Index(a.to) > Index(a.from) ==> GatedWidening(c, t))
  {
  }

  /** What every other action leaves selected. */
  lemma SelectionWithoutChange(c: Config, s: State, t: Tick)
    requires !Step(c, s, t).1.Changed?
    ensures var (s', a) := Step(c, s, t);
            s'.selection == if a == SafetySelected then Sse41 else Current(s, t)
  {
  }

  lemma StepWidens(c: Config, s: State, t: Tick)
    requires Index(Step(c, s, t).0.selection) > Index(s.selection)
    ensures Step(c, s, t).1.Changed? && GatedWidening(c, t) && GatesOpen(c, s, t)
  {
    if Step(c, s, t).1.Changed? {
      ChangePassesGates(c, s, t);
    } else {
      SelectionWithoutChange(c, s, t);
    }
  }

  // ---------------------------------------------------------------- widening

  /** Main result: between any two states of a run the selection grows only through a tick that met
      every widening condition and both gates. */
  lemma {:induction false} SelectionGrowsOnlyGated(c: Config, r: Run, i: nat, j: nat) returns (k: nat)
    requires IsRun(c, r) && i < j < |r.states| && Index(r.states[j].selection) > Index(r.states[i].selection)
    ensures i <= k < j && GatedWidening(c, r.ticks[k]) && GatesOpen(c, r.states[k], r.ticks[k])
    ensures r.actions[k].Changed? && r.states[k + 1].selection == r.actions[k].to
    ensures Index(r.states[k].selection) < Index(r.states[k + 1].selection)
    decreases j
  {
    RunStep(c, r, j - 1);
    if Index(r.states[j].selection) > Index(r.states[j - 1].selection) {
      k := j - 1;
      StepWidens(c, r.states[k], r.ticks[k]);
      ChangePassesGates(c, r.states[k], r.ticks[k]);
    } else {
      k := SelectionGrowsOnlyGated(c, r, i, j - 1);
    }
  }

  lemma StepWithoutPermission(c: Config, s: State, t: Tick)
    requires !t.allowTransitions
    ensures Step(c, s, t).0.selection in {s.selection, Sse41}
  {
  }

  /** While transitions are not allowed the selection stays what it was or drops to SSE4.1. */
  lemma {:induction false} WithoutPermissionOnlySse41(c: Config, r: Run, i: nat, j: nat)
    requires IsRun(c, r) && i <= j < |r.states|
    requires forall k :: i <= k < j ==> !r.ticks[k].allowTransitions
    ensures r.states[j].selection in {r.states[i].selection, Sse41}
    decreases j
  {
    if i < j {
      WithoutPermissionOnlySse41(c, r, i, j - 1);
      RunStep(c, r, j - 1);
      StepWithoutPermission(c, r.states[j - 1], r.ticks[j - 1]);
    }
  }

  lemma StepWithoutAdvice(c: Config, s: State, t: Tick)
    requires t.advice.None?
    ensures Index(Step(c, s, t).0.selection) <= Index(s.selection) + 1
  {
  }

  /** Without advice hysteresis climbs one width at a time: no width is skipped on the way up. */
  lemma {:induction false} WithoutAdviceNoWidthIsSkipped(c: Config, r: Run, i: nat, j: nat) returns (m: nat)
    requires IsRun(c, r) && i < j < |r.states|
    requires forall k :: i <= k < j ==> r.ticks[k].advice.None?
    requires r.states[i].selection == Sse41 && r.states[j].selection == Avx512
    ensures i < m < j && r.states[m].selection == Avx2
    decreases j
  {
    RunStep(c, r, j - 1);
    StepWithoutAdvice(c, r.states[j - 1], r.ticks[j - 1]);
    if r.states[j - 1].selection == Avx512 {
      m := WithoutAdviceNoWidthIsSkipped(c, r, i, j - 1);
    } else {
      m := j - 1;
    }
  }

  // ---------------------------------------------------------------- emergency

  predicate Emergency(c: Config, t: Tick) {
    EmergencyExceeded(c, t.tempMillic)
  }

  /** Main result: after an emergency tick SSE4.1 is selected, or the tick's patch failed and left no
      cooldown and no new dwell epoch behind. */
  lemma EmergencyEndsNarrowOrFails(c: Config, r: Run, i: nat)
    requires IsRun(c, r) && i < |r.ticks| && Emergency(c, r.ticks[i])
    ensures IsSafety(r.actions[i])
    ensures r.actions[i] == SafetySelected ==> r.states[i + 1].selection == Sse41
    ensures r.actions[i] == SafetyFailed ==>
              && !r.ticks[i].safetyPatchOk && r.states[i + 1].cooldownUntil == 0
              && r.states[i + 1].widthSince == r.states[i].widthSince
              && Index(r.states[i + 1].selection) <= Index(r.states[i].selection)
  {
    RunStep(c, r, i);
  }

  /** Main result: from a failed emergency fallback every later emergency tick attempts again, and
      one whose patch works ends at SSE4.1, whatever ticks lie between; meanwhile the selection has
      not grown unless a tick met every widening condition. */
  lemma EmergencyIsRetried(c: Config, r: Run, i: nat, j: nat)
    requires IsRun(c, r) && i < j < |r.ticks| && Emergency(c, r.ticks[i]) && Emergency(c, r.ticks[j])
    requires r.actions[i] == SafetyFailed
    ensures r.ticks[j].safetyPatchOk ==> r.actions[j] == SafetySelected && r.states[j + 1].selection == Sse41
    ensures r.actions[j] == SafetyFailed ==> !r.ticks[j].safetyPatchOk && r.states[j + 1].cooldownUntil == 0
    ensures (forall k :: i < k < j ==> !GatedWidening(c, r.ticks[k])) ==>
              Index(r.states[j].selection) <= Index(r.states[i].selection)
  {
    EmergencyEndsNarrowOrFails(c, r, i);
    EmergencyEndsNarrowOrFails(c, r, j);
    RunStep(c, r, j);
    if Index(r.states[j].selection) > Index(r.states[i].selection) {
      var k := SelectionGrowsOnlyGated(c, r, i + 1, j);
    }
  }

  /** Through an unbroken emergency SSE4.1 stays selected from the first working patch on. */
  lemma {:induction false} PersistentEmergencyNarrows(c: Config, r: Run, k: nat, j: nat)
    requires IsRun(c, r) && k < j <= |r.ticks|
    requires forall l :: k <= l < j ==> Emergency(c, r.ticks[l])
    requires r.ticks[k].safetyPatchOk
    ensures r.states[j].selection == Sse41
    decreases j
  {
    assert Emergency(c, r.ticks[j - 1]);
    RunStep(c, r, j - 1);
    if k < j - 1 {
      PersistentEmergencyNarrows(c, r, k, j - 1);
    }
  }

  /** While SSE4.1 stays selected a pending cooldown survives every tick. */
  lemma NarrowKeepsCooldown(c: Config, s: State, t: Tick, end: nat)
    requires s.selection == Sse41 && Step(c, s, t).0.selection == Sse41 && s.cooldownUntil >= end
    requires t.now + CooldownDown(c, false) >= end && c.cooldownDownMs <= INT_MAX
    ensures Step(c, s, t).0.cooldownUntil >= end
  {
    DegradedOverlayIsStricter(c);
    if Step(c, s, t).1.Changed? {
      ChangePassesGates(c, s, t);
    }
  }

  /** Main result: after a successful fallback nothing wider than SSE4.1 is selected until a tick that
      meets every widening condition, at least the narrowing cooldown and the minimum dwell later. */
  lemma FallbackHoldsUntilGatedWidening(c: Config, r: Run, i: nat, m: nat) returns (k: nat)
    requires IsRun(c, r) && Monotone(r.ticks) && c.cooldownDownMs <= INT_MAX
    requires i < m < |r.states| && i < |r.ticks| && r.actions[i] == SafetySelected
    requires r.states[m].selection != Sse41
    ensures i < k < m && r.states[k].selection == Sse41 && GatedWidening(c, r.ticks[k])
    ensures r.ticks[k].now >= r.ticks[i].now + CooldownDown(c, false)
    ensures r.ticks[k].now >= r.ticks[i].now + MinDwell(c, r.ticks[k].degraded)
  {
    var end := r.ticks[i].now + CooldownDown(c, false);
    RunStep(c, r, i);
    k := i + 1;
    while r.states[k + 1].selection == Sse41
      invariant i < k < m && r.states[k].selection == Sse41 && r.states[k].cooldownUntil >= end
      decreases m - k
    {
      RunStep(c, r, k);
      NarrowKeepsCooldown(c, r.states[k], r.ticks[k], end);
      k := k + 1;
    }
    RunStep(c, r, k);
    StepWidens(c, r.states[k], r.ticks[k]);
    TransitionsKeepDwell(c, r, i, k);
  }

  // ---------------------------------------------------------------- dwell

  predicate StartsEpoch(a: Action) {
    a.Changed? || a == SafetySelected
  }

  lemma StepWidthSince(c: Config, s: State, t: Tick)
    ensures Step(c, s, t).0.widthSince == if StartsEpoch(Step(c, s, t).1) then t.now else s.widthSince
  {
  }

  lemma {:induction false} EpochNeverMovesBack(c: Config, r: Run, i: nat, n: nat)
    requires IsRun(c, r) && i < n < |r.states| && Monotone(r.ticks) && StartsEpoch(r.actions[i])
    ensures r.states[n].widthSince >= r.ticks[i].now
    decreases n
  {
    RunStep(c, r, n - 1);
    StepWidthSince(c, r.states[n - 1], r.ticks[n - 1]);
    if i < n - 1 {
      EpochNeverMovesBack(c, r, i, n - 1);
    }
  }

  /** Main result: two successful transitions are at least the minimum dwell in force at the
      later one apart, whatever happened in between, and so is a transition from any successful
      safety fallback before it. */
  lemma TransitionsKeepDwell(c: Config, r: Run, i: nat, j: nat)
    requires IsRun(c, r) && i < j < |r.ticks| && Monotone(r.ticks)
    requires StartsEpoch(r.actions[i]) && r.actions[j].Changed?
    ensures r.ticks[j].now - r.ticks[i].now >= MinDwell(c, r.ticks[j].degraded)
  {
    EpochNeverMovesBack(c, r, i, j);
    RunStep(c, r, j);
    ChangePassesGates(c, r.states[j], r.ticks[j]);
  }

  // ---------------------------------------------------------------- cooldown

  /** When the cooldown that tick i starts would end. */
  function CooldownEnd(c: Config, r: Run, i: nat): (e: nat)
    requires i < |r.ticks| == |r.actions| && r.actions[i].Changed?
  {
    r.ticks[i].now + Cooldown(c, r.ticks[i], r.actions[i].from, r.actions[i].to)
  }

  /** How a tick that is not a safety tick treats a pending cooldown. */
  lemma StepCooldown(c: Config, s: State, t: Tick, end: nat)
    requires s.cooldownUntil >= end && !IsSafety(Step(c, s, t).1)
    ensures Step(c, s, t).0.cooldownUntil >= end || t.now >= end
  {
  }

  lemma {:induction false} CooldownPending(c: Config, r: Run, i: nat, n: nat)
    requires IsRun(c, r) && i < n < |r.states| && Monotone(r.ticks) && r.actions[i].Changed?
    requires forall k :: i < k < n ==> !IsSafety(r.actions[k])
    ensures r.states[n].cooldownUntil >= CooldownEnd(c, r, i) || r.ticks[n - 1].now >= CooldownEnd(c, r, i)
    decreases n
  {
    RunStep(c, r, n - 1);
    if n == i + 1 {
      ChangePassesGates(c, r.states[i], r.ticks[i]);
    } else {
      CooldownPending(c, r, i, n - 1);
      if r.states[n - 1].cooldownUntil >= CooldownEnd(c, r, i) {
        StepCooldown(c, r.states[n - 1], r.ticks[n - 1], CooldownEnd(c, r, i));
      }
    }
  }

  /** Main result: without a safety fallback in between, two successful transitions are at least
      the earlier one's cooldown apart, even through failed downgrade patches. */
  lemma TransitionsKeepCooldown(c: Config, r: Run, i: nat, j: nat)
    requires IsRun(c, r) && i < j < |r.ticks| && Monotone(r.ticks)
    requires r.actions[i].Changed? && r.actions[j].Changed?
    requires forall k :: i < k < j ==> !IsSafety(r.actions[k])
    ensures r.ticks[j].now >= CooldownEnd(c, r, i)
  {
    CooldownPending(c, r, i, j);
    RunStep(c, r, j);
    ChangePassesGates(c, r.states[j], r.ticks[j]);
  }

  // ---------------------------------------------------------------- cooldown and safety fallbacks

  /** A widening's cooldown is covered by what passes after a successful safety fallback: the fallback
      comes at least one sample later, and the next transition waits for the narrowing cooldown, the
      minimum dwell and another sample. */
  predicate FallbackCovers(c: Config, interval: nat) {
    || CooldownUp(c, false) <= interval / 1000 + CooldownDown(c, false)
    || CooldownUp(c, false) <= interval / 1000 + MinDwell(c, false)
    || CooldownUp(c, false) <= 2 * interval / 1000
  }

  /** Widening is possible at all: ceiling and margins are usable and the host has a wider width. */
  predicate CanWiden(c: Config) {
    LimitsUsable(c) && c.maxWidth != Sse41
  }

  lemma {:induction false} SampledApart(ticks: seq<Tick>, us: seq<nat>, interval: nat, i: nat, j: nat)
    requires Sampled(ticks, us, interval) && i < j < |us|
    ensures us[j] >= us[i] + interval && (j > i + 1 ==> us[j] >= us[i] + 2 * interval)
    decreases j
  {
    if i < j - 1 {
      SampledApart(ticks, us, interval, i, j - 1);
    }
  }

  lemma MillisecondsApart(u: nat, v: nat, d: nat)
    requires v >= u + d
    ensures v / 1000 >= u / 1000 + d / 1000
  {
  }

  /** Two samples are the whole milliseconds of the intervals between them apart. */
  lemma TicksApart(ticks: seq<Tick>, us: seq<nat>, interval: nat, i: nat, j: nat)
    requires Sampled(ticks, us, interval) && i < j < |us|
    ensures ticks[j].now >= ticks[i].now + interval / 1000
    ensures j > i + 1 ==> ticks[j].now >= ticks[i].now + 2 * interval / 1000
  {
    SampledApart(ticks, us, interval, i, j);
    MillisecondsApart(us[i], us[j], interval);
    if j > i + 1 {
      MillisecondsApart(us[i], us[j], 2 * interval);
    }
  }

  lemma SampledIsMonotone(ticks: seq<Tick>, us: seq<nat>, interval: nat)
    requires Sampled(ticks, us, interval)
    ensures Monotone(ticks)
  {
    forall i, j | 0 <= i <= j < |ticks| ensures ticks[i].now <= ticks[j].now {
      if i < j {
        TicksApart(ticks, us, interval, i, j);
      }
    }
  }

  /** With advice within the widest width no transition goes beyond it. */
  lemma WideningIsAllowed(c: Config, s: State, t: Tick)
    requires t.advice.Some? ==> Index(t.advice.value) <= Index(c.maxWidth)
    requires var a := Step(c, s, t).1; a.Changed? && Index(a.to) > Index(a.from)
    ensures Index(Step(c, s, t).1.to) <= Index(c.maxWidth)
  {
  }

  predicate Held(c: Config, s: State, end: nat) {
    s.cooldownUntil >= end || s.widthSince + MinDwell(c, false) >= end
  }

  /** A tick keeps the hold on a cooldown that began at `begin`, or comes after its end. */
  lemma StepHeld(c: Config, s: State, t: Tick, begin: nat, end: nat)
    requires Held(c, s, end) && s.widthSince <= t.now && begin <= t.now && c.cooldownDownMs <= INT_MAX
    requires Step(c, s, t).1 != SafetyFailed && (t.performanceAvailable ==> !t.degraded)
    requires end - begin <= CooldownDown(c, false) || end - begin <= MinDwell(c, false)
    ensures Held(c, Step(c, s, t).0, end) || t.now >= end
  {
    DegradedOverlayIsStricter(c);
  }

  lemma {:induction false} WidthSinceInPast(c: Config, r: Run, n: nat)
    requires IsRun(c, r) && n < |r.ticks| && Monotone(r.ticks) && r.states[0].widthSince <= r.ticks[0].now
    ensures r.states[n].widthSince <= r.ticks[n].now
  {
    if n > 0 {
      WidthSinceInPast(c, r, n - 1);
      RunStep(c, r, n - 1);
      StepWidthSince(c, r.states[n - 1], r.ticks[n - 1]);
    }
  }

  lemma {:induction false} CooldownHeld(c: Config, r: Run, us: seq<nat>, interval: nat, i: nat, n: nat)
    requires IsRun(c, r) && i < n < |r.states| && Sampled(r.ticks, us, interval) && OverlayOffWhenMeasured(r.ticks)
    requires r.states[0].widthSince <= r.ticks[0].now && c.cooldownDownMs <= INT_MAX && r.actions[i].Changed?
    requires CooldownCovered(c, r, interval, i)
    requires forall k :: i < k < n ==> r.actions[k] != SafetyFailed
    ensures Held(c, r.states[n], CooldownEnd(c, r, i)) || r.ticks[n - 1].now >= CooldownEnd(c, r, i)
    decreases n
  {
    RunStep(c, r, n - 1);
    if n == i + 1 {
      ChangePassesGates(c, r.states[i], r.ticks[i]);
    } else {
      CooldownHeld(c, r, us, interval, i, n - 1);
      SampledIsMonotone(r.ticks, us, interval);
      WidthSinceInPast(c, r, n - 1);
      TicksApart(r.ticks, us, interval, i, n - 1);
      if Held(c, r.states[n - 1], CooldownEnd(c, r, i)) {
        StepHeld(c, r.states[n - 1], r.ticks[n - 1], r.ticks[i].now + interval / 1000, CooldownEnd(c, r, i));
      }
    }
  }

  /** The cooldown that tick i starts ends no later than what a fallback a sample later starts. */
  predicate CooldownCovered(c: Config, r: Run, interval: nat, i: nat)
    requires i < |r.ticks| == |r.actions| && r.actions[i].Changed?
  {
    var length := CooldownEnd(c, r, i) - r.ticks[i].now;
    length <= interval / 1000 + CooldownDown(c, false) || length <= interval / 1000 + MinDwell(c, false)
  }

  lemma TransitionIsCovered(c: Config, r: Run, interval: nat, i: nat)
    requires IsRun(c, r) && i < |r.ticks| && OverlayOffWhenMeasured(r.ticks) && AdviceAllowed(c, r.ticks)
    requires r.actions[i].Changed? && (FallbackCovers(c, interval) || !CanWiden(c))
    ensures CooldownCovered(c, r, interval, i) || CooldownEnd(c, r, i) <= r.ticks[i].now + 2 * interval / 1000
  {
    RunStep(c, r, i);
    ChangePassesGates(c, r.states[i], r.ticks[i]);
    if Index(r.actions[i].to) > Index(r.actions[i].from) {
      WideningIsAllowed(c, r.states[i], r.ticks[i]);
    }
  }

  /** Main result: when the widening cooldown is covered, or nothing can widen at all, only a failed
      safety fallback can bring two transitions closer together than the earlier one's cooldown. */
  lemma CooldownSurvivesFallbacks(c: Config, r: Run, us: seq<nat>, interval: nat, i: nat, j: nat)
    requires IsRun(c, r) && i < j < |r.ticks| && Sampled(r.ticks, us, interval)
    requires OverlayOffWhenMeasured(r.ticks) && AdviceAllowed(c, r.ticks)
    requires r.states[0].widthSince <= r.ticks[0].now && c.cooldownDownMs <= INT_MAX
    requires FallbackCovers(c, interval) || !CanWiden(c)
    requires r.actions[i].Changed? && r.actions[j].Changed?
    requires forall k :: i < k < j ==> r.actions[k] != SafetyFailed
    ensures r.ticks[j].now >= CooldownEnd(c, r, i)
  {
    SampledIsMonotone(r.ticks, us, interval);
    TransitionIsCovered(c, r, interval, i);
    if CooldownCovered(c, r, interval, i) {
      CooldownHeld(c, r, us, interval, i, j);
      RunStep(c, r, j);
      ChangePassesGates(c, r.states[j], r.ticks[j]);
      WidthSinceInPast(c, r, j);
    } else if j == i + 1 {
      TransitionsKeepCooldown(c, r, i, j);
    } else {
      TicksApart(r.ticks, us, interval, i, j);
    }
  }

  /** A temperature that allows widening without being an emergency, and one that is an emergency. */
  function CoolMillic(c: Config): (t: int)
    requires LimitsUsable(c)
    ensures TemperatureUpgradeAllowed(c, Some(t)) && !EmergencyExceeded(c, Some(t)) && -100000 <= t <= 200000
  {
    (c.ceilingC - c.safetyMarginC) * 1000 - 1
  }

  function HotMillic(c: Config): (t: int)
    requires LimitsUsable(c)
    ensures EmergencyExceeded(c, Some(t)) && -100000 <= t <= 200000
  {
    (c.ceilingC + c.emergencyMarginC) * 1000
  }

  function Latest(a: nat, b: nat, c: nat): (r: nat) {
    var ab := if a > b then a else b;
    if ab > c then ab else c
  }

  /** The samples of the failing run: the first on a whole millisecond, the second an interval later,
      the third as soon as interval, narrowing cooldown and dwell allow. */
  function TightSamples(c: Config, interval: nat): (us: seq<nat>) {
    var u0 := 1000 * (MinDwell(c, false) + interval);
    var u1 := u0 + interval;
    [u0, u1, Latest(u1 + interval, 1000 * (u1 / 1000 + CooldownDown(c, false)), 1000 * (u1 / 1000 + MinDwell(c, false)))]
  }

  lemma TightSamplesMeetGates(c: Config, interval: nat)
    requires !FallbackCovers(c, interval)
    ensures var us := TightSamples(c, interval);
            && us[0] >= interval && us[1] == us[0] + interval && us[2] >= us[1] + interval
            && us[0] / 1000 == MinDwell(c, false) + interval
            && us[1] / 1000 + CooldownDown(c, false) <= us[2] / 1000
            && us[1] / 1000 + MinDwell(c, false) <= us[2] / 1000
            && us[2] / 1000 < us[0] / 1000 + CooldownUp(c, false)
  {
    var n := MinDwell(c, false) + interval;
    assert (1000 * n + interval) / 1000 == n + interval / 1000;
    assert (1000 * n + 2 * interval) / 1000 == n + 2 * interval / 1000;
  }

  /** A widening to AVX2, a working emergency patch back to SSE4.1, and a widening again, each with the
      overlay off; it does not matter whether the measurements themselves report throttling. */
  predicate WidensAround(c: Config, r: Run, throttled: seq<bool>)
    requires LimitsUsable(c)
  {
    && IsRun(c, r) && |r.ticks| == 3 == |throttled|
    && r.states[0] == State(0, 0, 0, 0, Sse41) && r.states[1].selection == Avx2
    && r.actions == [Changed(Sse41, Avx2, Advice), SafetySelected, Changed(Sse41, Avx2, Advice)]
    && r.ticks[1].safetyPatchOk && Emergency(c, r.ticks[1])
    && forall k :: 0 <= k < 3 ==>
         && !r.ticks[k].narrowedBeforeRead && !r.ticks[k].narrowedBeforePatch && r.ticks[k].throttled == throttled[k]
         && r.ticks[k].performanceAvailable && r.ticks[k].upgradesAllowed && !r.ticks[k].softwareTimeout
         && !r.ticks[k].degraded && r.ticks[k].advice == Some(Avx2)
         && r.ticks[k].tempMillic == Some(if k == 1 then HotMillic(c) else CoolMillic(c))
  }

  lemma WidenAround(c: Config, t0: nat, t1: nat, t2: nat, throttled: seq<bool>) returns (r: Run)
    requires LimitsUsable(c) && |throttled| == 3 && MinDwell(c, false) <= t0
    requires t1 + CooldownDown(c, false) <= t2 && t1 + MinDwell(c, false) <= t2
    ensures WidensAround(c, r, throttled)
    ensures r.ticks[0].now == t0 && r.ticks[1].now == t1 && r.ticks[2].now == t2
  {
    var down, up := CooldownDown(c, false), CooldownUp(c, false);
    var widen := Tick(t0, false, false, true, throttled[0], Some(CoolMillic(c)), false, false, Some(Avx2),
                   true, true, true, true, true);
    var emergency := widen.(now := t1, tempMillic := Some(HotMillic(c)), throttled := throttled[1]);
    var again := widen.(now := t2, throttled := throttled[2]);
    var s0 := State(0, 0, 0, 0, Sse41);
    var s1 := State(0, 0, t0, t0 + up, Avx2);
    var s2 := State(0, 0, t1, t1 + down, Sse41);
    var s3 := State(0, 0, t2, t2 + up, Avx2);
    assert Step(c, s0, widen) == (s1, Changed(Sse41, Avx2, Advice));
    assert Step(c, s1, emergency) == (s2, SafetySelected);
    assert Step(c, s2, again) == (s3, Changed(Sse41, Avx2, Advice));
    r := Run([widen, emergency, again], [s0, s1, s2, s3],
      [Changed(Sse41, Avx2, Advice), SafetySelected, Changed(Sse41, Avx2, Advice)]);
  }

  /** Main result: the condition is exact. Under every other configuration there is such a run from a
      started loop, sampled at the given interval and with advice the policy may give, whose two
      transitions are closer together than the first one's cooldown. */
  lemma FallbackShortensCooldown(c: Config, interval: nat, throttled: seq<bool>) returns (r: Run, us: seq<nat>)
    requires !FallbackCovers(c, interval) && CanWiden(c) && |throttled| == 3
    ensures WidensAround(c, r, throttled) && OverlayOffWhenMeasured(r.ticks) && AdviceAllowed(c, r.ticks)
    ensures Sampled(r.ticks, us, interval) && us[0] >= interval
    ensures r.ticks[2].now < CooldownEnd(c, r, 0)
  {
    us := TightSamples(c, interval);
    TightSamplesMeetGates(c, interval);
    r := WidenAround(c, us[0] / 1000, us[1] / 1000, us[2] / 1000, throttled);
  }

  /** The defaults, at the default interval of 50 ms, are such a configuration on every host with a
      wider width. */
  lemma DefaultsDoNotCover(c: Config)
    requires c.cooldownDownMs == 1000 && c.cooldownUpMs == 2000 && c.minDwellMs == 200
    requires c.ceilingC == 92 && c.safetyMarginC == 4 && c.emergencyMarginC == 10
    ensures !FallbackCovers(c, 50000) && (CanWiden(c) <==> c.maxWidth != Sse41)
  {
  }
}
