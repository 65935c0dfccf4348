/** When the monitor loop changes the width by hysteresis or on advice: counts of throttled and of
    stable ticks over whole runs, in both directions. */
module MonitorHysteresis {

  import opened SimdWidth
  import opened MonitorLoop
  import opened MonitorSafety

  // ---------------------------------------------------------------- widening needs a stable stretch

  /** Tick k counted as stable: gates open, performance observed, not throttled. */
  predicate CountedStable(c: Config, s: State, t: Tick) {
    !SafetyTick(c, t) && t.performanceAvailable && GatesOpen(c, s, t) && !t.throttled
  }

  /** Tick k changed no count: its gates were closed. */
  predicate Skipped(c: Config, s: State, t: Tick) {
    !SafetyTick(c, t) && t.performanceAvailable && !GatesOpen(c, s, t)
  }

  function StableTicks(c: Config, r: Run, i: nat, n: nat): (count: nat)
    requires i <= n <= |r.ticks| < |r.states|
    decreases n
  {
    if n == i then 0
    else StableTicks(c, r, i, n - 1) + if CountedStable(c, r.states[n - 1], r.ticks[n - 1]) then 1 else 0
  }

  predicate Calm(c: Config, r: Run, i: nat, n: nat)
    requires i <= n <= |r.ticks| < |r.states|
  {
    forall k :: i <= k < n ==> CountedStable(c, r.states[k], r.ticks[k]) || Skipped(c, r.states[k], r.ticks[k])
  }

  lemma StepStable(c: Config, s: State, t: Tick)
    ensures SafetyTick(c, t) || !t.performanceAvailable ==> Step(c, s, t).0.stable == 0
    ensures Skipped(c, s, t) ==> Step(c, s, t).0.stable == s.stable
    ensures CountedStable(c, s, t) ==> Step(c, s, t).0.stable in {0, s.stable + 1}
    ensures !Skipped(c, s, t) && !CountedStable(c, s, t) ==> Step(c, s, t).0.stable == 0
  {
  }

  /** The stable count is the number of stable ticks in some uninterrupted calm stretch. */
  lemma {:induction false} StableCountIsCalm(c: Config, r: Run, n: nat) returns (i: nat)
    requires IsRun(c, r) && n <= |r.ticks| && r.states[0].stable == 0
    ensures i <= n && Calm(c, r, i, n) && r.states[n].stable == StableTicks(c, r, i, n)
  {
    i := n;
    if n > 0 && r.states[n].stable != 0 {
      RunStep(c, r, n - 1);
      StepStable(c, r.states[n - 1], r.ticks[n - 1]);
      i := StableCountIsCalm(c, r, n - 1);
    }
  }

  lemma StepHysteresisUp(c: Config, s: State, t: Tick)
    requires var a := Step(c, s, t).1; a.Changed? && a.origin == Hysteresis && Index(a.to) > Index(a.from)
    ensures CountedStable(c, s, t) && s.stable + 1 >= UpCount(c, t.degraded)
  {
  }

  /** Main result: a widening by hysteresis at tick j ends an uninterrupted stretch with at least
      the required number of stable observations, in which no tick was throttled with open gates,
      lost its performance observation or raised a safety condition. */
  lemma HysteresisNeedsStreak(c: Config, r: Run, j: nat) returns (i: nat)
    requires IsRun(c, r) && j < |r.ticks| && r.states[0].stable == 0
    requires r.actions[j].Changed? && r.actions[j].origin == Hysteresis
    requires Index(r.actions[j].to) > Index(r.actions[j].from)
    ensures i <= j && Calm(c, r, i, j + 1)
    ensures StableTicks(c, r, i, j + 1) >= UpCount(c, r.ticks[j].degraded)
  {
    RunStep(c, r, j);
    StepHysteresisUp(c, r.states[j], r.ticks[j]);
    i := StableCountIsCalm(c, r, j);
  }

  // ---------------------------------------------------------------- a stable stretch widens

  /** An ordinary sample: performance measured, no safety condition, cooldown and dwell over. */
  predicate Ordinary(c: Config, s: State, t: Tick) {
    && t.performanceAvailable && !SafetyTick(c, t)
    && t.now >= s.cooldownUntil && (MinDwell(c, t.degraded) == 0 || t.now >= s.widthSince + MinDwell(c, t.degraded))
  }

  lemma OrdinaryExactlyWhen(c: Config, s: State, t: Tick)
    ensures Ordinary(c, s, t) <==> t.performanceAvailable && !SafetyTick(c, t) && GatesOpen(c, s, t)
  {
  }

  /** A change made on the policy's advice. */
  predicate Advised(a: Action) {
    a.Changed? && a.origin == Advice
  }

  /** Tick k changed nothing and left fewer stable ticks than it required. */
  predicate Unfinished(c: Config, r: Run, i: nat, k: nat)
    requires i <= k < |r.ticks| == |r.actions| < |r.states|
  {
    !r.actions[k].Changed? && StableTicks(c, r, i, k + 1) < UpCount(c, r.ticks[k].degraded)
  }

  /** The stable count is the number of stable ticks since it was zero, as long as none of them
      reached the required number. */
  lemma {:induction false} StableCountIsExact(c: Config, r: Run, i: nat, n: nat)
    requires IsRun(c, r) && i <= n <= |r.ticks| && r.states[i].stable == 0 && Calm(c, r, i, n)
    requires forall k :: i <= k < n ==> Unfinished(c, r, i, k)
    ensures r.states[n].stable == StableTicks(c, r, i, n)
    decreases n
  {
    if i < n {
      StableCountIsExact(c, r, i, n - 1);
      RunStep(c, r, n - 1);
      assert Unfinished(c, r, i, n - 1);
      StepCountsStable(c, r.states[n - 1], r.ticks[n - 1]);
    }
  }

  lemma StepCountsStable(c: Config, s: State, t: Tick)
    requires !Step(c, s, t).1.Changed?
    ensures Skipped(c, s, t) ==> Step(c, s, t).0.stable == s.stable
    ensures CountedStable(c, s, t) && s.stable + 1 < UpCount(c, t.degraded) ==> Step(c, s, t).0.stable == s.stable + 1
  {
  }

  lemma StepWidensWhenStable(c: Config, s: State, t: Tick)
    requires Ordinary(c, s, t) && !t.throttled && !Advised(Step(c, s, t).1)
    requires s.stable + 1 >= UpCount(c, t.degraded) && Index(Observed(s, t)) < Index(c.maxWidth)
    ensures var (s', a) := Step(c, s, t);
            && s'.stable == 0 && s'.throttle == 0
            && (t.patchOk && t.allowTransitions && t.upgradesAllowed && TemperatureUpgradeAllowed(c, t.tempMillic) ==>
                  && a.Changed? && a.origin == Hysteresis && a.from == Observed(s, t) && s'.selection == a.to
                  && Index(a.to) == Index(a.from) + 1
                  && s'.widthSince == t.now && s'.cooldownUntil == t.now + CooldownUp(c, t.degraded))
            && (!(t.patchOk && t.allowTransitions && t.upgradesAllowed && TemperatureUpgradeAllowed(c, t.tempMillic)) ==>
                  a == Nothing && s'.selection == Current(s, t))
  {
  }

  /** Main result: the tick that completes the required number of stable ones, counted from a zero
      count, widens by exactly one width when every widening condition holds and its patch works;
      otherwise it changes nothing and the count starts again. */
  lemma StableStretchWidens(c: Config, r: Run, i: nat, j: nat)
    requires IsRun(c, r) && i <= j < |r.ticks| && r.states[i].stable == 0 && Calm(c, r, i, j)
    requires forall k :: i <= k < j ==> Unfinished(c, r, i, k)
    requires Ordinary(c, r.states[j], r.ticks[j]) && !r.ticks[j].throttled && !Advised(r.actions[j])
    requires StableTicks(c, r, i, j + 1) >= UpCount(c, r.ticks[j].degraded)
    requires Index(Observed(r.states[j], r.ticks[j])) < Index(c.maxWidth)
    ensures r.states[j + 1].stable == 0
    ensures var t := r.ticks[j];
            if t.patchOk && t.allowTransitions && t.upgradesAllowed && TemperatureUpgradeAllowed(c, t.tempMillic) then
              && r.actions[j].Changed? && r.states[j + 1].selection == r.actions[j].to
              && Index(r.actions[j].to) == Index(Observed(r.states[j], t)) + 1
              && r.states[j + 1].widthSince == t.now && r.states[j + 1].cooldownUntil == t.now + CooldownUp(c, t.degraded)
            else r.actions[j] == Nothing && r.states[j + 1].selection == Current(r.states[j], t)
  {
    StableCountIsExact(c, r, i, j);
    RunStep(c, r, j);
    StepWidensWhenStable(c, r.states[j], r.ticks[j]);
  }

  // ---------------------------------------------------------------- a throttled stretch narrows

  /** Tick k counted as throttled. */
  predicate CountedThrottled(c: Config, s: State, t: Tick) {
    Ordinary(c, s, t) && t.throttled
  }

  function ThrottledTicks(c: Config, r: Run, i: nat, n: nat): (count: nat)
    requires i <= n <= |r.ticks| < |r.states|
    decreases n
  {
    if n == i then 0
    else ThrottledTicks(c, r, i, n - 1) + if CountedThrottled(c, r.states[n - 1], r.ticks[n - 1]) then 1 else 0
  }

  /** Nothing resets the count: no safety condition, no change of width, and every ordinary tick is
      throttled. Unmeasured ticks and closed gates do not matter. */
  predicate Pressed(c: Config, r: Run, i: nat, n: nat)
    requires i <= n <= |r.ticks| == |r.actions| < |r.states|
  {
    forall k :: i <= k < n ==>
      && !SafetyTick(c, r.ticks[k]) && !r.actions[k].Changed?
      && (Ordinary(c, r.states[k], r.ticks[k]) ==> r.ticks[k].throttled)
  }

  /** The count a tick leaves behind. */
  lemma StepThrottle(c: Config, s: State, t: Tick)
    requires !SafetyTick(c, t)
    ensures var (s', a) := Step(c, s, t);
            && (!Ordinary(c, s, t) ==> s'.throttle == s.throttle && a == Nothing)
            && (CountedThrottled(c, s, t) && !a.Changed? ==>
                  if a == DowngradeFailed then s.throttle + 1 >= DownCount(c, t.degraded) == s'.throttle
                  else s'.throttle == s.throttle + 1)
            && (Ordinary(c, s, t) && !t.throttled ==> s'.throttle == 0)
            && (a.Changed? ==> s'.throttle == 0)
  {
  }

  /** The overlay lowers the required number by at most one. */
  lemma DownCountGap(c: Config, degraded: bool)
    ensures DownCount(c, false) - 1 <= DownCount(c, degraded) <= DownCount(c, false)
  {
  }

  lemma {:induction false} ThrottleIsCounted(c: Config, r: Run, n: nat)
    requires IsRun(c, r) && n < |r.states| && r.states[0].throttle >= 0
    ensures r.states[n].throttle >= 0
  {
    if n > 0 {
      ThrottleIsCounted(c, r, n - 1);
      RunStep(c, r, n - 1);
    }
  }

  /** Through a pressed stretch the count is at least the number of throttled ticks, up to what a
      failed narrowing leaves. */
  lemma {:induction false} ThrottleGrows(c: Config, r: Run, i: nat, n: nat)
    requires IsRun(c, r) && i <= n <= |r.ticks| && Pressed(c, r, i, n) && r.states[i].throttle >= 0
    ensures r.states[n].throttle >= ThrottledTicks(c, r, i, n) || r.states[n].throttle >= DownCount(c, false) - 1
    decreases n
  {
    if i < n {
      ThrottleGrows(c, r, i, n - 1);
      RunStep(c, r, n - 1);
      StepThrottle(c, r.states[n - 1], r.ticks[n - 1]);
      DownCountGap(c, r.ticks[n - 1].degraded);
    }
  }

  /** What a tick does once the count is complete at a wide width. */
  predicate Narrows(c: Config, s: State, t: Tick, s': State, a: Action) {
    if t.patchOk then
      && a.Changed? && a.origin == Hysteresis && a.from == Observed(s, t) && s'.selection == a.to
      && Index(a.to) == (if t.allowTransitions then Index(a.from) - 1 else 0)
      && s'.throttle == 0 && s'.stable == 0
      && s'.widthSince == t.now && s'.cooldownUntil == t.now + CooldownDown(c, t.degraded)
    else
      && a == DowngradeFailed && s'.selection == Current(s, t)
      && s'.cooldownUntil == 0 && s'.widthSince == s.widthSince && s'.throttle == DownCount(c, t.degraded)
  }

  lemma StepNarrows(c: Config, s: State, t: Tick)
    requires CountedThrottled(c, s, t) && !Advised(Step(c, s, t).1)
    requires s.throttle + 1 >= DownCount(c, t.degraded) && Observed(s, t) != Sse41
    ensures Narrows(c, s, t, Step(c, s, t).0, Step(c, s, t).1)
  {
  }

  /** Main result: a stretch that nothing resets, with at least the required number of throttled ticks,
      ends one width narrower, or at SSE4.1 without permission; when the patch fails it leaves no
      cooldown and no new dwell epoch behind. */
  lemma ThrottlingNarrows(c: Config, r: Run, i: nat, j: nat)
    requires IsRun(c, r) && i <= j < |r.ticks| && r.states[0].throttle >= 0 && Pressed(c, r, i, j)
    requires CountedThrottled(c, r.states[j], r.ticks[j]) && !Advised(r.actions[j])
    requires ThrottledTicks(c, r, i, j + 1) >= DownCount(c, r.ticks[j].degraded)
    requires Observed(r.states[j], r.ticks[j]) != Sse41
    ensures Narrows(c, r.states[j], r.ticks[j], r.states[j + 1], r.actions[j])
  {
    ThrottleIsCounted(c, r, i);
    ThrottleGrows(c, r, i, j);
    DownCountGap(c, r.ticks[j].degraded);
    RunStep(c, r, j);
    StepNarrows(c, r.states[j], r.ticks[j]);
  }

  /** No sample of the stretch was ordinary. */
  predicate Waiting(c: Config, r: Run, i: nat, n: nat)
    requires i <= n <= |r.ticks| < |r.states|
  {
    forall k :: i <= k < n ==> !SafetyTick(c, r.ticks[k]) && !Ordinary(c, r.states[k], r.ticks[k])
  }

  lemma StepWaits(c: Config, s: State, t: Tick)
    requires !SafetyTick(c, t) && !Ordinary(c, s, t)
    ensures var (s', a) := Step(c, s, t);
            && a == Nothing && s'.throttle == s.throttle && s'.selection == Current(s, t)
            && s'.widthSince == s.widthSince && s'.cooldownUntil == s.cooldownUntil
  {
  }

  lemma {:induction false} WaitingKeepsCount(c: Config, r: Run, i: nat, n: nat)
    requires IsRun(c, r) && i <= n <= |r.ticks| && Waiting(c, r, i, n)
    ensures r.states[n].throttle == r.states[i].throttle && r.states[n].widthSince == r.states[i].widthSince
    ensures r.states[n].cooldownUntil == r.states[i].cooldownUntil
    decreases n
  {
    if i < n {
      WaitingKeepsCount(c, r, i, n - 1);
      RunStep(c, r, n - 1);
      StepWaits(c, r.states[n - 1], r.ticks[n - 1]);
    }
  }

  /** Main result: after a failed narrowing the next measured, throttled tick past the minimum dwell tries
      again, with no cooldown in between, whatever unmeasured ticks lie between. */
  lemma FailedNarrowingIsRetried(c: Config, r: Run, j: nat, k: nat)
    requires IsRun(c, r) && j < k < |r.ticks| && r.actions[j] == DowngradeFailed && Waiting(c, r, j + 1, k)
    requires var t := r.ticks[k];
             && t.performanceAvailable && t.throttled && !SafetyTick(c, t) && !Advised(r.actions[k])
             && t.now >= r.states[j].widthSince + MinDwell(c, t.degraded)
    requires Observed(r.states[k], r.ticks[k]) != Sse41
    ensures Narrows(c, r.states[k], r.ticks[k], r.states[k + 1], r.actions[k])
  {
    RunStep(c, r, j);
    FailedLeaves(c, r.states[j], r.ticks[j]);
    WaitingKeepsCount(c, r, j + 1, k);
    DownCountGap(c, r.ticks[j].degraded);
    DownCountGap(c, r.ticks[k].degraded);
    RunStep(c, r, k);
    StepNarrows(c, r.states[k], r.ticks[k]);
  }

  lemma FailedLeaves(c: Config, s: State, t: Tick)
    requires Step(c, s, t).1 == DowngradeFailed
    ensures var s' := Step(c, s, t).0;
            s'.throttle == DownCount(c, t.degraded) && s'.cooldownUntil == 0 && s'.widthSince == s.widthSince
  {
  }

  // ---------------------------------------------------------------- narrowing needs a throttled stretch

  /** The count comes from throttled ticks of a pressed stretch, or from a failed safety fallback that
      saturated it. */
  lemma {:induction false} ThrottleIsEarned(c: Config, r: Run, n: nat) returns (i: nat)
    requires IsRun(c, r) && n <= |r.ticks| && r.states[0].throttle == 0
    ensures i <= n && Pressed(c, r, i, n)
    ensures r.states[n].throttle <= ThrottledTicks(c, r, i, n) || (i > 0 && r.actions[i - 1] == SafetyFailed)
  {
    i := n;
    if n > 0 {
      RunStep(c, r, n - 1);
      if SafetyTick(c, r.ticks[n - 1]) {
      } else {
        StepThrottle(c, r.states[n - 1], r.ticks[n - 1]);
        if r.states[n].throttle != 0 {
          i := ThrottleIsEarned(c, r, n - 1);
        }
      }
    }
  }

  lemma StepNarrowsOnlyWhen(c: Config, s: State, t: Tick)
    requires var a := Step(c, s, t).1; a == DowngradeFailed || (a.Changed? && a.origin == Hysteresis && Index(a.to) < Index(a.from))
    ensures CountedThrottled(c, s, t) && s.throttle + 1 >= DownCount(c, t.degraded)
  {
  }

  /** Main result: hysteresis narrows, or tries to, only at the end of a stretch that nothing reset with at
      least the required number of throttled ticks, or after a failed safety fallback. */
  lemma NarrowingNeedsStreak(c: Config, r: Run, j: nat) returns (i: nat)
    requires IsRun(c, r) && j < |r.ticks| && r.states[0].throttle == 0
    requires var a := r.actions[j];
             a == DowngradeFailed || (a.Changed? && a.origin == Hysteresis && Index(a.to) < Index(a.from))
    ensures i <= j && Pressed(c, r, i, j) && CountedThrottled(c, r.states[j], r.ticks[j])
    ensures ThrottledTicks(c, r, i, j + 1) >= DownCount(c, r.ticks[j].degraded) || (i > 0 && r.actions[i - 1] == SafetyFailed)
  {
    RunStep(c, r, j);
    StepNarrowsOnlyWhen(c, r.states[j], r.ticks[j]);
    i := ThrottleIsEarned(c, r, j);
  }

  // ---------------------------------------------------------------- advice

  /** Main result: a tick changes the width on advice exactly when it is ordinary, the policy advises another
      width, the patch works and a wider one meets every widening condition; the change is then to the
      advised width, or to SSE4.1 when it narrows without permission. */
  lemma AdviceIsFollowedExactlyWhen(c: Config, r: Run, k: nat)
    requires IsRun(c, r) && k < |r.ticks|
    ensures var s, t, a := r.states[k], r.ticks[k], r.actions[k];
            && (Advised(a) <==>
                  && Ordinary(c, s, t) && t.advice.Some? && t.advice.value != Observed(s, t) && t.advicePatchOk
                  && (Index(t.advice.value) > Index(Observed(s, t)) ==> GatedWidening(c, t)))
            && (Advised(a) ==>
                  && a.from == Observed(s, t) && r.states[k + 1].selection == a.to
                  && a.to == (if t.allowTransitions then t.advice.value else Sse41)
                  && r.states[k + 1].widthSince == t.now
                  && r.states[k + 1].cooldownUntil
                     == t.now + (if Index(a.to) < Index(a.from) then CooldownDown(c, t.degraded) else CooldownUp(c, t.degraded)))
  {
    RunStep(c, r, k);
  }
}
