/** The guard state that decides whether a width above SSE4.1 is authorized. */
module WidthAuthorization {

  import opened SimdWidth

  datatype PerfMode = NoPerf | Hardware | Software

  /** Everything the authorization reads. Every field is published by a safety writer that
      holds the guard lock. Times are in milliseconds; a freshness of 0 means "never". */
  datatype Guard = Guard(
    sandboxPassed: bool,
    temperatureGate: bool,
    fusionRunning: bool,
    perfMode: PerfMode,
    countersHealthy: bool,
    perfFreshAt: nat,
    rawAvailable: bool,
    rawTempC: real,
    rawFreshAt: nat)

  datatype Limits = Limits(ceilingC: int, safetyMarginC: int, emergencyMarginC: int, maxSkewMs: int)

  const PERF_MAX_AGE_MS := 5000
  const DEFAULT_SKEW_MS := 150

  predicate LimitsValid(l: Limits) {
    && 20 <= l.ceilingC <= 125
    && 0 <= l.safetyMarginC <= 60
    && 0 <= l.emergencyMarginC <= 60
  }

  /** A perf context or a fusion worker is live. */
  predicate RuntimeLive(g: Guard) {
    g.perfMode != NoPerf || g.fusionRunning
  }

  predicate PerfHardwareFresh(g: Guard, now: nat) {
    && g.perfMode == Hardware && g.countersHealthy
    && g.perfFreshAt != 0 && g.perfFreshAt <= now
    && now - g.perfFreshAt <= PERF_MAX_AGE_MS
  }

  function SkewMs(l: Limits): nat {
    if l.maxSkewMs < 0 then DEFAULT_SKEW_MS else l.maxSkewMs
  }

  predicate RawTemperatureAllows(g: Guard, l: Limits, now: nat) {
    && g.temperatureGate && LimitsValid(l)
    && g.rawAvailable && g.rawFreshAt != 0 && g.rawFreshAt <= now
    && now - g.rawFreshAt <= SkewMs(l)
    && g.rawTempC <= (l.ceilingC - l.safetyMarginC) as real
  }

  /** Authorization of a wide width, apart from the stopping flag. */
  predicate GuardAuthorizes(g: Guard, l: Limits, now: nat) {
    && g.sandboxPassed && g.temperatureGate
    && (RuntimeLive(g) ==> PerfHardwareFresh(g, now) && RawTemperatureAllows(g, l, now))
  }

  predicate WidthAuthorized(w: Width, stopping: bool, g: Guard, l: Limits, now: nat) {
    IsWide(w) ==> !stopping && GuardAuthorizes(g, l, now)
  }

  /** A stamp taken at some time, not in the future and at most `age` ago. */
  predicate Fresh(stamp: nat, now: nat, age: nat) {
    0 < stamp <= now <= stamp + age
  }

  /** What an authorized wide width means: sandbox and temperature gate passed and, for a live runtime,
      healthy hardware counters at most five seconds old and a raw temperature at most the permitted
      skew old, at or below the ceiling less the margin, with every limit in range. */
  lemma AuthorizedExactlyWhen(g: Guard, l: Limits, now: nat)
    ensures GuardAuthorizes(g, l, now) <==>
      && g.sandboxPassed && g.temperatureGate
      && (g.perfMode != NoPerf || g.fusionRunning ==>
            && g.perfMode == Hardware && g.countersHealthy && Fresh(g.perfFreshAt, now, 5000)
            && g.rawAvailable && Fresh(g.rawFreshAt, now, if l.maxSkewMs < 0 then 150 else l.maxSkewMs)
            && g.rawTempC + l.safetyMarginC as real <= l.ceilingC as real
            && 20 <= l.ceilingC <= 125 && 0 <= l.safetyMarginC <= 60 && 0 <= l.emergencyMarginC <= 60)
  {
  }

  /** Cooling down, or refreshing either stamp, never revokes an authorization; time passing never
      grants one to a live runtime. */
  lemma AuthorizationIsMonotone(g: Guard, g': Guard, l: Limits, now: nat, later: nat)
    requires GuardAuthorizes(g, l, now)
    requires g' == g.(rawTempC := g'.rawTempC, rawFreshAt := g'.rawFreshAt, perfFreshAt := g'.perfFreshAt)
    requires g'.rawTempC <= g.rawTempC && g.rawFreshAt <= g'.rawFreshAt <= now && g.perfFreshAt <= g'.perfFreshAt <= now
    ensures GuardAuthorizes(g', l, now)
    ensures now <= later && RuntimeLive(g) && GuardAuthorizes(g, l, later) ==>
              later <= g.perfFreshAt + 5000 && later <= g.rawFreshAt + SkewMs(l)
  {
  }
}
