/** The monitor loop: hysteresis, dwell, cooldown, emergency fallback and widening gates over
    unbounded traces of ticks. A tick carries what one iteration reads (clock, evaluation, the
    policy's advice), what other threads do to the selection meanwhile, and how each patch it may
    attempt turns out. */
module MonitorLoop {

  import opened SimdWidth

  /** The base configuration of a generation; the degraded overlay is read per tick. */
  datatype Config = Config(
    downCount: int, upCount: int, cooldownDownMs: int, cooldownUpMs: int, minDwellMs: int,
    ceilingC: int, safetyMarginC: int, emergencyMarginC: int, maxWidth: Width)

  /** Other threads, and the mode change inside the evaluation, only ever commit SSE4.1: before the
      loop reads the selection, or between that read and its own patch. */
  datatype Tick = Tick(
    now: nat, degraded: bool, softwareTimeout: bool,
    performanceAvailable: bool, throttled: bool, tempMillic: Option<int>,
    narrowedBeforeRead: bool, narrowedBeforePatch: bool,
    advice: Option<Width>,
    allowTransitions: bool, upgradesAllowed: bool,
    safetyPatchOk: bool, advicePatchOk: bool, patchOk: bool)

  /** The loop's local variables and the committed selection. */
  datatype State = State(throttle: int, stable: int, widthSince: nat, cooldownUntil: nat, selection: Width)

  datatype Source = Advice | Hysteresis

  datatype Action =
    | Nothing
    | Changed(from: Width, to: Width, origin: Source)
    | DowngradeFailed
    | SafetySelected
    | SafetyFailed

  const INT_MAX: int := 0x7FFF_FFFF

  // ---------------------------------------------------------------- effective configuration

  function NonNegative(x: int): (r: nat) {
    if x > 0 then x else 0
  }

  function Larger(x: int, y: int): (r: int) {
    if x > y then x else y
  }

  function Smaller(x: int, y: int): (r: int) {
    if x < y then x else y
  }

  function SaturatedDouble(x: int): (r: int) {
    if x <= 0 then x else if x > INT_MAX / 2 then INT_MAX else x * 2
  }

  function DownCount(c: Config, degraded: bool): (r: int)
    ensures r >= 1
  {
    var v := if degraded && c.downCount > 1 then c.downCount - 1 else c.downCount;
    if v > 0 then v else 1
  }

  function UpCount(c: Config, degraded: bool): (r: int)
    ensures r >= 1
  {
    var v := if !degraded || c.upCount >= 10 then c.upCount
             else if c.upCount + 2 > 10 then 10 else c.upCount + 2;
    if v > 0 then v else 1
  }

  function CooldownDown(c: Config, degraded: bool): (r: nat) {
    NonNegative(if !degraded then c.cooldownDownMs
                else if c.cooldownDownMs < 2000 then 2000 else SaturatedDouble(c.cooldownDownMs))
  }

  function CooldownUp(c: Config, degraded: bool): (r: nat) {
    NonNegative(if !degraded then c.cooldownUpMs
                else if c.cooldownUpMs < 4000 then 4000 else SaturatedDouble(c.cooldownUpMs))
  }

  function MinDwell(c: Config, degraded: bool): (r: nat) {
    NonNegative(if degraded && c.minDwellMs < 500 then 500 else c.minDwellMs)
  }

  /** The degraded overlay only makes the policy more cautious: quicker to narrow, slower to widen,
      longer cooldowns and dwell; and by exactly how much. */
  lemma DegradedOverlayIsStricter(c: Config)
    ensures DownCount(c, true) <= DownCount(c, false) && UpCount(c, true) >= UpCount(c, false)
    ensures c.cooldownDownMs <= INT_MAX ==> CooldownDown(c, true) >= CooldownDown(c, false) && CooldownDown(c, true) >= 2000
    ensures c.cooldownUpMs <= INT_MAX ==> CooldownUp(c, true) >= CooldownUp(c, false) && CooldownUp(c, true) >= 4000
    ensures MinDwell(c, true) >= MinDwell(c, false) && MinDwell(c, true) >= 500
    ensures DownCount(c, true) == Larger(1, DownCount(c, false) - 1)
    ensures UpCount(c, true) == Larger(UpCount(c, false), Smaller(10, c.upCount + 2))
    ensures CooldownDown(c, true) == if c.cooldownDownMs < 2000 then 2000 else Smaller(INT_MAX, 2 * c.cooldownDownMs)
    ensures CooldownUp(c, true) == if c.cooldownUpMs < 4000 then 4000 else Smaller(INT_MAX, 2 * c.cooldownUpMs)
    ensures MinDwell(c, true) == Larger(500, MinDwell(c, false))
    ensures DownCount(c, false) == Larger(1, c.downCount) && UpCount(c, false) == Larger(1, c.upCount)
    ensures CooldownDown(c, false) == Larger(0, c.cooldownDownMs) && CooldownUp(c, false) == Larger(0, c.cooldownUpMs)
    ensures MinDwell(c, false) == Larger(0, c.minDwellMs)
  {
  }

  // ---------------------------------------------------------------- temperature

  predicate CeilingValid(c: Config) {
    20 <= c.ceilingC <= 125
  }

  predicate TemperatureUpgradeAllowed(c: Config, temp: Option<int>) {
    && temp.Some? && CeilingValid(c) && 0 <= c.safetyMarginC <= 60
    && temp.value <= (c.ceilingC - c.safetyMarginC) * 1000
  }

  predicate EmergencyExceeded(c: Config, temp: Option<int>) {
    && temp.Some?
    && (!CeilingValid(c) || !(0 <= c.emergencyMarginC <= 60)
        || temp.value >= (c.ceilingC + c.emergencyMarginC) * 1000)
  }

  // ---------------------------------------------------------------- one iteration

  function Dwell(s: State, t: Tick): (r: nat) {
    if t.now >= s.widthSince then t.now - s.widthSince else 0
  }

  predicate SafetyTick(c: Config, t: Tick) {
    t.softwareTimeout || EmergencyExceeded(c, t.tempMillic)
  }

  predicate GatesOpen(c: Config, s: State, t: Tick) {
    t.now >= s.cooldownUntil && Dwell(s, t) >= MinDwell(c, t.degraded)
  }

  predicate MayWiden(c: Config, t: Tick) {
    t.allowTransitions && t.upgradesAllowed && TemperatureUpgradeAllowed(c, t.tempMillic)
  }

  /** The selection the loop reads, and the one in force when it patches. */
  function Observed(s: State, t: Tick): (w: Width) {
    if t.narrowedBeforeRead then Sse41 else s.selection
  }

  function Current(s: State, t: Tick): (w: Width) {
    if t.narrowedBeforePatch then Sse41 else Observed(s, t)
  }

  /** The policy's advice after the gates: widening may be dropped, any other target becomes
      SSE4.1 while transitions are not allowed. */
  function GatedAdvice(c: Config, t: Tick, observed: Width): (r: Width) {
    if t.advice.None? || t.advice.value == observed then observed
    else if Index(t.advice.value) > Index(observed) && !MayWiden(c, t) then observed
    else if !t.allowTransitions then Sse41
    else t.advice.value
  }

  function Cooldown(c: Config, t: Tick, from: Width, to: Width): (r: nat) {
    if Index(to) < Index(from) then CooldownDown(c, t.degraded) else CooldownUp(c, t.degraded)
  }

  function Narrower(w: Width): (r: Width)
    requires w != Sse41
  {
    if w == Avx512 then Avx2 else Sse41
  }

  function Wider(w: Width): (r: Width)
    requires w != Avx512
  {
    if w == Sse41 then Avx2 else Avx512
  }

  function SafetyStep(c: Config, s: State, t: Tick): (r: (State, Action)) {
    if Current(s, t) == Sse41 || t.safetyPatchOk
    then (State(0, 0, t.now, t.now + CooldownDown(c, t.degraded), Sse41), SafetySelected)
    else (State(DownCount(c, t.degraded), 0, s.widthSince, 0, Current(s, t)), SafetyFailed)
  }

  function DownStep(c: Config, s: State, t: Tick): (r: (State, Action)) {
    var counted := s.(throttle := s.throttle + 1, stable := 0, selection := Current(s, t));
    var observed := Observed(s, t);
    if counted.throttle < DownCount(c, t.degraded) || observed == Sse41 then (counted, Nothing)
    else
      var target := if t.allowTransitions then Narrower(observed) else Sse41;
      if t.patchOk
      then (State(0, 0, t.now, t.now + CooldownDown(c, t.degraded), target), Changed(observed, target, Hysteresis))
      else (counted.(throttle := DownCount(c, t.degraded), cooldownUntil := 0), DowngradeFailed)
  }

  function UpStep(c: Config, s: State, t: Tick): (r: (State, Action)) {
    var counted := s.(throttle := 0, stable := s.stable + 1, selection := Current(s, t));
    var observed := Observed(s, t);
    if counted.stable < UpCount(c, t.degraded) || Index(observed) >= Index(c.maxWidth) then (counted, Nothing)
    else if !MayWiden(c, t) || !t.patchOk then (counted.(stable := 0), Nothing)
    else (State(0, 0, t.now, t.now + CooldownUp(c, t.degraded), Wider(observed)),
          Changed(observed, Wider(observed), Hysteresis))
  }

  function Step(c: Config, s: State, t: Tick): (r: (State, Action)) {
    if SafetyTick(c, t) then SafetyStep(c, s, t)
    else if !t.performanceAvailable then (s.(stable := 0, selection := Current(s, t)), Nothing)
    else if !GatesOpen(c, s, t) then (s.(selection := Current(s, t)), Nothing)
    else
      var observed := Observed(s, t);
      var target := GatedAdvice(c, t, observed);
      if target != observed && t.advicePatchOk
      then (State(0, 0, t.now, t.now + Cooldown(c, t, observed, target), target), Changed(observed, target, Advice))
      else if t.throttled then DownStep(c, s, t)
      else UpStep(c, s, t)
  }

  // ---------------------------------------------------------------- runs

  /** A run: states[i] before tick i, actions[i] taken at it. */
  datatype Run = Run(ticks: seq<Tick>, states: seq<State>, actions: seq<Action>)

  predicate IsRun(c: Config, r: Run) {
    && |r.states| == |r.ticks| + 1 && |r.actions| == |r.ticks|
    && forall i :: 0 <= i < |r.ticks| ==> Step(c, r.states[i], r.ticks[i]) == (r.states[i + 1], r.actions[i])
  }

  /** The loop itself, over its local variables and the shared selection: the actions it takes are
      those of the run from its initial state. */
  method Monitor(c: Config, start: nat, selected: Width, ticks: seq<Tick>)
      returns (log: seq<Action>, final: Width, ghost states: seq<State>)
    ensures IsRun(c, Run(ticks, states, log)) && states[0] == State(0, 0, start, 0, selected)
    ensures final == states[|ticks|].selection
  {
    var throttleCount, stableCount := 0, 0;
    var widthSince: nat, cooldownUntil: nat := start, 0;
    var selection := selected;
    log, states := [], [State(0, 0, start, 0, selected)];
    for n := 0 to |ticks|
      invariant |states| == n + 1 && |log| == n && states[0] == State(0, 0, start, 0, selected)
      invariant states[n] == State(throttleCount, stableCount, widthSince, cooldownUntil, selection)
      invariant forall i :: 0 <= i < n ==> Step(c, states[i], ticks[i]) == (states[i + 1], log[i])
    {
      var t := ticks[n];
      var action;
      throttleCount, stableCount, widthSince, cooldownUntil, selection, action :=
        Iterate(c, t, throttleCount, stableCount, widthSince, cooldownUntil, selection);
      log := log + [action];
      states := states + [State(throttleCount, stableCount, widthSince, cooldownUntil, selection)];
    }
    final := selection;
  }

  /** One pass through the loop body. */
  method Iterate(c: Config, t: Tick, throttle: int, stable: int, since: nat, until: nat, selected: Width)
      returns (throttleCount: int, stableCount: int, widthSince: nat, cooldownUntil: nat, selection: Width,
               action: Action)
    ensures (State(throttleCount, stableCount, widthSince, cooldownUntil, selection), action)
         == Step(c, State(throttle, stable, since, until, selected), t)
  {
    throttleCount, stableCount, widthSince, cooldownUntil, selection := throttle, stable, since, until, selected;
    action := Nothing;
    var dwell := if t.now >= widthSince then t.now - widthSince else 0;
    if t.narrowedBeforeRead {
      selection := Sse41;
    }
    var width := selection;
    if t.narrowedBeforePatch {
      selection := Sse41;
    }
    if t.softwareTimeout || EmergencyExceeded(c, t.tempMillic) {
      if selection == Sse41 || t.safetyPatchOk {
        selection := Sse41;
        throttleCount, stableCount := 0, 0;
        widthSince, cooldownUntil := t.now, t.now + CooldownDown(c, t.degraded);
        action := SafetySelected;
      } else {
        throttleCount, stableCount, cooldownUntil := DownCount(c, t.degraded), 0, 0;
        action := SafetyFailed;
      }
      return;
    }
    if !t.performanceAvailable {
      stableCount := 0;
      return;
    }
    if t.now < cooldownUntil || dwell < MinDwell(c, t.degraded) {
      return;
    }
    var target := GatedAdvice(c, t, width);
    if target != width && t.advicePatchOk {
      selection := target;
      throttleCount, stableCount := 0, 0;
      widthSince, cooldownUntil := t.now, t.now + Cooldown(c, t, width, target);
      action := Changed(width, target, Advice);
      return;
    }
    if t.throttled {
      throttleCount, stableCount := throttleCount + 1, 0;
      if throttleCount >= DownCount(c, t.degraded) && width != Sse41 {
        if t.patchOk {
          selection := if t.allowTransitions then Narrower(width) else Sse41;
          throttleCount := 0;
          widthSince, cooldownUntil := t.now, t.now + CooldownDown(c, t.degraded);
          action := Changed(width, selection, Hysteresis);
        } else {
          throttleCount, cooldownUntil := DownCount(c, t.degraded), 0;
          action := DowngradeFailed;
        }
      }
    } else {
      stableCount, throttleCount := stableCount + 1, 0;
      if stableCount >= UpCount(c, t.degraded) && Index(width) < Index(c.maxWidth) {
        stableCount := 0;
        if MayWiden(c, t) && t.patchOk {
          selection := Wider(width);
          widthSince, cooldownUntil := t.now, t.now + CooldownUp(c, t.degraded);
          action := Changed(width, selection, Hysteresis);
        }
      }
    }
  }
}
