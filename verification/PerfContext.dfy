/** The perf context as the monitor updates it in place, with its ring of eight ratios, proved
    against the pipeline and mode functions. */
module PerfContext {

  import opened SimdWidth
  import opened Statistics
  import opened WidthAuthorization
  import opened PerfPipeline
  import opened PerfModes

  /** A ring read from its cursor holds the same values as the ring read from its start. */
  lemma RotationPermutes(s: seq<U32>, cursor: nat)
    requires cursor <= |s|
    ensures multiset(s[cursor..] + s[..cursor]) == multiset(s)
  {
    assert s == s[..cursor] + s[cursor..];
  }

  predicate RingShape(size: nat, count: nat, cursor: nat) {
    && size == RATIO_HISTORY && count <= RATIO_HISTORY && cursor < RATIO_HISTORY
    && (count < RATIO_HISTORY ==> cursor == count)
  }

  /** The ratios of a ring since its last reset, oldest first. */
  function RingWindow(values: seq<U32>, count: nat, cursor: nat): (w: seq<U32>)
    requires RingShape(|values|, count, cursor)
    ensures |w| == count
  {
    if count < RATIO_HISTORY then values[..count] else values[cursor..] + values[..cursor]
  }

  function NextCount(count: nat): (r: nat) {
    if count < RATIO_HISTORY then count + 1 else count
  }

  /** Overwriting the slot at the cursor and advancing it slides the window. */
  lemma RingSlides(values: seq<U32>, count: nat, cursor: nat, ratio: U32)
    requires RingShape(|values|, count, cursor)
    ensures RingShape(|values|, NextCount(count), (cursor + 1) % RATIO_HISTORY)
    ensures RingWindow(values[cursor := ratio], NextCount(count), (cursor + 1) % RATIO_HISTORY)
         == Slide(RingWindow(values, count, cursor), ratio)
  {
    if count < RATIO_HISTORY - 1 {
      RingFills(values, count, ratio);
    } else if cursor == RATIO_HISTORY - 1 {
      RingWraps(values, count, ratio);
    } else {
      RingTurns(values, cursor, ratio);
    }
  }

  lemma RingFills(values: seq<U32>, count: nat, ratio: U32)
    requires |values| == RATIO_HISTORY && count < RATIO_HISTORY - 1
    ensures RingWindow(values[count := ratio], count + 1, count + 1) == Slide(RingWindow(values, count, count), ratio)
  {
    assert values[count := ratio][..count + 1] == values[..count] + [ratio];
  }

  lemma RingWraps(values: seq<U32>, count: nat, ratio: U32)
    requires |values| == RATIO_HISTORY && RATIO_HISTORY - 1 <= count <= RATIO_HISTORY
    ensures RingWindow(values[RATIO_HISTORY - 1 := ratio], RATIO_HISTORY, 0)
         == Slide(RingWindow(values, count, RATIO_HISTORY - 1), ratio)
  {
    var last := RATIO_HISTORY - 1;
    var now := values[last := ratio];
    assert now[0..] + now[..0] == values[..last] + [ratio];
    assert (values[last..] + values[..last])[1..] == values[..last];
  }

  lemma RingTurns(values: seq<U32>, cursor: nat, ratio: U32)
    requires |values| == RATIO_HISTORY && cursor < RATIO_HISTORY - 1
    ensures RingWindow(values[cursor := ratio], RATIO_HISTORY, cursor + 1)
         == Slide(RingWindow(values, RATIO_HISTORY, cursor), ratio)
  {
    var now := values[cursor := ratio];
    assert now[cursor + 1..] == values[cursor..][1..];
    assert now[..cursor + 1] == values[..cursor] + [ratio];
    assert (values[cursor..] + values[..cursor])[1..] == values[cursor..][1..] + values[..cursor];
  }

  /** The trimmed mean over the filled part of the ring is that of the window. */
  lemma TrimmedOverRing(values: seq<U32>, count: nat, cursor: nat)
    requires RingShape(|values|, count, cursor)
    ensures TrimmedMean(values[..count]) == TrimmedMean(RingWindow(values, count, cursor))
  {
    if count == RATIO_HISTORY {
      assert values[..count] == values;
      RotationPermutes(values, cursor);
      TrimmedMeanOfPermutation(values, values[cursor..] + values[..cursor]);
    }
  }

  class RatioRing {
    var values: array<U32>
    var count: nat
    var cursor: nat

    ghost predicate Valid()
      reads this
    {
      RingShape(values.Length, count, cursor)
    }

    /** The ratios since the last reset, oldest first, at most eight. */
    ghost function Window(): (w: seq<U32>)
      requires Valid()
      reads this, values
      ensures |w| == count
    {
      RingWindow(values[..], count, cursor)
    }

    constructor ()
      ensures Valid() && fresh(values) && Window() == []
    {
      values := new U32[RATIO_HISTORY](_ => 0);
      count, cursor := 0, 0;
    }

    method Clear()
      requires Valid()
      modifies this`count, this`cursor, values
      ensures Valid() && Window() == []
    {
      var i := 0;
      while i < RATIO_HISTORY
        invariant 0 <= i <= RATIO_HISTORY
      {
        values[i] := 0;
        i := i + 1;
      }
      count, cursor := 0, 0;
    }

    method Rewind()
      requires Valid()
      modifies this`count, this`cursor
      ensures Valid() && Window() == []
    {
      count, cursor := 0, 0;
    }

    method Push(ratio: U32) returns (trimmed: U32)
      requires Valid()
      modifies this`count, this`cursor, values
      ensures Valid() && Window() == Slide(old(Window()), ratio)
      ensures trimmed == TrimmedMean(Window())
    {
      Store(ratio);
      trimmed := ComputeTrimmedMean(values, count);
      TrimmedOverRing(values[..], count, cursor);
      assert values[..][..count] == values[..count];
    }

    method Store(ratio: U32)
      requires Valid()
      modifies this`count, this`cursor, values
      ensures Valid() && Window() == Slide(old(Window()), ratio)
    {
      ghost var was, c, k := values[..], count, cursor;
      if count < RATIO_HISTORY {
        count := count + 1;
      }
      values[cursor] := ratio;
      cursor := (cursor + 1) % RATIO_HISTORY;
      assert values[..] == was[k := ratio] && count == NextCount(c);
      RingSlides(was, c, k, ratio);
    }
  }

  class PerfState {
    var mode: PerfMode
    var validated: bool
    var softwareAdaptation: bool
    var llcOpen: bool
    const ownWorkload: bool
    var refs: References
    var avg: Averages
    const ring: RatioRing
    var trimmed: U32
    var lastGroup: Option<Group>
    var lastLlc: U64
    var zeroRunning: nat
    var swLastIterations: U64
    var swLastNs: U64
    var hwLastIterations: U64
    var stay: Stay

    ghost predicate Valid()
      reads this, ring
    {
      ring.Valid()
    }

    ghost function Pipe(): (p: Pipeline)
      requires Valid()
      reads this, ring, ring.values
      ensures |p.window| <= RATIO_HISTORY
    {
      Pipeline(refs, avg, ring.Window(), trimmed)
    }

    ghost function View(): (c: Context)
      requires Valid()
      reads this, ring, ring.values
      ensures WellFormed(c)
    {
      Context(mode, validated, softwareAdaptation, llcOpen, ownWorkload, Pipe(), lastGroup, lastLlc,
        zeroRunning, swLastIterations, swLastNs, hwLastIterations, stay)
    }

    constructor (ownWorkload: bool, nowNs: U64)
      ensures Valid() && fresh(ring) && fresh(ring.values)
      ensures View() == Context(NoPerf, false, false, false, ownWorkload,
                Pipeline(References(0, 0, 0, 0, 0), NO_AVERAGES, [], 0), None, 0, 0, 0, 0, 0, Stay(false, nowNs, false))
    {
      mode, validated, softwareAdaptation, llcOpen := NoPerf, false, false, false;
      this.ownWorkload := ownWorkload;
      refs, avg, trimmed := References(0, 0, 0, 0, 0), NO_AVERAGES, 0;
      ring := new RatioRing();
      lastGroup, lastLlc, zeroRunning := None, 0, 0;
      swLastIterations, swLastNs, hwLastIterations := 0, 0, 0;
      stay := Stay(false, nowNs, false);
    }

    method ResetMeasurementDomain()
      requires Valid()
      modifies this`avg, this`trimmed, ring`count, ring`cursor, ring.values
      ensures Valid() && View() == old(View()).(pipe := ResetDomain(old(Pipe())))
    {
      avg := NO_AVERAGES;
      ring.Clear();
      trimmed := 0;
    }

    method ChangeMode(newMode: PerfMode, nowNs: U64)
      requires Valid()
      modifies this, ring, ring.values
      ensures Valid() && ring.values == old(ring.values) && View() == SetMode(old(View()), newMode, nowNs)
    {
      if mode == newMode {
        return;
      }
      ResetMeasurementDomain();
      mode := newMode;
      stay := stay.(enteredNs := nowNs, timeoutNotified := false);
      match newMode
      case Software =>
        refs := refs.(calibratedCpi := 0, calibratedWork := 0);
        validated := false;
        stay := stay.(degraded := true);
      case Hardware =>
        stay := stay.(degraded := false);
      case NoPerf =>
        validated := false;
    }

    method CloseAndFallBack(nowNs: U64)
      requires Valid()
      modifies this, ring, ring.values
      ensures Valid() && ring.values == old(ring.values) && View() == FailClosed(old(View()), nowNs)
    {
      llcOpen, lastGroup, lastLlc, zeroRunning := false, None, 0, 0;
      validated := false;
      softwareAdaptation := false;
      assert View() == CloseEvents(old(View())).(validated := false, softwareAdaptation := false);
      ChangeMode(Software, nowNs);
    }

    /** Averages, references and ring are updated first; the verdict reads the updated state. */
    method ProcessMeasurement(s: Sample) returns (out: Outcome)
      requires Valid()
      modifies this`refs, this`avg, this`trimmed, ring`count, ring`cursor, ring.values
      ensures Valid()
      ensures View() == Process(old(View()), s).0
      ensures out == Process(old(View()), s).1
    {
      UpdatePipeline(s);
      var eval := Report(refs, avg, trimmed, s);
      out := Outcome(eval.severity > 0, eval);
    }

    method UpdatePipeline(s: Sample)
      requires Valid()
      modifies this`refs, this`avg, this`trimmed, ring`count, ring`cursor, ring.values
      ensures Valid() && Pipe() == Measure(old(Pipe()), s)
    {
      UpdateReferencesAndAverages(s);
      trimmed := ring.Push(Saturate32(RatioMilli(refs, avg, s)));
    }

    method UpdateReferencesAndAverages(s: Sample)
      requires Valid()
      modifies this`refs, this`avg
      ensures refs == Calibrate(old(refs), s) && avg == UpdateAverages(old(Pipe()), s)
    {
      if refs.calibratedCpi == 0 && s.cpi > 0 {
        refs := refs.(calibratedCpi := s.cpi);
      }
      avg := avg.(fastCpi := UpdateEwma(avg.fastCpi, s.cpi, FAST_EWMA_SHIFT));
      avg := avg.(slowCpi := UpdateEwma(avg.slowCpi, s.cpi, SLOW_EWMA_SHIFT));
      if avg.slowCpi == 0 {
        avg := avg.(slowCpi := if s.cpi != 0 then s.cpi
                               else if refs.baselineCpi != 0 then refs.baselineCpi else 1000);
      }
      avg := avg.(fastMpki := UpdateEwma(avg.fastMpki, s.mpki, FAST_EWMA_SHIFT));
      avg := avg.(slowMpki := UpdateEwma(avg.slowMpki, s.mpki, SLOW_EWMA_SHIFT));
      if s.work > 0 && refs.calibratedWork == 0 {
        refs := refs.(calibratedWork := s.work, baselineWork := s.work);
      }
    }

    method AdoptBaseline(b: Baseline, open: bool, nowNs: U64)
      requires Valid() && b.pipe.window == []
      modifies this, ring, ring.values
      ensures Valid() && ring.values == old(ring.values) && View() == Adopt(old(View()), b, open, nowNs)
    {
      LoadBaseline(b, open);
      ChangeMode(Hardware, nowNs);
    }

    method LoadBaseline(b: Baseline, open: bool)
      requires Valid() && b.pipe.window == []
      modifies this, ring`count, ring`cursor
      ensures Valid() && View() == Load(old(View()), b, open)
    {
      LoadPipeline(b.pipe);
      validated, softwareAdaptation, llcOpen := true, false, open;
      hwLastIterations, lastGroup, lastLlc, zeroRunning := b.iterations, Some(b.group), b.llc, 0;
    }

    method LoadPipeline(p: Pipeline)
      requires Valid() && p.window == []
      modifies this`refs, this`avg, this`trimmed, ring`count, ring`cursor
      ensures Valid() && Pipe() == p
    {
      refs, avg, trimmed := p.refs, p.avg, p.trimmed;
      ring.Rewind();
    }

    method TryRecoverHardware(t: Tick)
      requires Valid()
      modifies this, ring, ring.values
      ensures Valid() && ring.values == old(ring.values) && View() == TryRecover(old(View()), t)
    {
      if t.reprobe == NotDue {
        return;
      }
      if t.reprobe == OpenFailed {
        llcOpen, lastGroup, lastLlc, zeroRunning := false, None, 0, 0;
        return;
      }
      var baseline := if t.reprobe.Observed? then HardwareBaseline(t.reprobe.observation, t.cfg) else None;
      if baseline.None? {
        llcOpen, lastGroup, lastLlc, zeroRunning := false, None, 0, 0;
        validated := false;
        return;
      }
      AdoptBaseline(baseline.value, t.reprobe.observation.llcOpen, t.nowNs);
    }

    method EvaluateSoftwareMode(t: Tick) returns (out: Outcome)
      requires Valid() && mode == Software
      modifies this, ring, ring.values
      ensures Valid() && ring.values == old(ring.values)
      ensures View() == EvaluateSoftware(old(View()), t).0 && out == EvaluateSoftware(old(View()), t).1
    {
      TryRecoverHardware(t);
      if mode == Hardware {
        return QUIET;
      }
      var items := Advance(t.iterations, swLastIterations);
      var deltaNs := Advance(t.nowNs, swLastNs);
      swLastIterations, swLastNs := t.iterations, t.nowNs;
      if !softwareAdaptation {
        softwareAdaptation := true;
        return QUIET;
      }
      if items == 0 || deltaNs == 0 {
        return QUIET;
      }
      out := ProcessMeasurement(
        Sample(SoftwareCost(deltaNs, items), 0, 0, llcOpen, Overlaid(t.cfg, stay.degraded), Some(t.telemetry)));
      out := out.(eval := out.eval.(performanceAvailable := false));
    }

    method HandleNoRunningProgress(nowNs: U64) returns (out: Outcome)
      requires Valid()
      modifies this, ring, ring.values
      ensures Valid() && ring.values == old(ring.values)
      ensures View() == NoRunningProgress(old(View()), nowNs).0 && out == NoRunningProgress(old(View()), nowNs).1
    {
      zeroRunning := zeroRunning + 1;
      if zeroRunning < ZERO_RUNNING_LIMIT {
        return QUIET;
      }
      CloseAndFallBack(nowNs);
      return FAIL_CLOSED;
    }

    method EvaluateCounterDeltas(t: Tick, last: Group, now: Group, llcNow: U64) returns (out: Outcome)
      requires Valid() && GroupOrderValid(last, now)
      modifies this, ring, ring.values
      ensures Valid() && ring.values == old(ring.values)
      ensures View() == EvaluateDeltas(old(View()), t, last, now, llcNow).0
      ensures out == EvaluateDeltas(old(View()), t, last, now, llcNow).1
    {
      var items := Advance(t.iterations, hwLastIterations);
      var misses := if llcOpen then Advance(llcNow, lastLlc) else 0;
      match Classify(last, now, items, misses, ownWorkload, llcOpen, Overlaid(t.cfg, stay.degraded), t.telemetry)
      case Stalled =>
        out := HandleNoRunningProgress(t.nowNs);
      case Idle =>
        Move(now, llcNow, hwLastIterations);
        out := QUIET;
      case Unscaled =>
        zeroRunning := 0;
        out := HandleNoRunningProgress(t.nowNs);
      case Unrelated =>
        Move(now, llcNow, t.iterations);
        out := Outcome(false, NO_EVAL.(telemetry := Some(t.telemetry)));
      case Measured(sample) =>
        Move(now, llcNow, t.iterations);
        out := ProcessMeasurement(sample);
    }

    method Move(now: Group, llcNow: U64, iterations: U64)
      requires Valid()
      modifies this`zeroRunning, this`lastGroup, this`lastLlc, this`hwLastIterations
      ensures Valid() && View() == MoveCounters(old(View()), now, llcNow, iterations)
    {
      zeroRunning, lastGroup, lastLlc, hwLastIterations := 0, Some(now), llcNow, iterations;
    }

    method TryRecoverLlc(t: Tick)
      requires Valid()
      modifies this`llcOpen, this`lastLlc
      ensures View() == RecoverLlc(old(View()), t)
    {
      if !llcOpen && t.llcReopened.Some? {
        llcOpen, lastLlc := true, t.llcReopened.value;
      }
    }

    method EvaluateHardwareMode(t: Tick) returns (out: Outcome)
      requires Valid() && mode == Hardware && validated
      modifies this, ring, ring.values
      ensures Valid() && ring.values == old(ring.values)
      ensures View() == EvaluateHardware(old(View()), t).0 && out == EvaluateHardware(old(View()), t).1
    {
      TryRecoverLlc(t);
      if t.group.None? || t.group.value.nr != 2 {
        CloseAndFallBack(t.nowNs);
        return FAIL_CLOSED;
      }
      var now := t.group.value;
      var llcNow := if llcOpen && t.llc.Some? then t.llc.value else 0;
      if llcOpen && t.llc.None? {
        llcOpen := false;
      }
      if lastGroup.None? {
        lastGroup, lastLlc := Some(now), llcNow;
        return QUIET;
      }
      if !GroupOrderValid(lastGroup.value, now) {
        CloseAndFallBack(t.nowNs);
        return FAIL_CLOSED;
      }
      out := EvaluateCounterDeltas(t, lastGroup.value, now, llcNow);
    }

    /** The software timeout is reported once and remembered until the mode changes. */
    method CheckSoftwareTimeout(nowNs: U64, timeoutSec: I32) returns (reported: bool)
      requires Valid()
      modifies this`stay
      ensures Valid() && View() == CheckTimeout(old(View()), nowNs, timeoutSec).0
      ensures reported == CheckTimeout(old(View()), nowNs, timeoutSec).1
    {
      if timeoutSec <= 0 || stay.timeoutNotified {
        return false;
      }
      if mode != Software || Advance(nowNs, stay.enteredNs) < timeoutSec * 1000000000 {
        return false;
      }
      stay := stay.(timeoutNotified := true);
      return true;
    }

    /** One evaluation of the perf context. */
    method EvaluateTick(t: Tick) returns (out: Outcome)
      requires Valid()
      modifies this, ring, ring.values
      ensures Valid() && ring.values == old(ring.values)
      ensures View() == Evaluate(old(View()), t).0 && out == Evaluate(old(View()), t).1
    {
      if mode == Software {
        out := EvaluateSoftwareMode(t);
      } else if mode == Hardware && validated {
        out := EvaluateHardwareMode(t);
      } else {
        out := FAIL_CLOSED;
      }
    }
  }
}
