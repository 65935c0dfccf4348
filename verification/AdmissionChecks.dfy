/** What a thread went through on its way into a wide kernel and out of a drain: every check of an
    entry, the ownership it needs, one frame for every dispatcher call, and memory cells that hold
    what was last written to them. */
module AdmissionChecks {

  import opened SimdWidth
  import opened WidthAuthorization
  import opened AdmissionProtocol
  import opened AdmissionSafety

  // ---------------------------------------------------------------- every check of an entry

  /** There is no owner, or it is thread t. */
  predicate MayOwn(m: Memory, t: nat) {
    m.owner == 0 || m.owner == t + 1
  }

  /** The read that brings thread t to a check stage, and what it found. */
  predicate LeadsTo(m: Memory, t: nat, before: Pc, x: ExecuteOp, stage: CheckStage, w: Width) {
    match stage
    case FirstOwner => before == Ready && x == Begin(w) && IsWide(w)
    case FirstAdmission => before == Checking(FirstOwner, w) && x == ReadFirstOwner && MayOwn(m, t)
    case FirstAuthorization => before == Checking(FirstAdmission, w) && x == ReadFirstAdmission && m.admission
    case Incrementing => before == Checking(FirstAuthorization, w) && x == AuthorizeFirst(true)
    case SecondAdmission => before == Checking(Incrementing, w) && x == Increment
    case SecondOwner => before == Checking(SecondAdmission, w) && x == ReadSecondAdmission && m.admission
    case SecondAuthorization => before == Checking(SecondOwner, w) && x == ReadSecondOwner && MayOwn(m, t)
  }

  /** Step p of the run is that read. */
  predicate Reads(r: Run, p: nat, t: nat, stage: CheckStage, w: Width) {
    && p < |r.events| && p < |r.states| && t < |r.states[p].threads|
    && r.events[p].ByThread? && r.events[p].t == t && r.events[p].op.Execute?
    && LeadsTo(r.states[p].m, t, r.states[p].threads[t].pc, r.events[p].op.x, stage, w)
  }

  lemma CheckComesFrom(s: State, e: Event, t: nat)
    requires Enabled(s, e) && t < |Step(s, e).threads| && Step(s, e).threads[t].pc.Checking?
    ensures t < |s.threads|
    ensures var pc, pc' := s.threads[t].pc, Step(s, e).threads[t].pc;
            || pc == pc'
            || (e.ByThread? && e.t == t && e.op.Execute? && LeadsTo(s.m, t, pc, e.op.x, pc'.check, pc'.w))
  {
  }

  /** The read that brought a thread to its check stage; it has been there since. */
  lemma {:induction false} ReadOf(r: Run, k: nat, t: nat, stage: CheckStage, w: Width) returns (p: nat)
    requires IsRun(r) && k < |r.states| && t < |r.states[k].threads| && r.states[k].threads[t].pc == Checking(stage, w)
    ensures p < k && Reads(r, p, t, stage, w)
    ensures forall l :: p < l <= k ==> t < |r.states[l].threads| && r.states[l].threads[t].pc == Checking(stage, w)
  {
    CheckComesFrom(r.states[k - 1], r.events[k - 1], t);
    if r.states[k - 1].threads[t].pc == Checking(stage, w) {
      p := ReadOf(r, k - 1, t, stage, w);
    } else {
      p := k - 1;
    }
  }

  /** Main result: a wide entry of thread t has, in this order and with nothing of its own in between,
      incremented the counter, read open admission and passed the owner check; the frame it gets is of
      the width of its call. */
  lemma WideEntryPassedSecondChecks(r: Run, k: nat, t: nat) returns (w: Width, p: nat, q: nat, o: nat)
    requires IsRun(r) && k < |r.events| && r.events[k] == ByThread(t, Execute(AuthorizeSecond(true)))
    ensures p < q < o < k && Reads(r, p, t, SecondAdmission, w)
    ensures Reads(r, q, t, SecondOwner, w) && Reads(r, o, t, SecondAuthorization, w)
    ensures t < |r.states[k].threads| == |r.states[k + 1].threads|
    ensures r.states[k + 1].threads[t].frames == r.states[k].threads[t].frames + [w]
  {
    w := r.states[k].threads[t].pc.w;
    EntryPushes(r.states[k], t);
    o := ReadBefore(r, k, t, SecondAuthorization, w);
    q := ReadBefore(r, o, t, SecondOwner, w);
    p := ReadBefore(r, q, t, SecondAdmission, w);
  }

  lemma ReadBefore(r: Run, k: nat, t: nat, stage: CheckStage, w: Width) returns (p: nat)
    requires IsRun(r) && k < |r.states| && t < |r.states[k].threads| && r.states[k].threads[t].pc == Checking(stage, w)
    ensures p < k && Reads(r, p, t, stage, w)
  {
    p := ReadOf(r, k, t, stage, w);
  }

  lemma EntryPushes(s: State, t: nat)
    requires t < |s.threads| && AtCheck(s.threads[t].pc, SecondAuthorization)
    ensures var s' := Step(s, ByThread(t, Execute(AuthorizeSecond(true))));
            |s'.threads| == |s.threads| && s'.threads[t].frames == s.threads[t].frames + [s.threads[t].pc.w]
  {
  }

  /** Main result: and before that increment it began a wide call of that width, passed the owner check, read
      open admission and was authorized. */
  lemma IncrementPassedFirstChecks(r: Run, p: nat, t: nat, w: Width) returns (b: nat, o: nat, q: nat, a: nat)
    requires IsRun(r) && Reads(r, p, t, SecondAdmission, w)
    ensures b < o < q < a < p
    ensures Reads(r, b, t, FirstOwner, w) && Reads(r, o, t, FirstAdmission, w)
    ensures Reads(r, q, t, FirstAuthorization, w) && Reads(r, a, t, Incrementing, w)
  {
    a := ReadBefore(r, p, t, Incrementing, w);
    q := ReadBefore(r, a, t, FirstAuthorization, w);
    o := ReadBefore(r, q, t, FirstAdmission, w);
    b := ReadBefore(r, o, t, FirstOwner, w);
  }

  /** Main result: every wide entry goes back to a moment at which the sandbox and the temperature gate
      were passed and, with a live runtime, the raw temperature was fresh and at or below the ceiling
      less the margin, and healthy hardware counters were at most five seconds old. */
  lemma WideEntryWasCool(r: Run, k: nat, t: nat) returns (i: nat)
    requires IsRun(r) && k < |r.events| && r.events[k] == ByThread(t, Execute(AuthorizeSecond(true)))
    ensures i < k
    ensures var m := r.states[i].m; var g := m.guard;
            && !m.stopping && g.sandboxPassed && g.temperatureGate
            && (g.perfMode != NoPerf || g.fusionRunning ==>
                  && g.perfMode == Hardware && g.countersHealthy && Fresh(g.perfFreshAt, m.now, 5000)
                  && g.rawAvailable && g.rawTempC + m.limits.safetyMarginC as real <= m.limits.ceilingC as real
                  && Fresh(g.rawFreshAt, m.now, if m.limits.maxSkewMs < 0 then 150 else m.limits.maxSkewMs))
  {
    var j, p, w;
    i, j, p, w := WideEntryWasAuthorized(r, k, t);
    AuthorizedExactlyWhen(r.states[i].m.guard, r.states[i].m.limits, r.states[i].m.now);
  }

  // ---------------------------------------------------------------- ownership

  /** Not past the second owner check. */
  predicate BeforeOwnerCheck(th: Thread) {
    !AtCheck(th.pc, SecondAuthorization)
  }

  lemma ExecuteByStranger(m: Memory, t: nat, th: Thread, x: ExecuteOp)
    requires CanExecute(th.pc, x) && BeforeOwnerCheck(th) && !MayOwn(m, t)
    ensures var th' := ExecuteStep(m, t, th, x).1;
            BeforeOwnerCheck(th') && WideCount(th'.frames) <= WideCount(th.frames)
  {
    WideCountPush(th.frames, Sse41);
  }

  lemma ReleaseAddsNoWideFrame(m: Memory, t: nat, th: Thread, r: ReleaseOp)
    requires CanRelease(m, th, r)
    ensures var th' := ReleaseStep(m, t, th, r).1;
            BeforeOwnerCheck(th') && WideCount(th'.frames) <= WideCount(th.frames)
  {
    WideCountPush(th.frames, Sse41);
  }

  lemma LocalByStranger(m: Memory, t: nat, th: Thread, op: Op)
    requires Can(m, th, op) && BeforeOwnerCheck(th) && !MayOwn(m, t)
    ensures var th' := Local(m, t, th, op).1;
            BeforeOwnerCheck(th') && WideCount(th'.frames) <= WideCount(th.frames)
  {
    match op
    case Execute(x) => ExecuteByStranger(m, t, th, x);
    case Release(r) => ReleaseAddsNoWideFrame(m, t, th, r);
    case Write(_) =>
    case Drain(_) =>
  }

  lemma StepByStranger(s: State, e: Event, t: nat)
    requires Enabled(s, e) && t < |s.threads| && BeforeOwnerCheck(s.threads[t]) && !MayOwn(s.m, t)
    ensures t < |Step(s, e).threads|
    ensures var th' := Step(s, e).threads[t];
            BeforeOwnerCheck(th') && WideCount(th'.frames) <= WideCount(s.threads[t].frames)
  {
    if e.ByThread? && e.t == t {
      LocalByStranger(s.m, t, s.threads[t], e.op);
    }
  }

  /** Main result: while another thread is the owner, a thread that has not already passed the second owner
      check starts no wide kernel. */
  lemma {:induction false} StrangerStartsNoWideKernel(r: Run, j: nat, k: nat, t: nat)
    requires IsRun(r) && j <= k < |r.states| && t < |r.states[j].threads| && BeforeOwnerCheck(r.states[j].threads[t])
    requires forall l :: j <= l < k ==> !MayOwn(r.states[l].m, t)
    ensures t < |r.states[k].threads| && BeforeOwnerCheck(r.states[k].threads[t])
    ensures WideCount(r.states[k].threads[t].frames) <= WideCount(r.states[j].threads[t].frames)
    decreases k
  {
    if j < k {
      StrangerStartsNoWideKernel(r, j, k - 1, t);
      StepByStranger(r.states[k - 1], r.events[k - 1], t);
    }
  }

  // ---------------------------------------------------------------- one frame per call

  /** A call that has begun and has no frame yet: still checking, or backing out to SSE4.1. */
  predicate Pending(pc: Pc) {
    pc.Checking? || (pc.Releasing? && pc.after == FallBack)
  }

  function InProgress(th: Thread): (n: nat) {
    |th.frames| + if Pending(th.pc) then 1 else 0
  }

  predicate IsBegin(e: Event, t: nat) {
    e.ByThread? && e.t == t && e.op.Execute? && e.op.x.Begin?
  }

  /** The end of a frame: a return, or the unwinding of one. */
  predicate IsEnd(s: State, e: Event, t: nat) {
    && e.ByThread? && e.t == t && e.op.Release?
    && (e.op.r.FinishKernel? || (e.op.r.UnwindFrame? && t < |s.threads| && s.threads[t].frames != []))
  }

  function Begun(r: Run, n: nat, t: nat): (count: nat)
    requires n <= |r.events|
  {
    if n == 0 then 0 else Begun(r, n - 1, t) + if IsBegin(r.events[n - 1], t) then 1 else 0
  }

  function Ended(r: Run, n: nat, t: nat): (count: nat)
    requires n <= |r.events| < |r.states|
  {
    if n == 0 then 0 else Ended(r, n - 1, t) + if IsEnd(r.states[n - 1], r.events[n - 1], t) then 1 else 0
  }

  lemma LocalProgress(m: Memory, t: nat, th: Thread, op: Op)
    requires Can(m, th, op)
    ensures InProgress(Local(m, t, th, op).1) - InProgress(th)
         == if op.Execute? && op.x.Begin? then 1
            else if op.Release? && (op.r.FinishKernel? || (op.r.UnwindFrame? && th.frames != [])) then -1 else 0
  {
  }

  lemma StepProgress(s: State, e: Event, t: nat)
    requires Enabled(s, e) && t < |s.threads|
    ensures t < |Step(s, e).threads|
    ensures InProgress(Step(s, e).threads[t]) + (if IsEnd(s, e, t) then 1 else 0)
         == InProgress(s.threads[t]) + if IsBegin(e, t) then 1 else 0
  {
    if e.ByThread? && e.t == t {
      LocalProgress(s.m, t, s.threads[t], e.op);
    }
  }

  /** Main result: every call begun gets exactly one frame: the calls a thread has begun are those that have
      ended, those on its stack, and the one still being checked. */
  lemma {:induction false} EveryCallGetsOneFrame(r: Run, n: nat, t: nat)
    requires IsRun(r) && n < |r.states|
    ensures t < |r.states[n].threads| ==> Begun(r, n, t) == Ended(r, n, t) + InProgress(r.states[n].threads[t])
    ensures t >= |r.states[n].threads| ==> Begun(r, n, t) == Ended(r, n, t) == 0
  {
    if n > 0 {
      EveryCallGetsOneFrame(r, n - 1, t);
      if t < |r.states[n - 1].threads| {
        StepProgress(r.states[n - 1], r.events[n - 1], t);
      }
    }
  }

  // ---------------------------------------------------------------- the drain

  lemma DrainStageComesFrom(s: State, e: Event, t: nat)
    requires Enabled(s, e) && t < |Step(s, e).threads| && Step(s, e).threads[t].pc == Draining(UnlockingDrain)
    ensures t < |s.threads|
    ensures s.threads[t].pc == Draining(UnlockingDrain) || (e == ByThread(t, Drain(LoadActive)) && s.m.active == 0)
  {
  }

  /** Main result: a wait for quiescence returns only after a read of zero. */
  lemma {:induction false} DrainEndsAtZero(r: Run, k: nat, t: nat) returns (p: nat)
    requires IsRun(r) && k < |r.states| && t < |r.states[k].threads|
    requires r.states[k].threads[t].pc == Draining(UnlockingDrain)
    ensures p < k && r.events[p] == ByThread(t, Drain(LoadActive)) && r.states[p].m.active == 0
  {
    DrainStageComesFrom(r.states[k - 1], r.events[k - 1], t);
    if r.states[k - 1].threads[t].pc == Draining(UnlockingDrain) {
      p := DrainEndsAtZero(r, k - 1, t);
    } else {
      p := k - 1;
    }
  }

  lemma DrainerComesFrom(s: State, e: Event, t: nat)
    requires Enabled(s, e) && t < |Step(s, e).threads| && Step(s, e).threads[t].pc.Draining?
    ensures t < |s.threads| && Step(s, e).threads[t].depth == s.threads[t].depth
    ensures s.threads[t].pc.Draining? || s.threads[t].depth == 0
  {
  }

  lemma {:induction false} DrainerDepth(r: Run, k: nat, t: nat)
    requires IsRun(r) && k < |r.states| && t < |r.states[k].threads| && r.states[k].threads[t].pc.Draining?
    ensures r.states[k].threads[t].depth == 0
  {
    DrainerComesFrom(r.states[k - 1], r.events[k - 1], t);
    if r.states[k - 1].threads[t].pc.Draining? {
      DrainerDepth(r, k - 1, t);
    }
  }

  /** A thread inside a wide kernel never waits for quiescence, so no thread waits for itself. */
  lemma DrainerIsOutside(r: Run, k: nat, t: nat)
    requires IsRun(r) && k < |r.states| && t < |r.states[k].threads| && r.states[k].threads[t].pc.Draining?
    ensures WideCount(r.states[k].threads[t].frames) == 0
  {
    DrainerDepth(r, k, t);
    DepthCountsFrames(r, k, t);
  }

  lemma DepthCountsFrames(r: Run, k: nat, t: nat)
    requires IsRun(r) && k < |r.states| && t < |r.states[k].threads|
    ensures WideCount(r.states[k].threads[t].frames) <= r.states[k].threads[t].depth
  {
    CounterIsOutstanding(r, k);
  }

  // ---------------------------------------------------------------- cells

  /** Events that write a cell, and what they leave in it. */
  function OwnerAfter(owner: nat, e: Event): (r: nat) {
    if e.ByThread? && e.op.Write? && e.op.w.SetOwner? then e.op.w.tid else owner
  }

  function StoppingAfter(stopping: bool, e: Event): (r: bool) {
    if e.ByThread? && e.op.Write? && e.op.w.SetStopping? then e.op.w.on else stopping
  }

  function SelectionAfter(selection: Width, e: Event): (r: Width) {
    if e.ByThread? && e.op.Write? && e.op.w.Select? then e.op.w.target else selection
  }

  function GuardAfter(guard: Guard, e: Event): (r: Guard) {
    if e.ByThread? && e.op.Write? && e.op.w.Publish? then e.op.w.g else guard
  }

  /** What a step does to the four cells. */
  predicate CellsFollow(m: Memory, e: Event, m': Memory) {
    && m'.owner == OwnerAfter(m.owner, e) && m'.stopping == StoppingAfter(m.stopping, e)
    && m'.selection == SelectionAfter(m.selection, e) && m'.guard == GuardAfter(m.guard, e)
  }

  predicate SameCells(m: Memory, m': Memory) {
    m'.owner == m.owner && m'.stopping == m.stopping && m'.selection == m.selection && m'.guard == m.guard
  }

  lemma LocalCells(m: Memory, t: nat, th: Thread, op: Op)
    requires Can(m, th, op)
    ensures CellsFollow(m, ByThread(t, op), Local(m, t, th, op).0)
    ensures SameCells(m, Local(m, t, th, op).0) || th.pc == Guarding(Writing)
  {
  }

  /** Main result: owner, stopping flag, selection and guard are written by their own events only, under the
      guard lock of the writer, and hold what was last written. */
  lemma CellsHoldLastWrite(r: Run, k: nat)
    requires IsRun(r) && k < |r.events|
    ensures CellsFollow(r.states[k].m, r.events[k], r.states[k + 1].m)
    ensures !SameCells(r.states[k].m, r.states[k + 1].m) ==>
              r.events[k].ByThread? && r.states[k].m.guardLock == Some(r.events[k].t)
  {
    if r.events[k].ByThread? {
      var t, s := r.events[k].t, r.states[k];
      LocalCells(s.m, t, s.threads[t], r.events[k].op);
      RunInv(r, k);
      assert Coherent(s.m, t, s.threads[t].pc);
    }
  }
}
