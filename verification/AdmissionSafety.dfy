/** What every run of the admission protocol keeps: revocation, quiescence, accounting, wakeups. */
module AdmissionSafety {

  import opened SimdWidth
  import opened WidthAuthorization
  import opened AdmissionProtocol

  // ---------------------------------------------------------------- preservation

  lemma {:induction false} TotalUpdate(ts: seq<Thread>, us: seq<Thread>, t: nat)
    requires |ts| == |us| && t < |ts|
    requires forall i :: 0 <= i < |ts| && i != t ==> Outstanding(us[i]) == Outstanding(ts[i])
    ensures TotalOutstanding(us) == TotalOutstanding(ts) - Outstanding(ts[t]) + Outstanding(us[t])
  {
    var last := |ts| - 1;
    if t < last {
      TotalUpdate(ts[..last], us[..last], t);
    } else {
      TotalOfEqual(ts[..last], us[..last]);
    }
  }

  lemma {:induction false} TotalOfEqual(ts: seq<Thread>, us: seq<Thread>)
    requires |ts| == |us|
    requires forall i :: 0 <= i < |ts| ==> Outstanding(ts[i]) == Outstanding(us[i])
    ensures TotalOutstanding(ts) == TotalOutstanding(us)
  {
    if ts != [] {
      TotalOfEqual(ts[..|ts| - 1], us[..|us| - 1]);
    }
  }

  lemma {:induction false} TotalBoundsEach(ts: seq<Thread>, t: nat)
    requires t < |ts|
    ensures Outstanding(ts[t]) <= TotalOutstanding(ts)
  {
    if t < |ts| - 1 {
      TotalBoundsEach(ts[..|ts| - 1], t);
    }
  }

  lemma {:induction false} IdleTotal(ts: seq<Thread>)
    requires forall i :: 0 <= i < |ts| ==> ts[i] == IDLE
    ensures TotalOutstanding(ts) == 0
  {
    if ts != [] {
      IdleTotal(ts[..|ts| - 1]);
    }
  }

  lemma WideCountPush(frames: seq<Width>, w: Width)
    ensures WideCount(frames + [w]) == WideCount(frames) + if IsWide(w) then 1 else 0
  {
    assert (frames + [w])[..|frames|] == frames;
  }

  /** A thread's own step keeps its invariant and moves the counter with its balance. */
  ghost predicate OwnKept(m: Memory, t: nat, th: Thread, m': Memory, th': Thread) {
    ThreadInv(m', t, th') && m'.active + Outstanding(th) == m.active + Outstanding(th')
  }

  lemma OwnExecuteCoherent(m: Memory, t: nat, th: Thread, x: ExecuteOp)
    requires CanExecute(th.pc, x) && Coherent(m, t, th.pc)
    ensures var (m', th') := ExecuteStep(m, t, th, x); Coherent(m', t, th'.pc)
  {
  }

  lemma PushedOutstanding(th: Thread, w: Width)
    ensures Outstanding(th.(pc := Ready, frames := th.frames + [w])) == WideCount(th.frames) + if IsWide(w) then 1 else 0
  {
    WideCountPush(th.frames, w);
  }

  lemma OwnExecute(m: Memory, t: nat, th: Thread, x: ExecuteOp)
    requires CanExecute(th.pc, x) && ThreadInv(m, t, th)
    ensures var (m', th') := ExecuteStep(m, t, th, x); OwnKept(m, t, th, m', th')
  {
    OwnExecuteCoherent(m, t, th, x);
    var (m', th') := ExecuteStep(m, t, th, x);
    if th'.frames != th.frames {
      PushedOutstanding(th, if x.AuthorizeSecond? then th.pc.w else Sse41);
    } else {
      assert Outstanding(th') == WideCount(th.frames) + if InFlight(th'.pc) then 1 else 0;
    }
  }

  lemma OwnReleaseCoherent(m: Memory, t: nat, th: Thread, r: ReleaseOp)
    requires CanRelease(m, th, r) && Coherent(m, t, th.pc) && (r.Subtract? ==> m.active > 0)
    ensures var (m', th') := ReleaseStep(m, t, th, r); Coherent(m', t, th'.pc)
  {
  }

  lemma ResumedOutstanding(th: Thread, after: Resume)
    ensures Outstanding(Resumed(th, after)) == WideCount(th.frames)
  {
    PushedOutstanding(th, Sse41);
  }

  /** A finished or unwound frame leaves the balance to the release that may follow. */
  lemma PoppedOutstanding(th: Thread, after: Resume)
    requires th.frames != [] && after != FallBack
    ensures Outstanding(Popped(th, after)) == WideCount(th.frames)
  {
    ResumedOutstanding(th.(frames := th.frames[..|th.frames| - 1]), after);
  }

  lemma OwnRelease(m: Memory, t: nat, th: Thread, r: ReleaseOp)
    requires CanRelease(m, th, r) && ThreadInv(m, t, th) && Outstanding(th) <= m.active
    ensures var (m', th') := ReleaseStep(m, t, th, r); OwnKept(m, t, th, m', th')
  {
    OwnReleaseCoherent(m, t, th, r);
    match r
    case FinishKernel => PoppedOutstanding(th, Continue);
    case UnwindFrame => if th.frames != [] { PoppedOutstanding(th, KeepUnwinding); }
    case Subtract => ResumedOutstanding(th.(depth := th.depth - 1), th.pc.after);
    case UnlockNotify => ResumedOutstanding(th, th.pc.after);
    case _ =>
  }

  lemma OwnWrite(m: Memory, t: nat, th: Thread, w: WriteOp)
    requires CanWrite(m, th.pc, w) && ThreadInv(m, t, th)
    ensures var (m', th') := WriteStep(m, t, th, w); OwnKept(m, t, th, m', th')
  {
  }

  lemma OwnDrain(m: Memory, t: nat, th: Thread, d: DrainOp)
    requires CanDrain(m, th.pc, d) && ThreadInv(m, t, th)
    ensures var (m', th') := DrainStep(m, t, th, d); OwnKept(m, t, th, m', th')
  {
  }

  lemma OwnStep(m: Memory, t: nat, th: Thread, op: Op)
    requires Can(m, th, op) && ThreadInv(m, t, th) && Outstanding(th) <= m.active
    ensures var (m', th') := Local(m, t, th, op); OwnKept(m, t, th, m', th')
  {
    match op
    case Execute(x) => OwnExecute(m, t, th, x);
    case Release(r) => OwnRelease(m, t, th, r);
    case Write(w) => OwnWrite(m, t, th, w);
    case Drain(d) => OwnDrain(m, t, th, d);
  }

  /** No step of one thread disturbs what holds of another. */
  lemma OtherStep(m: Memory, t: nat, th: Thread, op: Op, u: nat, other: Thread)
    requires Can(m, th, op) && ThreadInv(m, t, th) && u != t && ThreadInv(m, u, other)
    ensures ThreadInv(Local(m, t, th, op).0, u, Bystander(other, op))
    ensures Outstanding(Bystander(other, op)) == Outstanding(other)
  {
  }

  /** How one step moves the shared flags, the counter and the wakeup obligations. */
  lemma StepEffects(m: Memory, t: nat, th: Thread, op: Op)
    requires Can(m, th, op) && ThreadInv(m, t, th) && (m.stopping ==> !m.admission)
    ensures var (m', th') := Local(m, t, th, op);
            && (m'.stopping ==> !m'.admission)
            && (m'.guardLock == m.guardLock || m'.guardLock == Some(t) || m'.guardLock == None)
            && (m'.drainLock == m.drainLock || m'.drainLock == Some(t) || m'.drainLock == None)
            && (m.active != 0 && m'.active == 0 ==> OwesBroadcast(th'.pc))
            && (Sleeping(th'.pc) && m'.active == 0 ==> Sleeping(th.pc) && m.active == 0)
            && (OwesBroadcast(th.pc) ==> OwesBroadcast(th'.pc) || op == Release(Broadcast))
  {
  }

  lemma WakeupsKept(s: State, t: nat, op: Op)
    requires Inv(s) && Enabled(s, ByThread(t, op))
    ensures NoLostWakeup(Step(s, ByThread(t, op)))
  {
    var s' := Step(s, ByThread(t, op));
    StepEffects(s.m, t, s.threads[t], op);
    forall i | 0 <= i < |s'.threads| && Sleeping(s'.threads[i].pc) && s'.m.active == 0
      ensures SomeoneOwesBroadcast(s'.threads)
    {
      if OwesBroadcast(s'.threads[t].pc) {
      } else {
        assert s.m.active == 0 && Sleeping(s.threads[i].pc);
        var j :| 0 <= j < |s.threads| && OwesBroadcast(s.threads[j].pc);
        if j == t {
          assert false;
        } else {
          assert OwesBroadcast(s'.threads[j].pc);
        }
      }
    }
  }

  lemma ThreadStepKeepsInv(s: State, t: nat, op: Op)
    requires Inv(s) && Enabled(s, ByThread(t, op))
    ensures Inv(Step(s, ByThread(t, op)))
  {
    var s' := Step(s, ByThread(t, op));
    TotalBoundsEach(s.threads, t);
    OwnStep(s.m, t, s.threads[t], op);
    StepEffects(s.m, t, s.threads[t], op);
    forall i | 0 <= i < |s.threads| && i != t
      ensures ThreadInv(s'.m, i, s'.threads[i]) && Outstanding(s'.threads[i]) == Outstanding(s.threads[i])
    {
      OtherStep(s.m, t, s.threads[t], op, i, s.threads[i]);
    }
    TotalUpdate(s.threads, s'.threads, t);
    WakeupsKept(s, t, op);
  }

  lemma SpawnKeepsInv(s: State)
    requires Inv(s)
    ensures Inv(Step(s, Spawn))
  {
    var s' := Step(s, Spawn);
    assert s'.threads[..|s.threads|] == s.threads;
    forall i | 0 <= i < |s'.threads| ensures ThreadInv(s'.m, i, s'.threads[i]) {
      assert i < |s.threads| ==> ThreadInv(s.m, i, s.threads[i]);
    }
    SpawnKeepsWakeups(s);
  }

  /** An idle newcomer is not asleep. */
  lemma SpawnKeepsWakeups(s: State)
    requires NoLostWakeup(s)
    ensures NoLostWakeup(Step(s, Spawn))
  {
    var s' := Step(s, Spawn);
    forall i | 0 <= i < |s'.threads| && Sleeping(s'.threads[i].pc) && s'.m.active == 0
      ensures SomeoneOwesBroadcast(s'.threads)
    {
      assert Sleeping(s.threads[i].pc);
      var j :| 0 <= j < |s.threads| && OwesBroadcast(s.threads[j].pc);
      assert OwesBroadcast(s'.threads[j].pc);
    }
  }

  lemma InvPreserved(s: State, e: Event)
    requires Inv(s) && Enabled(s, e)
    ensures Inv(Step(s, e))
  {
    match e
    case ByThread(t, op) => ThreadStepKeepsInv(s, t, op);
    case Spawn => SpawnKeepsInv(s);
    case Tick(_) =>
    case Recapture(_) =>
  }

  // ---------------------------------------------------------------- runs

  datatype Run = Run(states: seq<State>, events: seq<Event>)

  ghost predicate IsRun(r: Run) {
    && |r.states| == |r.events| + 1
    && Init(r.states[0])
    && forall k :: 0 <= k < |r.events| ==> Enabled(r.states[k], r.events[k]) && r.states[k + 1] == Step(r.states[k], r.events[k])
  }

  /** The invariant holds in every state of every run. */
  lemma {:induction false} RunInv(r: Run, k: nat)
    requires IsRun(r) && k < |r.states|
    ensures Inv(r.states[k])
  {
    if k == 0 {
      IdleTotal(r.states[0].threads);
    } else {
      RunInv(r, k - 1);
      InvPreserved(r.states[k - 1], r.events[k - 1]);
    }
  }

  // ---------------------------------------------------------------- revocation safety

  predicate Passes(s: State, e: Event) {
    e.ByThread? && e.op == Execute(ReadSecondAdmission) && s.m.admission
  }

  /** Step i evaluated the authorization to true under the guard lock held by w. */
  ghost predicate GrantedAt(r: Run, i: nat, w: nat)
    requires IsRun(r) && i < |r.events|
  {
    && r.events[i] == ByThread(w, Write(Evaluate(true)))
    && var m := r.states[i].m;
       m.guardLock == Some(w) && !m.stopping && GuardAuthorizes(m.guard, m.limits, m.now)
  }

  /** Step j stored an open admission bit for the evaluation of step i, and the bit stayed
      open up to state k. */
  ghost predicate OpenedBy(r: Run, i: nat, j: nat, k: nat, w: nat)
    requires IsRun(r) && k < |r.states|
  {
    && i < j < k && GrantedAt(r, i, w)
    && r.events[j] == ByThread(w, Write(Store))
    && (forall l :: i < l <= j ==> r.states[l].m.guardLock == Some(w) && w < |r.states[l].threads| && r.states[l].threads[w].pc == Guarding(Storing(true)))
    && (forall l :: j < l <= k ==> r.states[l].m.admission)
  }

  lemma OnlyEvaluationGrants(s: State, e: Event, w: nat)
    requires Enabled(s, e)
    requires var s' := Step(s, e); w < |s'.threads| && s'.threads[w].pc == Guarding(Storing(true))
    ensures e == ByThread(w, Write(Evaluate(true))) || (w < |s.threads| && s.threads[w].pc == Guarding(Storing(true)))
  {
  }

  /** A pending reopening was granted earlier and has been pending since. */
  lemma {:induction false} PendingWasGranted(r: Run, k: nat, w: nat) returns (i: nat)
    requires IsRun(r) && k < |r.states|
    requires w < |r.states[k].threads| && r.states[k].threads[w].pc == Guarding(Storing(true))
    ensures i < k && GrantedAt(r, i, w)
    ensures forall l :: i < l <= k ==> r.states[l].m.guardLock == Some(w) && w < |r.states[l].threads| && r.states[l].threads[w].pc == Guarding(Storing(true))
  {
    RunInv(r, k);
    assert ThreadInv(r.states[k].m, w, r.states[k].threads[w]);
    var s := r.states[k - 1];
    OnlyEvaluationGrants(s, r.events[k - 1], w);
    if w < |s.threads| && s.threads[w].pc == Guarding(Storing(true)) {
      i := PendingWasGranted(r, k - 1, w);
    } else {
      i := k - 1;
      RunInv(r, i);
      assert ThreadInv(s.m, w, s.threads[w]);
    }
  }

  lemma OnlyStoreOpens(s: State, e: Event)
    requires Enabled(s, e) && !s.m.admission && Step(s, e).m.admission
    ensures e.ByThread? && e.op == Write(Store) && s.threads[e.t].pc == Guarding(Storing(true))
  {
  }

  /** Whenever admission is open, a granted store opened it. */
  lemma {:induction false} OpenWasGranted(r: Run, k: nat) returns (i: nat, j: nat, w: nat)
    requires IsRun(r) && k < |r.states| && r.states[k].m.admission
    ensures OpenedBy(r, i, j, k, w)
  {
    if r.states[k - 1].m.admission {
      i, j, w := OpenWasGranted(r, k - 1);
    } else {
      j := k - 1;
      OnlyStoreOpens(r.states[j], r.events[j]);
      w := r.events[j].t;
      i := PendingWasGranted(r, j, w);
    }
  }

  /** Main result: every wide kernel entry passed its second admission read while admission
      was held open by a store whose writer had evaluated the authorization to true, under the
      guard lock and with stopping clear; no close has happened since that store. */
  lemma WideEntryWasAuthorized(r: Run, k: nat, t: nat) returns (i: nat, j: nat, p: nat, w: nat)
    requires IsRun(r) && k < |r.events| && r.events[k] == ByThread(t, Execute(AuthorizeSecond(true)))
    ensures p < k && r.events[p] == ByThread(t, Execute(ReadSecondAdmission)) && r.states[p].m.admission
    ensures forall l :: p < l <= k ==> t < |r.states[l].threads| && r.states[l].threads[t].pc.Checking?
    ensures OpenedBy(r, i, j, p, w)
    ensures forall l :: j < l < p ==> !IsClose(r.events[l])
  {
    p := SecondReadOf(r, k, t);
    i, j, w := OpenWasGranted(r, p);
    forall l | j < l < p ensures !IsClose(r.events[l]) {
      assert r.states[l + 1].m.admission;
    }
  }

  predicate IsClose(e: Event) {
    e.ByThread? && e.op.Write? && (e.op.w.Close? || e.op.w.CloseForStop? || e.op.w.BareClose?)
  }

  lemma StageComesFrom(s: State, e: Event, t: nat)
    requires Enabled(s, e) && var s' := Step(s, e); t < |s'.threads|
    ensures var pc' := Step(s, e).threads[t].pc;
            AtCheck(pc', SecondOwner) || AtCheck(pc', SecondAuthorization) ==>
              && t < |s.threads|
              && (|| (e == ByThread(t, Execute(ReadSecondAdmission)) && s.m.admission)
                  || AtCheck(s.threads[t].pc, SecondOwner) || AtCheck(s.threads[t].pc, SecondAuthorization))
  {
  }

  /** The second admission read that brought a thread past the re-check. */
  lemma {:induction false} SecondReadOf(r: Run, k: nat, t: nat) returns (p: nat)
    requires IsRun(r) && k < |r.states| && t < |r.states[k].threads|
    requires var pc := r.states[k].threads[t].pc; AtCheck(pc, SecondOwner) || AtCheck(pc, SecondAuthorization)
    ensures p < k && r.events[p] == ByThread(t, Execute(ReadSecondAdmission)) && r.states[p].m.admission
    ensures forall l :: p < l <= k ==> t < |r.states[l].threads| && r.states[l].threads[t].pc.Checking?
  {
    StageComesFrom(r.states[k - 1], r.events[k - 1], t);
    if r.events[k - 1] == ByThread(t, Execute(ReadSecondAdmission)) && r.states[k - 1].m.admission {
      p := k - 1;
    } else {
      p := SecondReadOf(r, k - 1, t);
    }
  }

  /** After a writer's close nobody passes the re-check until a leave that evaluated the
      authorization after that close has stored open again. */
  lemma CloseIsEffective(r: Run, c: nat, k: nat, v: nat) returns (i: nat, j: nat, w: nat)
    requires IsRun(r) && c < k < |r.events|
    requires r.events[c] == ByThread(v, Write(Close))
    requires Passes(r.states[k], r.events[k])
    ensures c < i && OpenedBy(r, i, j, k, w)
  {
    i, j, w := OpenWasGranted(r, k);
    RunInv(r, c);
    assert Coherent(r.states[c].m, v, r.states[c].threads[v].pc);
    assert !r.states[c + 1].m.admission;
  }

  /** A reopening that was evaluated before, and is not yet stored. */
  ghost predicate StaleReopenPending(s: State) {
    exists w :: 0 <= w < |s.threads| && s.threads[w].pc == Guarding(Storing(true))
  }

  /** The close without the lock gives the same guarantee when no reopening is pending ... */
  lemma BareCloseIsEffective(r: Run, c: nat, k: nat, v: nat) returns (i: nat, j: nat, w: nat)
    requires IsRun(r) && c < k < |r.events|
    requires r.events[c] == ByThread(v, Write(BareClose)) && !StaleReopenPending(r.states[c])
    requires Passes(r.states[k], r.events[k])
    ensures c < i && OpenedBy(r, i, j, k, w)
  {
    i, j, w := OpenWasGranted(r, k);
    assert !r.states[c + 1].m.admission;
  }

  /** ... and only then: with a reopening pending, the very next step can undo the close. */
  lemma BareCloseIsOverwritten(r: Run, c: nat, v: nat) returns (w: nat)
    requires IsRun(r) && c < |r.events|
    requires r.events[c] == ByThread(v, Write(BareClose)) && StaleReopenPending(r.states[c])
    ensures var s := r.states[c + 1]; var e := ByThread(w, Write(Store));
            !s.m.admission && Enabled(s, e) && Step(s, e).m.admission
  {
    w :| 0 <= w < |r.states[c].threads| && r.states[c].threads[w].pc == Guarding(Storing(true));
  }

  ghost function Last(r: Run): (s: State)
    requires IsRun(r)
  {
    r.states[|r.events|]
  }

  lemma Extended(r: Run, e: Event) returns (r': Run)
    requires IsRun(r) && Enabled(Last(r), e)
    ensures IsRun(r') && r' == Run(r.states + [Step(Last(r), e)], r.events + [e])
  {
    r' := Run(r.states + [Step(Last(r), e)], r.events + [e]);
  }

  /** A run of two threads in which the first holds the guard lock with admission closed, and a width
      it would be authorized to open. */
  lemma GuardHeldRun() returns (r: Run)
    ensures IsRun(r) && Last(r).threads == [IDLE.(pc := Guarding(Writing)), IDLE]
    ensures var m := Last(r).m; WidthAuthorized(Avx2, m.stopping, m.guard, m.limits, m.now)
  {
    var guard := Guard(true, true, false, NoPerf, false, 0, false, 0.0, 0);
    var m := Memory(0, false, false, 0, None, None, guard, Limits(90, 5, 5, 150), 0, Sse41);
    r := Run([State([IDLE, IDLE], m)], []);
    r := Extended(r, ByThread(0, Write(Enter)));
    r := Extended(r, ByThread(0, Write(LockGuard)));
    r := Extended(r, ByThread(0, Write(Close)));
  }

  /** The first has evaluated a reopening and not stored it. */
  lemma PendingReopenRun() returns (r: Run)
    ensures IsRun(r) && Last(r).threads == [IDLE.(pc := Guarding(Storing(true))), IDLE]
  {
    r := GuardHeldRun();
    r := Extended(r, ByThread(0, Write(Leave)));
    r := Extended(r, ByThread(0, Write(Evaluate(true))));
  }

  /** Such a run exists: the close falls between a leave's evaluation and its store. */
  lemma BareCloseOverwrittenRun() returns (r: Run, c: nat)
    ensures IsRun(r) && |r.events| == c + 2
    ensures r.events[c] == ByThread(1, Write(BareClose)) && StaleReopenPending(r.states[c])
    ensures r.events[c + 1] == ByThread(0, Write(Store))
    ensures !r.states[c + 1].m.admission && r.states[c + 2].m.admission
  {
    r := PendingReopenRun();
    c := |r.events|;
    assert Last(r).threads[0].pc == Guarding(Storing(true));
    r := Extended(r, ByThread(1, Write(BareClose)));
    r := Extended(r, ByThread(0, Write(Store)));
  }

  // ---------------------------------------------------------------- stop quiescence

  /** No thread is inside a wide kernel or past the re-check on its way into one. */
  ghost predicate Quiet(s: State) {
    forall t :: 0 <= t < |s.threads| ==> QuietThread(s.threads[t])
  }

  predicate QuietThread(th: Thread) {
    WideCount(th.frames) == 0 && !AtCheck(th.pc, SecondOwner) && !AtCheck(th.pc, SecondAuthorization)
  }

  lemma ExecuteStaysQuiet(m: Memory, t: nat, th: Thread, x: ExecuteOp)
    requires CanExecute(th.pc, x) && QuietThread(th) && !m.admission
    ensures QuietThread(ExecuteStep(m, t, th, x).1)
  {
    WideCountPush(th.frames, Sse41);
  }

  lemma ReleaseStaysQuiet(m: Memory, t: nat, th: Thread, r: ReleaseOp)
    requires CanRelease(m, th, r) && QuietThread(th)
    ensures QuietThread(ReleaseStep(m, t, th, r).1)
  {
    WideCountPush(th.frames, Sse41);
  }

  lemma LocalStaysQuiet(m: Memory, t: nat, th: Thread, op: Op)
    requires Can(m, th, op) && QuietThread(th) && !m.admission
    ensures QuietThread(Local(m, t, th, op).1)
  {
    match op
    case Execute(x) => ExecuteStaysQuiet(m, t, th, x);
    case Release(r) => ReleaseStaysQuiet(m, t, th, r);
    case Write(_) =>
    case Drain(_) =>
  }

  lemma ClosedStaysQuiet(s: State, e: Event)
    requires Quiet(s) && !s.m.admission && Enabled(s, e)
    ensures Quiet(Step(s, e))
  {
    if e.ByThread? {
      LocalStaysQuiet(s.m, e.t, s.threads[e.t], e.op);
    }
  }

  lemma ZeroIsQuiet(s: State)
    requires Inv(s) && s.m.active == 0
    ensures Quiet(s)
  {
    forall t | 0 <= t < |s.threads| ensures Outstanding(s.threads[t]) == 0 {
      TotalBoundsEach(s.threads, t);
    }
  }

  /** Main result: once the drain load has read zero while stopping is set, no thread is in a
      wide kernel, and none gets in for as long as stopping stays set. */
  lemma {:induction false} StopQuiescence(r: Run, j: nat, k: nat, t: nat)
    requires IsRun(r) && j < k < |r.states|
    requires r.events[j] == ByThread(t, Drain(LoadActive)) && r.states[j].m.active == 0
    requires forall l :: j <= l < k ==> r.states[l].m.stopping
    ensures Quiet(r.states[k])
    decreases k
  {
    RunInv(r, k - 1);
    if k == j + 1 {
      ZeroIsQuiet(r.states[j]);
    } else {
      StopQuiescence(r, j, k - 1, t);
    }
    ClosedStaysQuiet(r.states[k - 1], r.events[k - 1]);
  }

  /** Stopping implies closed admission in every reachable state. */
  lemma StoppingImpliesClosed(r: Run, k: nat)
    requires IsRun(r) && k < |r.states|
    ensures r.states[k].m.stopping ==> !r.states[k].m.admission
  {
    RunInv(r, k);
  }

  // ---------------------------------------------------------------- drain accounting

  /** Main result: the counter is the number of admissions not yet given back, on every path
      out of a kernel, each thread-local depth is its share, and the underflow repair is
      unreachable. */
  lemma CounterIsOutstanding(r: Run, k: nat)
    requires IsRun(r) && k < |r.states|
    ensures r.states[k].m.active == TotalOutstanding(r.states[k].threads)
    ensures forall t :: 0 <= t < |r.states[k].threads| ==>
      && r.states[k].threads[t].depth == Outstanding(r.states[k].threads[t])
      && !AtRelease(r.states[k].threads[t].pc, Repairing)
    ensures forall t :: 0 <= t < |r.states[k].threads| && r.states[k].threads[t].pc.Terminated? ==>
      Outstanding(r.states[k].threads[t]) == 0
  {
    RunInv(r, k);
    assert forall t :: 0 <= t < |r.states[k].threads| ==> ThreadInv(r.states[k].m, t, r.states[k].threads[t]);
  }

  /** A drain waiter that sleeps, or is about to, while the counter is zero is owed a broadcast. */
  lemma SleeperIsOwedBroadcast(r: Run, k: nat, t: nat) returns (owing: nat)
    requires IsRun(r) && k < |r.states| && t < |r.states[k].threads|
    requires Sleeping(r.states[k].threads[t].pc) && r.states[k].m.active == 0
    ensures owing < |r.states[k].threads| && OwesBroadcast(r.states[k].threads[owing].pc)
  {
    RunInv(r, k);
    owing :| 0 <= owing < |r.states[k].threads| && OwesBroadcast(r.states[k].threads[owing].pc);
  }

  /** The owed broadcast leaves nobody asleep or about to sleep. */
  lemma BroadcastWakesEveryone(r: Run, k: nat, t: nat)
    requires IsRun(r) && k < |r.events| && r.events[k] == ByThread(t, Release(Broadcast))
    ensures var s' := r.states[k + 1]; forall u :: 0 <= u < |s'.threads| ==> !Sleeping(s'.threads[u].pc)
  {
    RunInv(r, k);
    assert Coherent(r.states[k].m, t, r.states[k].threads[t].pc);
    assert forall u :: 0 <= u < |r.states[k].threads| ==> Coherent(r.states[k].m, u, r.states[k].threads[u].pc);
  }

  // ---------------------------------------------------------------- committed selection

  /** While stopping is set, a committed SSE4.1 selection stays committed. */
  lemma {:induction false} SelectionStaysConservative(r: Run, i: nat, k: nat)
    requires IsRun(r) && i <= k < |r.states|
    requires r.states[i].m.selection == Sse41
    requires forall l :: i <= l < k ==> r.states[l].m.stopping
    ensures r.states[k].m.selection == Sse41
    decreases k
  {
    if i < k {
      SelectionStaysConservative(r, i, k - 1);
    }
  }
}
