/**
 Start and stop of the telemetry fusion worker: any number of threads call start and stop, and
 the worker itself may call either from a collector it is polling. Steps interleave freely;
 the thread mutex and the wake mutex are explicit.
 */
module FusionLifecycle {

  import opened SimdWidth

  datatype Pc =
    | Base                                            // application code, or the worker polling its collectors
    | Creating | PublishingStart | UndoingStart       // start, holding the thread mutex
    | Storing | Notifying | Branching                 // stop, holding the thread mutex
    | WaitingForJoin | Joining(w: nat) | Finishing    // stop, not holding it
    | Looping | FuseReading | FusePublishing(r: bool) // the worker's loop
    | WakeLocking | WakeChecking | GoingToSleep | Asleep
    | Exited

  /** A worker thread is created by start; `joins` counts how often it was joined. */
  datatype Thread = Thread(pc: Pc, worker: bool, joins: nat)

  /** `thread` is the joinable handle. `joinOwner` is the caller behind the join-in-progress flag
      and `joinTarget` the handle it moved out, until the join returns. `notifyPending` says that
      running was cleared and the worker has not been notified yet. */
  datatype Memory = Memory(
    mutex: Option<nat>,
    wakeMutex: Option<nat>,
    running: bool,
    stopCallers: nat,
    joinOwner: Option<nat>,
    joinTarget: Option<nat>,
    workerId: Option<nat>,
    thread: Option<nat>,
    published: bool,
    notifyPending: bool)

  datatype State = State(threads: seq<Thread>, m: Memory)

  datatype Op =
    | Start | Create(ok: bool) | PublishStart | UndoStart
    | Stop | Store | Notify | Branch | FinishWait | Join | Finish
    | Loop | PollDone | FuseRead | FusePublish(sleepNext: bool)
    | WakeLock | WakeCheck | Sleep | Timeout

  datatype Event = ByThread(t: nat, op: Op) | Spawn

  const EXTERNAL := Thread(Base, false, 0)

  const NEW_WORKER := Thread(Looping, true, 0)

  predicate Init(s: State) {
    && (forall i :: 0 <= i < |s.threads| ==> s.threads[i] == EXTERNAL)
    && s.m == Memory(None, None, false, 0, None, None, None, None, false, false)
  }

  // ---------------------------------------------------------------- one thread's steps

  predicate Can(m: Memory, th: Thread, op: Op) {
    match op
    case Start => th.pc.Base? && m.mutex.None?
    case Create(_) => th.pc.Creating?
    case PublishStart => th.pc.PublishingStart?
    case UndoStart => th.pc.UndoingStart?
    case Stop => th.pc.Base? && m.mutex.None?
    case Store => th.pc.Storing? && m.wakeMutex.None?
    case Notify => th.pc.Notifying?
    case Branch => th.pc.Branching? && m.stopCallers > 0
    case FinishWait => th.pc.WaitingForJoin? && m.mutex.None? && m.joinOwner.None? && m.stopCallers > 0
    case Join => th.pc.Joining?
    case Finish => th.pc.Finishing? && m.mutex.None? && m.stopCallers > 0
    case Loop => th.pc.Looping?
    case PollDone => th.worker && th.pc.Base?
    case FuseRead => th.pc.FuseReading?
    case FusePublish(_) => th.pc.FusePublishing?
    case WakeLock => th.pc.WakeLocking? && m.wakeMutex.None?
    case WakeCheck => th.pc.WakeChecking?
    case Sleep => th.pc.GoingToSleep?
    case Timeout => th.pc.Asleep?
  }

  /** start: overlapping any stop, or while a worker is joinable, it does nothing. */
  function StartStep(m: Memory, t: nat): (r: (Memory, Pc)) {
    if m.running || m.stopCallers != 0 || m.joinOwner.Some? || m.thread.Some? then (m, Base)
    else (m.(mutex := Some(t), running := true), Creating)
  }

  /** The decision of a stop that has cleared running and notified the worker. */
  function BranchStep(m: Memory, t: nat): (r: (Memory, Pc))
    requires m.stopCallers > 0
  {
    var left := m.(stopCallers := m.stopCallers - 1, mutex := None);
    var callerIsWorker := m.workerId == Some(t);
    if m.joinOwner.Some? then
      if callerIsWorker then (left, Base) else (m.(mutex := None), WaitingForJoin)
    else if m.thread.None? then (left.(published := false, workerId := None), Base)
    else if callerIsWorker then (left.(published := false), Base)
    else (m.(joinOwner := Some(t), joinTarget := m.thread, thread := None, mutex := None), Joining(m.thread.value))
  }

  /** `newId` is the index the next created thread gets. */
  function Local(m: Memory, t: nat, th: Thread, op: Op, newId: nat): (r: (Memory, Pc))
    requires Can(m, th, op)
  {
    match op
    case Start => StartStep(m, t)
    case Create(ok) =>
      if ok then (m.(thread := Some(newId), workerId := Some(newId)), PublishingStart)
      else (m.(workerId := None, running := false), UndoingStart)
    case PublishStart => (m.(published := true, mutex := None), Base)
    case UndoStart => (m.(published := false, mutex := None), Base)
    case Stop => (m.(mutex := Some(t), stopCallers := m.stopCallers + 1), Storing)
    case Store => (m.(running := false, notifyPending := true), Notifying)
    case Notify => (m.(notifyPending := false), Branching)
    case Branch => BranchStep(m, t)
    case FinishWait => (m.(stopCallers := m.stopCallers - 1), Base)
    case Join => (m.(joinTarget := None), Finishing)
    case Finish =>
      (m.(workerId := None, published := false, joinOwner := None, stopCallers := m.stopCallers - 1), Base)
    case Loop => (m, if m.running then Base else Exited)
    case PollDone => (m, FuseReading)
    case FuseRead => (m, FusePublishing(m.running))
    case FusePublish(sleepNext) => (m.(published := th.pc.r), if sleepNext then WakeLocking else Looping)
    case WakeLock => (m.(wakeMutex := Some(t)), WakeChecking)
    case WakeCheck => if m.running then (m, GoingToSleep) else (m.(wakeMutex := None), Looping)
    case Sleep => (m.(wakeMutex := None), Asleep)
    case Timeout => (m, Looping)
  }

  // ---------------------------------------------------------------- the interleaved system

  predicate Enabled(s: State, e: Event) {
    e.ByThread? ==>
      && e.t < |s.threads| && Can(s.m, s.threads[e.t], e.op)
      && (e.op.Join? ==> var w := s.threads[e.t].pc.w; w < |s.threads| && s.threads[w].pc.Exited?)
  }

  /** What a step of another thread does to a thread: a notify wakes it, a join counts. */
  function Bystander(i: nat, th: Thread, actor: Pc, op: Op): (r: Thread) {
    if op.Notify? && th.pc.Asleep? then th.(pc := WakeLocking)
    else if op.Join? && actor == Joining(i) then th.(joins := th.joins + 1)
    else th
  }

  function Step(s: State, e: Event): (s': State)
    requires Enabled(s, e)
  {
    match e
    case Spawn => s.(threads := s.threads + [EXTERNAL])
    case ByThread(t, op) =>
      var th := s.threads[t];
      var (m', pc') := Local(s.m, t, th, op, |s.threads|);
      var stepped := seq(|s.threads|, i requires 0 <= i < |s.threads| =>
                           if i == t then th.(pc := pc') else Bystander(i, s.threads[i], th.pc, op));
      State(if op == Create(true) then stepped + [NEW_WORKER] else stepped, m')
  }

  // ---------------------------------------------------------------- inductive invariant

  predicate InStop(pc: Pc) {
    pc.Storing? || pc.Notifying? || pc.Branching? || pc.WaitingForJoin? || pc.Joining? || pc.Finishing?
  }

  function StopCount(ts: seq<Thread>): (n: nat) {
    if ts == [] then 0 else StopCount(ts[..|ts| - 1]) + if InStop(ts[|ts| - 1].pc) then 1 else 0
  }

  predicate HoldsMutex(pc: Pc) {
    pc.Creating? || pc.PublishingStart? || pc.UndoingStart? || pc.Storing? || pc.Notifying? || pc.Branching?
  }

  predicate HoldsWakeMutex(pc: Pc) {
    pc.WakeChecking? || pc.GoingToSleep?
  }

  predicate OwnsJoin(pc: Pc) {
    pc.Joining? || pc.Finishing?
  }

  predicate WorkerOnly(pc: Pc) {
    || pc.Looping? || pc.FuseReading? || pc.FusePublishing? || pc.WakeLocking? || HoldsWakeMutex(pc)
    || pc.Asleep? || pc.Exited?
  }

  /** Worker w has been created and not yet joined. */
  predicate Unjoined(m: Memory, w: nat) {
    m.thread == Some(w) || m.joinTarget == Some(w)
  }

  predicate LocksInv(m: Memory, t: nat, th: Thread) {
    && (HoldsMutex(th.pc) <==> m.mutex == Some(t))
    && (HoldsWakeMutex(th.pc) <==> m.wakeMutex == Some(t))
    && (OwnsJoin(th.pc) <==> m.joinOwner == Some(t))
    && (HoldsMutex(th.pc) ==> (th.pc.Notifying? <==> m.notifyPending))
    && (th.pc.GoingToSleep? ==> m.running)
    && (th.pc.Asleep? ==> m.running || m.notifyPending)
  }

  predicate WorkerInv(m: Memory, t: nat, th: Thread) {
    && (WorkerOnly(th.pc) || m.workerId == Some(t) ==> th.worker)
    && (th.worker ==> th.joins == if Unjoined(m, t) then 0 else 1)
    && (th.worker && !Unjoined(m, t) ==> th.pc.Exited?)
    && (th.worker ==> !th.pc.WaitingForJoin? && !th.pc.Joining?)
  }

  predicate PhaseInv(m: Memory, t: nat, pc: Pc) {
    && (pc.Creating? ==> m.running && m.stopCallers == 0 && m.thread.None? && m.joinOwner.None?)
    && (pc.PublishingStart? ==> m.stopCallers == 0 && m.thread.Some?)
    && (pc.UndoingStart? ==> m.stopCallers == 0 && m.thread.None? && m.joinOwner.None? && !m.running)
    && (InStop(pc) && !pc.Storing? ==> !m.running)
    && (pc.WaitingForJoin? ==> m.joinOwner.Some? || m.thread.None?)
    && (pc.Joining? ==> m.joinTarget == Some(pc.w))
    && (pc.Finishing? ==> m.joinTarget.None?)
  }

  predicate ThreadInv(m: Memory, t: nat, th: Thread) {
    LocksInv(m, t, th) && WorkerInv(m, t, th) && PhaseInv(m, t, th.pc)
  }

  predicate FlagsInv(m: Memory) {
    && (m.thread.Some? ==> m.workerId == m.thread && m.joinOwner.None?)
    && (m.joinTarget.Some? ==> m.workerId == m.joinTarget && m.joinOwner.Some?)
    && (m.joinOwner.Some? ==> !m.running)
    && (m.published ==> m.thread.Some? || m.joinOwner.Some?)
    && (m.running && m.mutex.None? ==> m.thread.Some?)
    && (m.notifyPending ==> m.mutex.Some?)
  }

  predicate Below(id: Option<nat>, n: nat) {
    id.Some? ==> id.value < n
  }

  predicate IdsBelow(m: Memory, n: nat) {
    && Below(m.mutex, n) && Below(m.wakeMutex, n) && Below(m.joinOwner, n)
    && Below(m.workerId, n) && Below(m.thread, n) && Below(m.joinTarget, n)
  }

  ghost predicate Inv(s: State) {
    && FlagsInv(s.m)
    && s.m.stopCallers == StopCount(s.threads)
    && IdsBelow(s.m, |s.threads|)
    && (forall t :: 0 <= t < |s.threads| ==> ThreadInv(s.m, t, s.threads[t]))
  }

  function One(b: bool): (n: nat) {
    if b then 1 else 0
  }

  lemma OwnFlags(m: Memory, t: nat, th: Thread, op: Op, newId: nat)
    requires FlagsInv(m) && ThreadInv(m, t, th) && Can(m, th, op)
    ensures FlagsInv(Local(m, t, th, op, newId).0)
  {
  }

  lemma OwnPhase(m: Memory, t: nat, th: Thread, op: Op, newId: nat)
    requires FlagsInv(m) && ThreadInv(m, t, th) && Can(m, th, op)
    requires m.stopCallers >= One(InStop(th.pc))
    ensures var (m', pc') := Local(m, t, th, op, newId);
            && PhaseInv(m', t, pc')
            && m'.stopCallers + One(InStop(th.pc)) == m.stopCallers + One(InStop(pc'))
  {
  }

  lemma OwnLocks(m: Memory, t: nat, th: Thread, op: Op, newId: nat)
    requires FlagsInv(m) && ThreadInv(m, t, th) && Can(m, th, op)
    ensures var (m', pc') := Local(m, t, th, op, newId); LocksInv(m', t, th.(pc := pc'))
  {
  }

  lemma OwnWorker(m: Memory, t: nat, th: Thread, op: Op, newId: nat)
    requires FlagsInv(m) && ThreadInv(m, t, th) && Can(m, th, op) && newId != t
    ensures var (m', pc') := Local(m, t, th, op, newId); WorkerInv(m', t, th.(pc := pc'))
  {
  }

  lemma OtherBranch(m: Memory, t: nat, th: Thread, u: nat, other: Thread)
    requires FlagsInv(m) && ThreadInv(m, t, th) && Can(m, th, Branch)
    requires u != t && ThreadInv(m, u, other)
    ensures ThreadInv(BranchStep(m, t).0, u, other)
  {
  }

  /** No step of one thread disturbs what holds of another. */
  lemma OtherStep(m: Memory, t: nat, th: Thread, op: Op, newId: nat, u: nat, other: Thread)
    requires FlagsInv(m) && ThreadInv(m, t, th) && Can(m, th, op)
    requires u != t && u != newId && ThreadInv(m, u, other)
    requires m.stopCallers >= One(InStop(th.pc)) + One(InStop(other.pc))
    requires op.Join? && th.pc == Joining(u) ==> other.worker && other.pc.Exited?
    ensures ThreadInv(Local(m, t, th, op, newId).0, u, Bystander(u, other, th.pc, op))
    ensures InStop(Bystander(u, other, th.pc, op).pc) == InStop(other.pc)
  {
    if op.Branch? {
      OtherBranch(m, t, th, u, other);
    }
  }

  lemma {:induction false} StopCountUpdate(ts: seq<Thread>, us: seq<Thread>, t: nat)
    requires |ts| == |us| && t < |ts|
    requires forall i :: 0 <= i < |ts| && i != t ==> InStop(us[i].pc) == InStop(ts[i].pc)
    ensures StopCount(us) + One(InStop(ts[t].pc)) == StopCount(ts) + One(InStop(us[t].pc))
  {
    var last := |ts| - 1;
    if t < last {
      StopCountUpdate(ts[..last], us[..last], t);
    } else {
      StopCountOfEqual(ts[..last], us[..last]);
    }
  }

  lemma {:induction false} StopCountOfEqual(ts: seq<Thread>, us: seq<Thread>)
    requires |ts| == |us|
    requires forall i :: 0 <= i < |ts| ==> InStop(us[i].pc) == InStop(ts[i].pc)
    ensures StopCount(ts) == StopCount(us)
  {
    if ts != [] {
      StopCountOfEqual(ts[..|ts| - 1], us[..|us| - 1]);
    }
  }

  lemma {:induction false} StopCountBounds(ts: seq<Thread>, t: nat, u: nat)
    requires t < |ts| && u < |ts|
    ensures StopCount(ts) >= if t == u then One(InStop(ts[t].pc)) else One(InStop(ts[t].pc)) + One(InStop(ts[u].pc))
  {
    var last := |ts| - 1;
    if t < last && u < last {
      StopCountBounds(ts[..last], t, u);
    } else if t < last {
      StopCountBounds(ts[..last], t, t);
    } else if u < last {
      StopCountBounds(ts[..last], u, u);
    }
  }

  lemma ThreadsKept(s: State, t: nat, op: Op, u: nat)
    requires Inv(s) && Enabled(s, ByThread(t, op)) && u < |s.threads|
    ensures var s' := Step(s, ByThread(t, op)); ThreadInv(s'.m, u, s'.threads[u])
    ensures u != t ==> InStop(Step(s, ByThread(t, op)).threads[u].pc) == InStop(s.threads[u].pc)
  {
    var th := s.threads[t];
    StopCountBounds(s.threads, t, u);
    if u == t {
      OwnLocks(s.m, t, th, op, |s.threads|);
      OwnWorker(s.m, t, th, op, |s.threads|);
      OwnPhase(s.m, t, th, op, |s.threads|);
    } else {
      assert ThreadInv(s.m, u, s.threads[u]);
      OtherStep(s.m, t, th, op, |s.threads|, u, s.threads[u]);
    }
  }

  lemma CreatedWorkerInv(s: State, t: nat)
    requires Inv(s) && Enabled(s, ByThread(t, Create(true)))
    ensures ThreadInv(Step(s, ByThread(t, Create(true))).m, |s.threads|, NEW_WORKER)
  {
  }

  lemma IdsKept(m: Memory, t: nat, th: Thread, op: Op, n: nat)
    requires IdsBelow(m, n) && t < n && Can(m, th, op)
    ensures IdsBelow(Local(m, t, th, op, n).0, if op == Create(true) then n + 1 else n)
  {
  }

  lemma CountKept(s: State, t: nat, op: Op)
    requires Inv(s) && Enabled(s, ByThread(t, op))
    ensures var s' := Step(s, ByThread(t, op)); s'.m.stopCallers == StopCount(s'.threads)
  {
    var s' := Step(s, ByThread(t, op));
    var n := |s.threads|;
    forall u | 0 <= u < n && u != t ensures InStop(s'.threads[u].pc) == InStop(s.threads[u].pc) {
      ThreadsKept(s, t, op, u);
    }
    StopCountBounds(s.threads, t, t);
    OwnPhase(s.m, t, s.threads[t], op, n);
    StopCountUpdate(s.threads, s'.threads[..n], t);
    assert op != Create(true) ==> s'.threads[..n] == s'.threads;
  }

  lemma ThreadStepKeepsInv(s: State, t: nat, op: Op)
    requires Inv(s) && Enabled(s, ByThread(t, op))
    ensures Inv(Step(s, ByThread(t, op)))
  {
    var s' := Step(s, ByThread(t, op));
    forall u | 0 <= u < |s'.threads| ensures ThreadInv(s'.m, u, s'.threads[u]) {
      if u < |s.threads| {
        ThreadsKept(s, t, op, u);
      } else {
        CreatedWorkerInv(s, t);
      }
    }
    OwnFlags(s.m, t, s.threads[t], op, |s.threads|);
    IdsKept(s.m, t, s.threads[t], op, |s.threads|);
    CountKept(s, t, op);
  }

  lemma SpawnKeepsInv(s: State)
    requires Inv(s)
    ensures Inv(Step(s, Spawn))
  {
    var s' := Step(s, Spawn);
    assert s'.threads[..|s.threads|] == s.threads;
    forall u | 0 <= u < |s'.threads| ensures ThreadInv(s'.m, u, s'.threads[u]) {
      assert u < |s.threads| ==> ThreadInv(s.m, u, s.threads[u]);
    }
  }

  lemma InvPreserved(s: State, e: Event)
    requires Inv(s) && Enabled(s, e)
    ensures Inv(Step(s, e))
  {
    match e
    case ByThread(t, op) => ThreadStepKeepsInv(s, t, op);
    case Spawn => SpawnKeepsInv(s);
  }

  // ---------------------------------------------------------------- runs

  datatype Run = Run(states: seq<State>, events: seq<Event>)

  ghost predicate IsRun(r: Run) {
    && |r.states| == |r.events| + 1
    && Init(r.states[0])
    && forall k :: 0 <= k < |r.events| ==> Enabled(r.states[k], r.events[k]) && r.states[k + 1] == Step(r.states[k], r.events[k])
  }

  lemma {:induction false} NoStopCalls(ts: seq<Thread>)
    requires forall i :: 0 <= i < |ts| ==> ts[i] == EXTERNAL
    ensures StopCount(ts) == 0
  {
    if ts != [] {
      NoStopCalls(ts[..|ts| - 1]);
    }
  }

  lemma {:induction false} RunInv(r: Run, k: nat)
    requires IsRun(r) && k < |r.states|
    ensures Inv(r.states[k])
  {
    if k == 0 {
      NoStopCalls(r.states[0].threads);
    } else {
      RunInv(r, k - 1);
      InvPreserved(r.states[k - 1], r.events[k - 1]);
    }
  }

  /** Main result: at most one worker has not been joined, no worker is joined twice, and a
      joined worker has left its loop. */
  lemma OneWorkerJoinedOnce(r: Run, k: nat)
    requires IsRun(r) && k < |r.states|
    ensures var ts := r.states[k].threads;
            && (forall w :: 0 <= w < |ts| && ts[w].worker ==> ts[w].joins <= 1 && (ts[w].joins == 1 ==> ts[w].pc.Exited?))
            && (forall w, v :: 0 <= w < v < |ts| && ts[w].worker && ts[v].worker ==> ts[w].joins == 1 || ts[v].joins == 1)
  {
    RunInv(r, k);
    var ts := r.states[k].threads;
    assert forall w :: 0 <= w < |ts| ==> ThreadInv(r.states[k].m, w, ts[w]);
  }

  /** A start that overlaps a stop, or a worker still to be joined, changes nothing. */
  lemma OverlappingStartIsIgnored(r: Run, k: nat, t: nat, u: nat)
    requires IsRun(r) && k < |r.events| && r.events[k] == ByThread(t, Start)
    requires u < |r.states[k].threads|
    requires InStop(r.states[k].threads[u].pc) || (r.states[k].threads[u].worker && r.states[k].threads[u].joins == 0)
    ensures r.states[k + 1] == r.states[k]
  {
    RunInv(r, k);
    StopCountBounds(r.states[k].threads, u, u);
    assert ThreadInv(r.states[k].m, u, r.states[k].threads[u]);
    assert r.states[k + 1].threads == r.states[k].threads;
  }

  /** The steps at which a stop call of an external thread returns. */
  predicate ExternalStopReturns(s: State, e: Event)
    requires Enabled(s, e)
  {
    e.ByThread? && !s.threads[e.t].worker && InStop(s.threads[e.t].pc) && !InStop(Step(s, e).threads[e.t].pc)
  }

  /** No worker is left, running is false and the stopped state is published. */
  ghost predicate FullyStopped(s: State) {
    && !s.m.running && !s.m.published && s.m.thread.None?
    && forall w :: 0 <= w < |s.threads| && s.threads[w].worker ==> s.threads[w].joins == 1 && s.threads[w].pc.Exited?
  }

  /** Main result: whichever way an external stop returns, everything is stopped. */
  lemma ExternalStopLeavesNothingRunning(r: Run, k: nat)
    requires IsRun(r) && k < |r.events| && ExternalStopReturns(r.states[k], r.events[k])
    ensures FullyStopped(r.states[k + 1])
  {
    RunInv(r, k);
    RunInv(r, k + 1);
    var s, s', e := r.states[k], r.states[k + 1], r.events[k];
    assert ThreadInv(s.m, e.t, s.threads[e.t]);
    ReturnLeavesNoWorker(s.m, e.t, s.threads[e.t], e.op, |s.threads|);
    assert forall w :: 0 <= w < |s'.threads| ==> WorkerInv(s'.m, w, s'.threads[w]);
  }

  lemma ReturnLeavesNoWorker(m: Memory, t: nat, th: Thread, op: Op, newId: nat)
    requires FlagsInv(m) && ThreadInv(m, t, th) && Can(m, th, op) && !th.worker
    requires InStop(th.pc) && !InStop(Local(m, t, th, op, newId).1)
    ensures var m' := Local(m, t, th, op, newId).0;
            !m'.running && !m'.published && m'.thread.None? && m'.joinTarget.None?
  {
  }

  /** The worker itself never waits for a join, so its own stop cannot deadlock the join. */
  lemma WorkerNeverWaitsForJoin(r: Run, k: nat, w: nat)
    requires IsRun(r) && k < |r.states| && w < |r.states[k].threads| && r.states[k].threads[w].worker
    ensures !r.states[k].threads[w].pc.WaitingForJoin? && !r.states[k].threads[w].pc.Joining?
  {
    RunInv(r, k);
    assert ThreadInv(r.states[k].m, w, r.states[k].threads[w]);
  }

  /** No lost wakeup: a worker asleep after running was cleared is still owed its notification. */
  lemma SleepingWorkerIsNotified(r: Run, k: nat, w: nat) returns (t: nat)
    requires IsRun(r) && k < |r.states| && w < |r.states[k].threads|
    requires r.states[k].threads[w].pc.Asleep? && !r.states[k].m.running
    ensures t < |r.states[k].threads| && r.states[k].threads[t].pc.Notifying?
  {
    RunInv(r, k);
    assert ThreadInv(r.states[k].m, w, r.states[k].threads[w]);
    t := r.states[k].m.mutex.value;
    assert ThreadInv(r.states[k].m, t, r.states[k].threads[t]);
  }
}
