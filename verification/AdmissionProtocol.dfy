/**
 The process-wide wide-SIMD admission protocol as a transition system.

 Any number of threads run kernel executions, safety writes and drain waits. One step is one
 access to shared memory (or one lock operation); steps interleave arbitrarily under
 sequential consistency.
 */
module AdmissionProtocol {

  import opened SimdWidth
  import opened WidthAuthorization

  /** What a thread goes on to do once an admission has been released. */
  datatype Resume = FallBack | Continue | KeepUnwinding

  /** The steps of one wide enter: first check, increment, second check. */
  datatype CheckStage =
    | FirstOwner | FirstAdmission | FirstAuthorization
    | Incrementing
    | SecondAdmission | SecondOwner | SecondAuthorization

  datatype ReleaseStage = Subtracting | Repairing | LockingToNotify | Broadcasting | UnlockingNotify

  datatype WriteStage = LockingGuard | Closing | Writing | StoppingClose | Leaving | Storing(reopen: bool) | UnlockingGuard

  datatype DrainStage = LockingDrain | Loading | GoingToSleep | Asleep | Reacquiring | UnlockingDrain

  datatype Pc =
    | Ready
    | Checking(check: CheckStage, w: Width)
    | Releasing(step: ReleaseStage, after: Resume)
    | Unwinding
    | Terminated
    | Guarding(write: WriteStage)
    | Draining(drain: DrainStage)

  /** `frames` are the widths of the kernels on the thread's stack, innermost last; `depth` is
      the thread-local count of wide executions. */
  datatype Thread = Thread(pc: Pc, depth: nat, frames: seq<Width>)

  /** The shared memory. Thread t has the thread id t + 1; owner 0 means no owner. */
  datatype Memory = Memory(
    active: nat,
    admission: bool,
    stopping: bool,
    owner: nat,
    guardLock: Option<nat>,
    drainLock: Option<nat>,
    guard: Guard,
    limits: Limits,
    now: nat,
    selection: Width)

  datatype State = State(threads: seq<Thread>, m: Memory)

  /** A kernel execution: one dispatcher call up to the start of its callback. */
  datatype ExecuteOp =
    | Begin(w: Width) | ReadFirstOwner | ReadFirstAdmission | AuthorizeFirst(ok: bool)
    | Increment | ReadSecondAdmission | ReadSecondOwner | AuthorizeSecond(ok: bool)

  /** The end of a callback: return or error, or the thread being cancelled or exiting. */
  datatype ReleaseOp =
    | FinishKernel | ExitThread | UnwindFrame
    | Subtract | Repair | LockToNotify | Broadcast | UnlockNotify

  datatype WriteOp =
    | Enter | LockGuard | Close
    | Publish(g: Guard) | SetStopping(on: bool) | CloseForStop | SetOwner(tid: nat) | Select(target: Width)
    | Leave | Evaluate(ok: bool) | Store | UnlockGuard
    | BareClose

  datatype DrainOp =
    | WaitQuiescence | LockDrain | LoadActive | Sleep | Wake | Reacquire | UnlockDrain

  datatype Op = Execute(x: ExecuteOp) | Release(r: ReleaseOp) | Write(w: WriteOp) | Drain(d: DrainOp)

  /** A thread step, the clock, a new configuration capture, or a new thread. */
  datatype Event = ByThread(t: nat, op: Op) | Tick(ms: nat) | Recapture(limits: Limits) | Spawn

  const IDLE := Thread(Ready, 0, [])

  predicate Init(s: State) {
    && (forall i :: 0 <= i < |s.threads| ==> s.threads[i] == IDLE)
    && s.m.active == 0 && !s.m.admission && !s.m.stopping
    && s.m.guardLock.None? && s.m.drainLock.None?
  }

  // ---------------------------------------------------------------- one thread's steps

  predicate IsOwner(m: Memory, t: nat) {
    m.owner == 0 || m.owner == t + 1
  }

  predicate AtCheck(pc: Pc, check: CheckStage) {
    pc.Checking? && pc.check == check
  }

  predicate AtRelease(pc: Pc, step: ReleaseStage) {
    pc.Releasing? && pc.step == step
  }

  predicate CanExecute(pc: Pc, x: ExecuteOp) {
    match x
    case Begin(_) => pc.Ready?
    case ReadFirstOwner => AtCheck(pc, FirstOwner)
    case ReadFirstAdmission => AtCheck(pc, FirstAdmission)
    case AuthorizeFirst(_) => AtCheck(pc, FirstAuthorization)
    case Increment => AtCheck(pc, Incrementing)
    case ReadSecondAdmission => AtCheck(pc, SecondAdmission)
    case ReadSecondOwner => AtCheck(pc, SecondOwner)
    case AuthorizeSecond(_) => AtCheck(pc, SecondAuthorization)
  }

  /** A failed first check falls back to an SSE4.1 frame at once; a failed second check first
      gives its admission back. The authorization an executor computes without the guard lock
      is an arbitrary answer. */
  function ExecuteStep(m: Memory, t: nat, th: Thread, x: ExecuteOp): (r: (Memory, Thread))
    requires CanExecute(th.pc, x)
  {
    var fallback := (m, th.(pc := Ready, frames := th.frames + [Sse41]));
    var backOut := (m, th.(pc := Releasing(Subtracting, FallBack)));
    match x
    case Begin(w) => if IsWide(w) then (m, th.(pc := Checking(FirstOwner, w))) else fallback
    case ReadFirstOwner => if IsOwner(m, t) then (m, th.(pc := Checking(FirstAdmission, th.pc.w))) else fallback
    case ReadFirstAdmission => if m.admission then (m, th.(pc := Checking(FirstAuthorization, th.pc.w))) else fallback
    case AuthorizeFirst(ok) => if ok then (m, th.(pc := Checking(Incrementing, th.pc.w))) else fallback
    case Increment =>
      (m.(active := m.active + 1), th.(pc := Checking(SecondAdmission, th.pc.w), depth := th.depth + 1))
    case ReadSecondAdmission => if m.admission then (m, th.(pc := Checking(SecondOwner, th.pc.w))) else backOut
    case ReadSecondOwner => if IsOwner(m, t) then (m, th.(pc := Checking(SecondAuthorization, th.pc.w))) else backOut
    case AuthorizeSecond(ok) =>
      if ok then (m, th.(pc := Ready, frames := th.frames + [th.pc.w])) else backOut
  }

  function Resumed(th: Thread, after: Resume): (r: Thread) {
    match after
    case FallBack => th.(pc := Ready, frames := th.frames + [Sse41])
    case Continue => th.(pc := Ready)
    case KeepUnwinding => th.(pc := Unwinding)
  }

  /** The cleanup handler of the innermost frame: only a wide frame holds an admission. */
  function Popped(th: Thread, after: Resume): (r: Thread)
    requires th.frames != []
  {
    var rest := th.(frames := th.frames[..|th.frames| - 1]);
    if IsWide(th.frames[|th.frames| - 1]) then rest.(pc := Releasing(Subtracting, after)) else Resumed(rest, after)
  }

  predicate CanRelease(m: Memory, th: Thread, r: ReleaseOp) {
    match r
    case FinishKernel => th.pc.Ready? && th.frames != []
    case ExitThread => th.pc.Ready?
    case UnwindFrame => th.pc.Unwinding?
    case Subtract => AtRelease(th.pc, Subtracting)
    case Repair => AtRelease(th.pc, Repairing)
    case LockToNotify => AtRelease(th.pc, LockingToNotify) && m.drainLock.None?
    case Broadcast => AtRelease(th.pc, Broadcasting)
    case UnlockNotify => AtRelease(th.pc, UnlockingNotify)
  }

  function ReleaseStep(m: Memory, t: nat, th: Thread, r: ReleaseOp): (r': (Memory, Thread))
    requires CanRelease(m, th, r)
  {
    match r
    case FinishKernel => (m, Popped(th, Continue))
    case ExitThread => (m, th.(pc := Unwinding))
    case UnwindFrame => (m, if th.frames != [] then Popped(th, KeepUnwinding) else th.(pc := Terminated))
    case Subtract =>
      var shallower := th.(depth := if th.depth > 0 then th.depth - 1 else 0);
      if m.active == 0 then (m, shallower.(pc := Releasing(Repairing, th.pc.after)))
      else if m.active == 1 then (m.(active := 0), shallower.(pc := Releasing(LockingToNotify, th.pc.after)))
      else (m.(active := m.active - 1), Resumed(shallower, th.pc.after))
    case Repair => (m.(active := 0), Resumed(th, th.pc.after))
    case LockToNotify => (m.(drainLock := Some(t)), th.(pc := Releasing(Broadcasting, th.pc.after)))
    case Broadcast => (m, th.(pc := Releasing(UnlockingNotify, th.pc.after)))
    case UnlockNotify => (m.(drainLock := None), Resumed(th, th.pc.after))
  }

  /** Only a writer that holds the guard lock evaluates the authorization exactly; it may still
      be refused, never wrongly granted. `BareClose` is the close without the lock. */
  predicate CanWrite(m: Memory, pc: Pc, w: WriteOp) {
    match w
    case Enter => pc.Ready?
    case LockGuard => pc == Guarding(LockingGuard) && m.guardLock.None?
    case Close => pc == Guarding(Closing)
    case Publish(_) => pc == Guarding(Writing)
    case SetStopping(_) => pc == Guarding(Writing)
    case CloseForStop => pc == Guarding(StoppingClose)
    case SetOwner(_) => pc == Guarding(Writing)
    case Select(target) => pc == Guarding(Writing) && WidthAuthorized(target, m.stopping, m.guard, m.limits, m.now)
    case Leave => pc == Guarding(Writing)
    case Evaluate(ok) => pc == Guarding(Leaving) && (ok ==> WidthAuthorized(Avx2, m.stopping, m.guard, m.limits, m.now))
    case Store => pc.Guarding? && pc.write.Storing?
    case UnlockGuard => pc == Guarding(UnlockingGuard)
    case BareClose => pc.Ready?
  }

  function WriteStep(m: Memory, t: nat, th: Thread, w: WriteOp): (r: (Memory, Thread))
    requires CanWrite(m, th.pc, w)
  {
    match w
    case Enter => (m, th.(pc := Guarding(LockingGuard)))
    case LockGuard => (m.(guardLock := Some(t)), th.(pc := Guarding(Closing)))
    case Close => (m.(admission := false), th.(pc := Guarding(Writing)))
    case Publish(g) => (m.(guard := g), th)
    case SetStopping(on) => (m.(stopping := on), if on then th.(pc := Guarding(StoppingClose)) else th)
    case CloseForStop => (m.(admission := false), th.(pc := Guarding(Writing)))
    case SetOwner(tid) => (m.(owner := tid), th)
    case Select(target) => (m.(selection := target), th)
    case Leave => (m, th.(pc := Guarding(Leaving)))
    case Evaluate(ok) => (m, th.(pc := Guarding(Storing(ok))))
    case Store => (m.(admission := th.pc.write.reopen), th.(pc := Guarding(UnlockingGuard)))
    case UnlockGuard => (m.(guardLock := None), th.(pc := Ready))
    case BareClose => (m.(admission := false), th)
  }

  predicate CanDrain(m: Memory, pc: Pc, d: DrainOp) {
    match d
    case WaitQuiescence => pc.Ready?
    case LockDrain => pc == Draining(LockingDrain) && m.drainLock.None?
    case LoadActive => pc == Draining(Loading)
    case Sleep => pc == Draining(GoingToSleep)
    case Wake => pc == Draining(Asleep)
    case Reacquire => pc == Draining(Reacquiring) && m.drainLock.None?
    case UnlockDrain => pc == Draining(UnlockingDrain)
  }

  /** A thread inside a wide kernel is refused; `Wake` is a spurious wakeup. */
  function DrainStep(m: Memory, t: nat, th: Thread, d: DrainOp): (r: (Memory, Thread))
    requires CanDrain(m, th.pc, d)
  {
    match d
    case WaitQuiescence => (m, if th.depth != 0 then th else th.(pc := Draining(LockingDrain)))
    case LockDrain => (m.(drainLock := Some(t)), th.(pc := Draining(Loading)))
    case LoadActive => (m, th.(pc := Draining(if m.active != 0 then GoingToSleep else UnlockingDrain)))
    case Sleep => (m.(drainLock := None), th.(pc := Draining(Asleep)))
    case Wake => (m, th.(pc := Draining(Reacquiring)))
    case Reacquire => (m.(drainLock := Some(t)), th.(pc := Draining(Loading)))
    case UnlockDrain => (m.(drainLock := None), th.(pc := Ready))
  }

  predicate Can(m: Memory, th: Thread, op: Op) {
    match op
    case Execute(x) => CanExecute(th.pc, x)
    case Release(r) => CanRelease(m, th, r)
    case Write(w) => CanWrite(m, th.pc, w)
    case Drain(d) => CanDrain(m, th.pc, d)
  }

  function Local(m: Memory, t: nat, th: Thread, op: Op): (r: (Memory, Thread))
    requires Can(m, th, op)
  {
    match op
    case Execute(x) => ExecuteStep(m, t, th, x)
    case Release(r) => ReleaseStep(m, t, th, r)
    case Write(w) => WriteStep(m, t, th, w)
    case Drain(d) => DrainStep(m, t, th, d)
  }

  // ---------------------------------------------------------------- the interleaved system

  function Woken(th: Thread): (r: Thread) {
    if th.pc == Draining(Asleep) then th.(pc := Draining(Reacquiring)) else th
  }

  /** What a step of another thread does to a thread: only a broadcast touches it. */
  function Bystander(th: Thread, op: Op): (r: Thread) {
    if op == Release(Broadcast) then Woken(th) else th
  }

  predicate Enabled(s: State, e: Event) {
    e.ByThread? ==> e.t < |s.threads| && Can(s.m, s.threads[e.t], e.op)
  }

  function Step(s: State, e: Event): (s': State)
    requires Enabled(s, e)
  {
    match e
    case ByThread(t, op) =>
      var (m', th') := Local(s.m, t, s.threads[t], op);
      State(seq(|s.threads|, i requires 0 <= i < |s.threads| =>
                  if i == t then th' else Bystander(s.threads[i], op)), m')
    case Tick(ms) => s.(m := s.m.(now := s.m.now + ms))
    case Recapture(limits) => s.(m := s.m.(limits := limits))
    case Spawn => s.(threads := s.threads + [IDLE])
  }

  // ---------------------------------------------------------------- inductive invariant

  function WideCount(frames: seq<Width>): (n: nat) {
    if frames == [] then 0
    else WideCount(frames[..|frames| - 1]) + if IsWide(frames[|frames| - 1]) then 1 else 0
  }

  /** Between the increment and the matching decrement without a kernel frame. */
  predicate InFlight(pc: Pc) {
    match pc
    case Checking(check, _) => check.SecondAdmission? || check.SecondOwner? || check.SecondAuthorization?
    case Releasing(step, _) => step.Subtracting?
    case _ => false
  }

  /** The admissions a thread has not given back. */
  function Outstanding(th: Thread): (n: nat) {
    WideCount(th.frames) + if InFlight(th.pc) then 1 else 0
  }

  function TotalOutstanding(ts: seq<Thread>): (n: nat) {
    if ts == [] then 0 else TotalOutstanding(ts[..|ts| - 1]) + Outstanding(ts[|ts| - 1])
  }

  predicate HoldsGuard(pc: Pc) {
    pc.Guarding? && !pc.write.LockingGuard?
  }

  /** The part of a safety write in which admission is known to be closed. */
  predicate ClosedSection(pc: Pc) {
    pc.Guarding? && (pc.write.Writing? || pc.write.StoppingClose? || pc.write.Leaving? || pc.write.Storing?)
  }

  predicate HoldsDrain(pc: Pc) {
    match pc
    case Releasing(step, _) => step.Broadcasting? || step.UnlockingNotify?
    case Draining(drain) => drain.Loading? || drain.GoingToSleep? || drain.UnlockingDrain?
    case _ => false
  }

  predicate OwesBroadcast(pc: Pc) {
    AtRelease(pc, LockingToNotify) || AtRelease(pc, Broadcasting)
  }

  /** Asleep, or committed to sleeping by a nonzero load. */
  predicate Sleeping(pc: Pc) {
    pc == Draining(GoingToSleep) || pc == Draining(Asleep)
  }

  /** What holds of each thread against the shared flags and locks. */
  predicate Coherent(m: Memory, t: nat, pc: Pc) {
    && !AtRelease(pc, Repairing)
    && (pc.Checking? ==> IsWide(pc.w))
    && (HoldsGuard(pc) <==> m.guardLock == Some(t))
    && (HoldsDrain(pc) <==> m.drainLock == Some(t))
    && (ClosedSection(pc) ==> !m.admission)
    && (pc == Guarding(Storing(true)) ==> !m.stopping)
    && (pc == Guarding(StoppingClose) ==> m.stopping)
  }

  predicate ThreadInv(m: Memory, t: nat, th: Thread) {
    th.depth == Outstanding(th) && Coherent(m, t, th.pc) && (th.pc.Terminated? ==> th.frames == [])
  }

  predicate LockInRange(lock: Option<nat>, n: nat) {
    lock.Some? ==> lock.value < n
  }

  ghost predicate Accounted(s: State) {
    s.m.active == TotalOutstanding(s.threads)
  }

  ghost predicate SomeoneOwesBroadcast(ts: seq<Thread>) {
    exists i :: 0 <= i < |ts| && OwesBroadcast(ts[i].pc)
  }

  ghost predicate NoLostWakeup(s: State) {
    forall i :: 0 <= i < |s.threads| && Sleeping(s.threads[i].pc) && s.m.active == 0 ==>
      SomeoneOwesBroadcast(s.threads)
  }

  ghost predicate Inv(s: State) {
    && Accounted(s)
    && (forall i :: 0 <= i < |s.threads| ==> ThreadInv(s.m, i, s.threads[i]))
    && LockInRange(s.m.guardLock, |s.threads|)
    && LockInRange(s.m.drainLock, |s.threads|)
    && (s.m.stopping ==> !s.m.admission)
    && NoLostWakeup(s)
  }
}
