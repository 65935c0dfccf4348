/**
 The public runtime lifecycle over the private one: start, stop, destroy and the queries of
 any number of threads, interleaved at the points where the public lock is not held.

 A critical section of the public lock is one step; everything between two sections (config
 snapshot publication, the private start and stop) is its own step. `fault` records that
 freed memory was dereferenced.
 */
module RuntimeHandles {

  import opened SimdWidth

  datatype Snapshot = Inactive | Publishing | Active

  /** A public handle. `freed` is the allocator's view, `returned` the caller's. */
  datatype Handle = Handle(impl: Option<nat>, generation: nat, stopped: bool, stopInProgress: bool, freed: bool, returned: bool)

  /** `impls[i]` says whether private runtime i is still allocated; `privateActive` is the
      private layer's own active pointer. */
  datatype Memory = Memory(
    active: Option<nat>,
    starting: bool,
    nextGeneration: nat,
    snapshot: Snapshot,
    handles: seq<Handle>,
    impls: seq<bool>,
    privateActive: Option<nat>,
    fault: bool)

  datatype Pc =
    | Idle
    | Reserving(h: nat)
    | Activating(h: nat) | PublishingSnapshot(h: nat) | StartingPrivate(h: nat)
    | Deactivating(h: nat) | Aborting(h: nat) | Committing(h: nat, impl: nat)
    | StoppingPrivate(h: nat, impl: nat) | FinishingStop(h: nat, stopped: bool)
    | Freeing(h: nat)

  datatype Op =
    | Allocate | Reserve | Activate(valid: bool) | PublishSnapshot | StartPrivate(ok: bool)
    | Deactivate | Abort | Commit
    | Inspect(h: nat)
    | BeginStop(h: nat) | TouchPrivate | StopPrivate(ok: bool) | FinishStop
    | Destroy(h: nat) | Free

  datatype State = State(threads: seq<Pc>, m: Memory)

  datatype Event = Event(t: nat, op: Op)

  const NEW_HANDLE := Handle(None, 0, false, false, false, false)

  const U64_MODULUS: nat := 0x1_0000_0000_0000_0000

  predicate Init(s: State) {
    && (forall t :: 0 <= t < |s.threads| ==> s.threads[t].Idle?)
    && s.m == Memory(None, false, 1, Inactive, [], [], None, false)
  }

  // ---------------------------------------------------------------- steps

  /** Generation numbers wrap past the largest 64-bit value to 1, never to 0. */
  function NextGeneration(g: nat): (r: nat) {
    if (g + 1) % U64_MODULUS == 0 then 1 else (g + 1) % U64_MODULUS
  }

  function SetHandle(m: Memory, h: nat, handle: Handle): (r: Memory)
    requires h < |m.handles|
  {
    m.(handles := m.handles[h := handle])
  }

  predicate ImplLive(m: Memory, i: nat) {
    i < |m.impls| && m.impls[i]
  }

  /** Reading a handle's fields after it was freed. */
  predicate HandleFault(m: Memory, h: nat) {
    h >= |m.handles| || m.handles[h].freed
  }

  /** The guard shared by request_stop, is_running and perf_mode: the pointer comparison comes
      first, so a stale handle is never dereferenced. */
  predicate MayUseImpl(m: Memory, h: nat) {
    && m.active == Some(h) && h < |m.handles|
    && !m.handles[h].stopped && !m.handles[h].stopInProgress && m.handles[h].impl.Some?
  }

  function InspectStep(m: Memory, h: nat): (r: Memory) {
    if m.active != Some(h) then m
    else if HandleFault(m, h) then m.(fault := true)
    else if MayUseImpl(m, h) && !ImplLive(m, m.handles[h].impl.value) then m.(fault := true)
    else m
  }

  function BeginStopStep(m: Memory, h: nat): (r: (Memory, Pc)) {
    if m.active != Some(h) then (m, Idle)
    else if HandleFault(m, h) then (m.(fault := true), Idle)
    else
      var handle := m.handles[h];
      if handle.stopped || handle.impl.None? || handle.stopInProgress then (m, Idle)
      else (SetHandle(m, h, handle.(stopInProgress := true)), StoppingPrivate(h, handle.impl.value))
  }

  function FinishStopStep(m: Memory, h: nat, stopped: bool): (r: Memory)
    requires h < |m.handles|
  {
    var handle := m.handles[h];
    if handle.freed then m.(fault := true)
    else if stopped then
      SetHandle(m, h, handle.(impl := None, stopped := true, stopInProgress := false)).(active := None, snapshot := Inactive)
    else SetHandle(m, h, handle.(stopInProgress := false))
  }

  function DestroyStep(m: Memory, h: nat): (r: (Memory, Pc)) {
    if m.active == Some(h) then (m, Idle)
    else if HandleFault(m, h) then (m.(fault := true), Idle)
    else
      var handle := m.handles[h];
      if handle.stopInProgress || !handle.stopped || handle.impl.Some? then (m, Idle) else (m, Freeing(h))
  }

  function CommitStep(m: Memory, h: nat, impl: nat): (r: Memory)
    requires h < |m.handles|
  {
    var handle := Handle(Some(impl), m.nextGeneration, false, false, m.handles[h].freed, true);
    SetHandle(m, h, handle).(nextGeneration := NextGeneration(m.nextGeneration), active := Some(h), starting := false)
  }

  predicate Can(m: Memory, pc: Pc, op: Op) {
    match op
    case Allocate => pc.Idle?
    case Reserve => pc.Reserving? && pc.h < |m.handles|
    case Activate(_) => pc.Activating?
    case PublishSnapshot => pc.PublishingSnapshot?
    case StartPrivate(ok) => pc.StartingPrivate? && (ok ==> m.privateActive.None?)
    case Deactivate => pc.Deactivating?
    case Abort => pc.Aborting? && pc.h < |m.handles|
    case Commit => pc.Committing? && pc.h < |m.handles|
    case Inspect(_) => pc.Idle?
    case BeginStop(_) => pc.Idle?
    case TouchPrivate => pc.StoppingPrivate?
    case StopPrivate(_) => pc.StoppingPrivate? && pc.impl < |m.impls|
    case FinishStop => pc.FinishingStop? && pc.h < |m.handles|
    case Destroy(h) => pc.Idle? && h < |m.handles|
    case Free => pc.Freeing? && pc.h < |m.handles|
  }

  /** A private start refuses while the private layer has an active runtime, and a private stop
      either frees its runtime or keeps it; the snapshot is claimed by compare-and-swap. */
  function Local(m: Memory, pc: Pc, op: Op): (r: (Memory, Pc))
    requires Can(m, pc, op)
  {
    match op
    case Allocate => (m.(handles := m.handles + [NEW_HANDLE]), Reserving(|m.handles|))
    case Reserve =>
      if m.active.Some? || m.starting || m.snapshot.Active?
      then (SetHandle(m, pc.h, m.handles[pc.h].(freed := true)), Idle)
      else (m.(starting := true), Activating(pc.h))
    case Activate(valid) =>
      if valid && m.snapshot.Inactive? then (m.(snapshot := Publishing), PublishingSnapshot(pc.h)) else (m, Aborting(pc.h))
    case PublishSnapshot => (m.(snapshot := Active), StartingPrivate(pc.h))
    case StartPrivate(ok) =>
      if ok
      then (m.(impls := m.impls + [true], privateActive := Some(|m.impls|)), Committing(pc.h, |m.impls|))
      else (m, Deactivating(pc.h))
    case Deactivate => (m.(snapshot := Inactive), Aborting(pc.h))
    case Abort => (SetHandle(m, pc.h, m.handles[pc.h].(freed := true)).(starting := false), Idle)
    case Commit => (CommitStep(m, pc.h, pc.impl), Idle)
    case Inspect(h) => (InspectStep(m, h), Idle)
    case BeginStop(h) => BeginStopStep(m, h)
    case TouchPrivate => (if ImplLive(m, pc.impl) then m else m.(fault := true), pc)
    case StopPrivate(ok) =>
      if !ImplLive(m, pc.impl) then (m.(fault := true), FinishingStop(pc.h, false))
      else if ok then (m.(impls := m.impls[pc.impl := false], privateActive := None), FinishingStop(pc.h, true))
      else (m, FinishingStop(pc.h, false))
    case FinishStop => (FinishStopStep(m, pc.h, pc.stopped), Idle)
    case Destroy(h) => DestroyStep(m, h)
    case Free => (SetHandle(m, pc.h, m.handles[pc.h].(freed := true)), Idle)
  }

  /** The caller's obligation: destroy is called on a handle a start returned, not after it was
      destroyed and not twice at once. Every other call may be given any handle, even a
      destroyed one. */
  ghost predicate CallerAllows(s: State, op: Op) {
    op.Destroy? ==>
      && op.h < |s.m.handles| && s.m.handles[op.h].returned && !s.m.handles[op.h].freed
      && forall t :: 0 <= t < |s.threads| ==> s.threads[t] != Freeing(op.h)
  }

  ghost predicate Enabled(s: State, e: Event) {
    e.t < |s.threads| && Can(s.m, s.threads[e.t], e.op) && CallerAllows(s, e.op)
  }

  ghost function Step(s: State, e: Event): (s': State)
    requires Enabled(s, e)
  {
    var (m', pc') := Local(s.m, s.threads[e.t], e.op);
    State(s.threads[e.t := pc'], m')
  }

  // ---------------------------------------------------------------- inductive invariant

  predicate InStart(pc: Pc) {
    || pc.Activating? || pc.PublishingSnapshot? || pc.StartingPrivate? || pc.Deactivating?
    || pc.Aborting? || pc.Committing?
  }

  predicate InStop(pc: Pc) {
    pc.StoppingPrivate? || pc.FinishingStop?
  }

  /** Two threads are never in the same phase of one handle, nor both starting or both stopping. */
  predicate Compatible(p: Pc, q: Pc) {
    && !(InStart(p) && InStart(q))
    && !(InStop(p) && InStop(q))
    && ((InStart(p) || p.Reserving?) && (InStart(q) || q.Reserving?) ==> p.h != q.h)
    && (p.Freeing? && q.Freeing? ==> p.h != q.h)
  }

  predicate Unpublished(m: Memory, h: nat) {
    h < |m.handles| && m.handles[h] == NEW_HANDLE
  }

  predicate PcInv(m: Memory, pc: Pc) {
    match pc
    case Idle => true
    case Reserving(h) => Unpublished(m, h)
    case Activating(h) => Unpublished(m, h) && m.starting && m.snapshot.Inactive? && m.privateActive.None?
    case PublishingSnapshot(h) => Unpublished(m, h) && m.starting && m.snapshot.Publishing? && m.privateActive.None?
    case StartingPrivate(h) => Unpublished(m, h) && m.starting && m.snapshot.Active? && m.privateActive.None?
    case Deactivating(h) => Unpublished(m, h) && m.starting && m.privateActive.None?
    case Aborting(h) => Unpublished(m, h) && m.starting && m.snapshot.Inactive? && m.privateActive.None?
    case Committing(h, i) => Unpublished(m, h) && m.starting && m.snapshot.Active? && m.privateActive == Some(i)
    case StoppingPrivate(h, i) => Claimed(m, h) && m.handles[h].impl == Some(i) && m.privateActive == Some(i)
    case FinishingStop(h, stopped) =>
      && Claimed(m, h)
      && (if stopped then m.privateActive.None? else m.privateActive == m.handles[h].impl)
    case Freeing(h) => Inert(m, h) && !m.handles[h].freed
  }

  /** The active handle, with a stop of it in progress. */
  predicate Claimed(m: Memory, h: nat) {
    m.active == Some(h) && h < |m.handles| && m.handles[h].stopInProgress
  }

  /** A handle whose runtime has been stopped. */
  predicate Inert(m: Memory, h: nat) {
    && h < |m.handles| && m.active != Some(h)
    && m.handles[h].returned && m.handles[h].stopped && m.handles[h].impl.None? && !m.handles[h].stopInProgress
  }

  predicate HandleInv(m: Memory, h: nat)
    requires h < |m.handles|
  {
    var x := m.handles[h];
    if m.active == Some(h) then x.returned && !x.freed && !x.stopped && x.impl.Some?
    else if x.returned then Inert(m, h)
    else x == NEW_HANDLE.(freed := x.freed)
  }

  predicate FlagsInv(m: Memory) {
    && !m.fault
    && (m.active.Some? ==> m.active.value < |m.handles| && !m.starting && m.snapshot.Active?)
    && (m.active.None? && !m.starting ==> m.snapshot.Inactive? && m.privateActive.None?)
    && (m.privateActive.Some? ==> m.privateActive.value < |m.impls|)
    && (m.active.Some? && !m.handles[m.active.value].stopInProgress ==> m.privateActive == m.handles[m.active.value].impl)
  }

  ghost predicate MemoryInv(m: Memory) {
    && FlagsInv(m)
    && (forall i :: 0 <= i < |m.impls| ==> (m.impls[i] <==> m.privateActive == Some(i)))
    && (forall h :: 0 <= h < |m.handles| ==> HandleInv(m, h))
  }

  ghost predicate Inv(s: State) {
    && MemoryInv(s.m)
    && (forall t :: 0 <= t < |s.threads| ==> PcInv(s.m, s.threads[t]))
    && (forall t, u :: 0 <= t < |s.threads| && 0 <= u < |s.threads| && t != u ==> Compatible(s.threads[t], s.threads[u]))
  }

  /** A step leaves every handle either as it was or in the state its call puts it in. */
  lemma LocalKeepsHandles(m: Memory, pc: Pc, op: Op, h: nat)
    requires PcInv(m, pc) && Can(m, pc, op) && !m.fault
    requires m.active.Some? ==> m.active.value < |m.handles| && !m.starting && HandleInv(m, m.active.value)
    requires h < |m.handles| ==> HandleInv(m, h)
    requires h < |Local(m, pc, op).0.handles|
    ensures HandleInv(Local(m, pc, op).0, h)
  {
    match op
    case FinishStop => assert m.active == Some(pc.h);
    case BeginStop(g) => assert m.active == Some(g) || Local(m, pc, op).0 == m;
    case _ =>
  }

  lemma LocalNeverFaults(m: Memory, pc: Pc, op: Op)
    requires MemoryInv(m) && PcInv(m, pc) && Can(m, pc, op)
    requires op.Destroy? ==> m.handles[op.h].returned && !m.handles[op.h].freed
    ensures !Local(m, pc, op).0.fault
  {
    assert m.active.Some? ==> HandleInv(m, m.active.value);
    assert m.privateActive.Some? ==> m.impls[m.privateActive.value];
  }

  lemma LocalKeepsMemory(m: Memory, pc: Pc, op: Op)
    requires MemoryInv(m) && PcInv(m, pc) && Can(m, pc, op)
    requires op.Destroy? ==> m.handles[op.h].returned && !m.handles[op.h].freed
    ensures MemoryInv(Local(m, pc, op).0)
  {
    var m' := Local(m, pc, op).0;
    LocalNeverFaults(m, pc, op);
    forall h | 0 <= h < |m'.handles| ensures HandleInv(m', h) {
      assert h < |m.handles| ==> HandleInv(m, h);
      assert m.active.Some? ==> HandleInv(m, m.active.value);
      LocalKeepsHandles(m, pc, op, h);
    }
  }

  lemma LocalKeepsOwn(m: Memory, pc: Pc, op: Op)
    requires MemoryInv(m) && PcInv(m, pc) && Can(m, pc, op)
    requires op.Destroy? ==> m.handles[op.h].returned && !m.handles[op.h].freed
    ensures PcInv(Local(m, pc, op).0, Local(m, pc, op).1)
  {
  }

  lemma LocalKeepsOther(m: Memory, pc: Pc, op: Op, other: Pc)
    requires FlagsInv(m) && PcInv(m, pc) && Can(m, pc, op) && PcInv(m, other)
    requires Compatible(pc, other)
    requires op.Destroy? ==> m.handles[op.h].returned && !m.handles[op.h].freed && other != Freeing(op.h)
    ensures PcInv(Local(m, pc, op).0, other)
  {
  }

  lemma LocalKeepsCompatible(m: Memory, pc: Pc, op: Op, other: Pc)
    requires FlagsInv(m) && PcInv(m, pc) && Can(m, pc, op) && PcInv(m, other)
    requires Compatible(pc, other)
    requires op.Destroy? ==> other != Freeing(op.h)
    ensures Compatible(Local(m, pc, op).1, other)
  {
  }

  lemma InvPreserved(s: State, e: Event)
    requires Inv(s) && Enabled(s, e)
    ensures Inv(Step(s, e))
  {
    var s' := Step(s, e);
    LocalKeepsMemory(s.m, s.threads[e.t], e.op);
    LocalKeepsOwn(s.m, s.threads[e.t], e.op);
    forall u | 0 <= u < |s.threads| && u != e.t
      ensures PcInv(s'.m, s'.threads[u]) && Compatible(s'.threads[e.t], s'.threads[u])
    {
      LocalKeepsOther(s.m, s.threads[e.t], e.op, s.threads[u]);
      LocalKeepsCompatible(s.m, s.threads[e.t], e.op, s.threads[u]);
    }
    assert forall p, q :: Compatible(p, q) ==> Compatible(q, p);
  }

  // ---------------------------------------------------------------- runs

  datatype Run = Run(states: seq<State>, events: seq<Event>)

  ghost predicate IsRun(r: Run) {
    && |r.states| == |r.events| + 1
    && Init(r.states[0])
    && forall k :: 0 <= k < |r.events| ==> Enabled(r.states[k], r.events[k]) && r.states[k + 1] == Step(r.states[k], r.events[k])
  }

  lemma {:induction false} RunInv(r: Run, k: nat)
    requires IsRun(r) && k < |r.states|
    ensures Inv(r.states[k])
  {
    if k > 0 {
      RunInv(r, k - 1);
      InvPreserved(r.states[k - 1], r.events[k - 1]);
    }
  }

  /** Main result: at most one generation is starting or active, at most one private runtime is
      allocated, and the configuration snapshot is published whenever a handle is active. */
  lemma OneGenerationAtATime(r: Run, k: nat)
    requires IsRun(r) && k < |r.states|
    ensures var m := r.states[k].m;
            && !(m.starting && m.active.Some?)
            && (m.active.Some? ==> m.snapshot == Active)
            && (forall i, j :: 0 <= i < j < |m.impls| ==> !(m.impls[i] && m.impls[j]))
    ensures var ts := r.states[k].threads;
            forall t, u :: 0 <= t < u < |ts| ==> !(InStart(ts[t]) && InStart(ts[u])) && !(InStop(ts[t]) && InStop(ts[u]))
  {
    RunInv(r, k);
    var ts := r.states[k].threads;
    assert forall t, u :: 0 <= t < u < |ts| ==> Compatible(ts[t], ts[u]);
  }

  /** Main result: no call ever dereferences a freed handle or a freed private runtime, even
      when it is handed a destroyed handle. */
  lemma NoUseAfterFree(r: Run, k: nat)
    requires IsRun(r) && k < |r.states|
    ensures !r.states[k].m.fault
  {
    RunInv(r, k);
  }

  /** The branches that report a busy snapshot or a busy private layer during a reserved start
      are unreachable: once reserved, a start fails only for its own reasons. */
  lemma ReservedStartIsNeverBusy(r: Run, k: nat, t: nat)
    requires IsRun(r) && k < |r.states| && t < |r.states[k].threads|
    ensures r.states[k].threads[t].Activating? ==> r.states[k].m.snapshot.Inactive?
    ensures r.states[k].threads[t].StartingPrivate? ==> r.states[k].m.privateActive.None?
  {
    RunInv(r, k);
    assert PcInv(r.states[k].m, r.states[k].threads[t]);
  }

  predicate CallOn(op: Op, h: nat) {
    (op.Inspect? && op.h == h) || (op.BeginStop? && op.h == h) || (op.Destroy? && op.h == h)
  }

  /** Main result: a stopped handle never touches a later generation. Every call on it leaves
      all shared state as it is, and freeing it changes that handle alone. */
  lemma StoppedHandleIsInert(r: Run, k: nat, h: nat)
    requires IsRun(r) && k < |r.events|
    requires h < |r.states[k].m.handles| && r.states[k].m.handles[h].stopped
    ensures CallOn(r.events[k].op, h) ==> r.states[k + 1].m == r.states[k].m
    ensures r.events[k].op.Free? && r.states[k].threads[r.events[k].t] == Freeing(h) ==>
      r.states[k + 1].m == r.states[k].m.(handles := r.states[k].m.handles[h := r.states[k].m.handles[h].(freed := true)])
  {
    RunInv(r, k);
    assert HandleInv(r.states[k].m, h);
  }

  predicate Stopped(s: State, h: nat) {
    h < |s.m.handles| && s.m.handles[h].stopped
  }

  lemma StoppedStaysStopped(r: Run, k: nat, h: nat)
    requires IsRun(r) && k < |r.events| && Stopped(r.states[k], h)
    ensures Stopped(r.states[k + 1], h)
  {
    RunInv(r, k);
    var s := r.states[k];
    assert HandleInv(s.m, h) && PcInv(s.m, s.threads[r.events[k].t]);
  }

  /** Once stopped, a handle stays stopped and is never active again. */
  lemma {:induction false} StoppedForever(r: Run, j: nat, k: nat, h: nat)
    requires IsRun(r) && j <= k < |r.states| && Stopped(r.states[j], h)
    ensures Stopped(r.states[k], h)
    ensures r.states[k].m.active != Some(h)
    decreases k
  {
    if j < k {
      StoppedForever(r, j, k - 1, h);
      StoppedStaysStopped(r, k - 1, h);
    }
    assert r.states[k].m.active != Some(h) by {
      RunInv(r, k);
      assert HandleInv(r.states[k].m, h);
    }
  }

  /** A failed stop keeps the handle active, so destroy keeps answering busy until a stop
      succeeds. */
  lemma ActiveHandleIsUndestroyable(r: Run, k: nat, h: nat)
    requires IsRun(r) && k < |r.events| && r.states[k].m.active == Some(h)
    ensures r.states[k + 1].m.active == Some(h) || r.states[k].threads[r.events[k].t] == FinishingStop(h, true)
    ensures h < |r.states[k + 1].m.handles| && !r.states[k + 1].m.handles[h].freed
  {
    RunInv(r, k);
    RunInv(r, k + 1);
    assert HandleInv(r.states[k].m, h) && PcInv(r.states[k].m, r.states[k].threads[r.events[k].t]);
  }
}
