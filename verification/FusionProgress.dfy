/** What start, stop and the worker loop of the fusion worker achieve when no other thread
    interferes. */
module FusionProgress {

  import opened SimdWidth
  import opened FusionLifecycle

  /** The operations of thread t, one after the other, lead from (m, th) to (m', th'); a thread it
      creates gets the index newId. */
  predicate Does(m: Memory, t: nat, th: Thread, newId: nat, ops: seq<Op>, m': Memory, th': Thread)
    decreases |ops|
  {
    if ops == [] then m' == m && th' == th
    else
      && Can(m, th, ops[0])
      && var (m1, pc) := Local(m, t, th, ops[0], newId); Does(m1, t, th.(pc := pc), newId, ops[1..], m', th')
  }

  lemma DoesNothing(m: Memory, t: nat, th: Thread, newId: nat)
    ensures Does(m, t, th, newId, [], m, th)
  {
  }

  lemma DoesFirst(m: Memory, t: nat, th: Thread, newId: nat, op: Op, m1: Memory, pc1: Pc, ops: seq<Op>, m': Memory, th': Thread)
    requires Can(m, th, op) && Local(m, t, th, op, newId) == (m1, pc1) && Does(m1, t, th.(pc := pc1), newId, ops, m', th')
    ensures Does(m, t, th, newId, [op] + ops, m', th')
  {
    assert ([op] + ops)[1..] == ops;
  }

  /** Nobody holds the mutexes, stops or joins. */
  predicate Calm(m: Memory) {
    m.mutex.None? && m.wakeMutex.None? && m.joinOwner.None? && !m.notifyPending
  }

  // ---------------------------------------------------------------- start

  /** Main result: a start with no worker and no stop under way creates one and publishes it as running; when
      the thread cannot be created it leaves everything stopped. */
  lemma StartCreatesWorker(m: Memory, t: nat, th: Thread, newId: nat)
    requires th.pc == Base && Calm(m) && !m.running && m.stopCallers == 0 && m.thread.None?
    ensures Does(m, t, th, newId, [Start, Create(true), PublishStart],
              m.(running := true, thread := Some(newId), workerId := Some(newId), published := true), th)
    ensures Does(m, t, th, newId, [Start, Create(false), UndoStart], m.(workerId := None, published := false), th)
  {
    var held := m.(mutex := Some(t), running := true);
    var made := held.(thread := Some(newId), workerId := Some(newId));
    var end := m.(running := true, thread := Some(newId), workerId := Some(newId), published := true);
    DoesNothing(end, t, th, newId);
    DoesFirst(made, t, th.(pc := PublishingStart), newId, PublishStart, end, Base, [], end, th);
    DoesFirst(held, t, th.(pc := Creating), newId, Create(true), made, PublishingStart, [PublishStart], end, th);
    DoesFirst(m, t, th, newId, Start, held, Creating, [Create(true), PublishStart], end, th);
    var unmade := held.(workerId := None, running := false);
    var undone := m.(workerId := None, published := false);
    DoesNothing(undone, t, th, newId);
    DoesFirst(unmade, t, th.(pc := UndoingStart), newId, UndoStart, undone, Base, [], undone, th);
    DoesFirst(held, t, th.(pc := Creating), newId, Create(false), unmade, UndoingStart, [UndoStart], undone, th);
    DoesFirst(m, t, th, newId, Start, held, Creating, [Create(false), UndoStart], undone, th);
  }

  // ---------------------------------------------------------------- stop

  /** The part of a stop that clears running, notifies, and comes to its decision. */
  function Deciding(m: Memory, t: nat): (r: Memory) {
    m.(mutex := Some(t), stopCallers := m.stopCallers + 1, running := false, notifyPending := false)
  }

  lemma StopDecides(m: Memory, t: nat, th: Thread, newId: nat, rest: seq<Op>, m': Memory, th': Thread)
    requires th.pc == Base && m.mutex.None? && m.wakeMutex.None?
    requires Does(Deciding(m, t), t, th.(pc := Branching), newId, rest, m', th')
    ensures Does(m, t, th, newId, [Stop] + ([Store] + ([Notify] + rest)), m', th')
  {
    var entered := m.(mutex := Some(t), stopCallers := m.stopCallers + 1);
    var stored := entered.(running := false, notifyPending := true);
    DoesFirst(stored, t, th.(pc := Notifying), newId, Notify, Deciding(m, t), Branching, rest, m', th');
    DoesFirst(entered, t, th.(pc := Storing), newId, Store, stored, Notifying, [Notify] + rest, m', th');
    DoesFirst(m, t, th, newId, Stop, entered, Storing, [Store] + ([Notify] + rest), m', th');
  }

  /** Main result: a stop by another thread clears running, joins the worker if there is one, and leaves no
      worker behind and the published state stopped. */
  lemma ExternalStopLeavesNoWorker(m: Memory, t: nat, th: Thread, newId: nat) returns (ops: seq<Op>)
    requires th.pc == Base && Calm(m) && m.workerId != Some(t) && m.joinTarget.None?
    ensures Does(m, t, th, newId, ops, m.(running := false, thread := None, workerId := None, published := false), th)
    ensures m.thread.Some? <==> Join in ops
  {
    var end := m.(running := false, thread := None, workerId := None, published := false);
    var deciding, rest := Deciding(m, t), [Branch];
    DoesNothing(end, t, th, newId);
    if m.thread.None? {
      DoesFirst(deciding, t, th.(pc := Branching), newId, Branch, end, Base, [], end, th);
    } else {
      rest := JoinsWorker(m, t, th, newId, end);
    }
    StopDecides(m, t, th, newId, rest, end, th);
    ops := [Stop] + ([Store] + ([Notify] + rest));
  }

  lemma JoinsWorker(m: Memory, t: nat, th: Thread, newId: nat, end: Memory) returns (rest: seq<Op>)
    requires th.pc == Base && Calm(m) && m.workerId != Some(t) && m.joinTarget.None? && m.thread.Some?
    requires end == m.(running := false, thread := None, workerId := None, published := false)
    ensures Does(Deciding(m, t), t, th.(pc := Branching), newId, rest, end, th) && rest == [Branch, Join, Finish]
  {
    var w := m.thread.value;
    var joining := Deciding(m, t).(joinOwner := Some(t), joinTarget := m.thread, thread := None, mutex := None);
    var joined := joining.(joinTarget := None);
    DoesNothing(end, t, th, newId);
    DoesFirst(joined, t, th.(pc := Finishing), newId, Finish, end, Base, [], end, th);
    DoesFirst(joining, t, th.(pc := Joining(w)), newId, Join, joined, Finishing, [Finish], end, th);
    DoesFirst(Deciding(m, t), t, th.(pc := Branching), newId, Branch, joining, Joining(w), [Join, Finish], end, th);
    rest := [Branch, Join, Finish];
  }

  /** Main result: the worker's own stop clears running and the published state and leaves its own join to
      another caller. */
  lemma WorkerStopLeavesJoin(m: Memory, t: nat, th: Thread, newId: nat) returns (ops: seq<Op>)
    requires th.pc == Base && Calm(m) && m.workerId == Some(t) && m.thread.Some?
    ensures Does(m, t, th, newId, ops, m.(running := false, published := false), th)
  {
    var end := m.(running := false, published := false);
    DoesNothing(end, t, th, newId);
    DoesFirst(Deciding(m, t), t, th.(pc := Branching), newId, Branch, end, Base, [], end, th);
    StopDecides(m, t, th, newId, [Branch], end, th);
    ops := [Stop] + ([Store] + ([Notify] + [Branch]));
  }

  /** While another caller joins, a stop waits for it, except that the worker itself does not; the wait ends
      when that join does. */
  lemma StopDuringJoin(m: Memory, t: nat, th: Thread, newId: nat) returns (ops: seq<Op>)
    requires th.pc == Base && m.mutex.None? && m.wakeMutex.None? && m.joinOwner.Some? && !m.notifyPending
    ensures if m.workerId == Some(t) then Does(m, t, th, newId, ops, m.(running := false), th)
            else Does(m, t, th, newId, ops, m.(running := false, stopCallers := m.stopCallers + 1), th.(pc := WaitingForJoin))
  {
    var worker := m.workerId == Some(t);
    var end := if worker then m.(running := false) else m.(running := false, stopCallers := m.stopCallers + 1);
    var pc := if worker then Base else WaitingForJoin;
    DoesNothing(end, t, th.(pc := pc), newId);
    DoesFirst(Deciding(m, t), t, th.(pc := Branching), newId, Branch, end, pc, [], end, th.(pc := pc));
    StopDecides(m, t, th, newId, [Branch], end, th.(pc := pc));
    ops := [Stop] + ([Store] + ([Notify] + [Branch]));
  }

  lemma WaitEndsWithJoin(m: Memory, t: nat, th: Thread, newId: nat)
    requires th.pc == WaitingForJoin && m.mutex.None? && m.joinOwner.None? && m.stopCallers > 0
    ensures Does(m, t, th, newId, [FinishWait], m.(stopCallers := m.stopCallers - 1), th.(pc := Base))
  {
    var end := m.(stopCallers := m.stopCallers - 1);
    DoesNothing(end, t, th.(pc := Base), newId);
    DoesFirst(m, t, th, newId, FinishWait, end, Base, [], end, th.(pc := Base));
  }

  // ---------------------------------------------------------------- the worker

  /** Main result: a pass of the worker loop polls, publishes whether it is running and goes to sleep; once
      running is cleared it publishes that, does not sleep, and exits. */
  lemma WorkerPass(m: Memory, t: nat, th: Thread, newId: nat) returns (ops: seq<Op>)
    requires th.worker && th.pc == Base && m.wakeMutex.None?
    ensures if m.running then Does(m, t, th, newId, ops, m.(published := true), th.(pc := Asleep))
            else Does(m, t, th, newId, ops, m.(published := false), th.(pc := Exited))
  {
    var told := m.(published := m.running);
    var locked := told.(wakeMutex := Some(t));
    var last := if m.running then Asleep else Exited;
    var tail := if m.running then [Sleep] else [Loop];
    DoesNothing(told, t, th.(pc := last), newId);
    if m.running {
      DoesFirst(locked, t, th.(pc := GoingToSleep), newId, Sleep, told, Asleep, [], told, th.(pc := last));
      DoesFirst(locked, t, th.(pc := WakeChecking), newId, WakeCheck, locked, GoingToSleep, tail, told, th.(pc := last));
    } else {
      DoesFirst(told, t, th.(pc := Looping), newId, Loop, told, Exited, [], told, th.(pc := last));
      DoesFirst(locked, t, th.(pc := WakeChecking), newId, WakeCheck, told, Looping, tail, told, th.(pc := last));
    }
    ops := PassBegins(m, t, th, newId, [WakeCheck] + tail, told, th.(pc := last));
  }

  lemma PassBegins(m: Memory, t: nat, th: Thread, newId: nat, rest: seq<Op>, m': Memory, th': Thread) returns (ops: seq<Op>)
    requires th.worker && th.pc == Base && m.wakeMutex.None?
    requires Does(m.(published := m.running, wakeMutex := Some(t)), t, th.(pc := WakeChecking), newId, rest, m', th')
    ensures Does(m, t, th, newId, ops, m', th')
  {
    var told := m.(published := m.running);
    DoesFirst(told, t, th.(pc := WakeLocking), newId, WakeLock, told.(wakeMutex := Some(t)), WakeChecking, rest, m', th');
    DoesFirst(m, t, th.(pc := FusePublishing(m.running)), newId, FusePublish(true), told, WakeLocking, [WakeLock] + rest, m', th');
    DoesFirst(m, t, th.(pc := FuseReading), newId, FuseRead, m, FusePublishing(m.running),
      [FusePublish(true)] + ([WakeLock] + rest), m', th');
    DoesFirst(m, t, th, newId, PollDone, m, FuseReading,
      [FuseRead] + ([FusePublish(true)] + ([WakeLock] + rest)), m', th');
    ops := [PollDone] + ([FuseRead] + ([FusePublish(true)] + ([WakeLock] + rest)));
  }

  /** A sleeping worker that is notified or times out looks at running again: it polls on while it is set and
      exits when it is clear. */
  lemma WokenWorkerLooksAgain(m: Memory, t: nat, th: Thread, newId: nat)
    requires th.pc == Asleep
    ensures Does(m, t, th, newId, [Timeout, Loop], m, th.(pc := if m.running then Base else Exited))
    ensures Bystander(t, th, Notifying, Notify) == th.(pc := WakeLocking)
  {
    var end := th.(pc := if m.running then Base else Exited);
    DoesNothing(m, t, end, newId);
    DoesFirst(m, t, th.(pc := Looping), newId, Loop, m, end.pc, [], m, end);
    DoesFirst(m, t, th, newId, Timeout, m, Looping, [Loop], m, end);
  }
}
