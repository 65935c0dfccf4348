/**
 The private runtime's stop: a sequence of fallible stages that keeps a retryable, still
 installed runtime until every stage has succeeded.

 Faults of the outside world (guard lock, monitor join, quiescence wait, selector, final guard
 lock) are inputs of an attempt, and so are the selections other threads request while the
 attempt holds no lock.
 */
module PrivateStop {

  import opened SimdWidth

  /** One call of stop and what happens around it. `before` are the selections other threads request
      since the previous attempt, `between` those up to the selector stage, `late` those up to the
      final guard acquisition. */
  datatype Attempt = Attempt(
    inWideKernel: bool,
    guardFault: bool,
    joinFault: bool,
    quiescenceFault: bool,
    selectorFault: bool,
    finalGuardFault: bool,
    before: seq<Width>,
    between: seq<Width>,
    late: seq<Width>)

  datatype Lifecycle = Lifecycle(
    installed: bool,
    live: bool,
    stopInProgress: bool,
    monitorStarted: bool,
    perfPresent: bool,
    stopping: bool,
    running: bool,
    ownerTid: nat,
    selection: Width,
    joins: nat,
    cleanups: nat)

  predicate FaultFree(a: Attempt) {
    !a.inWideKernel && !a.guardFault && !a.joinFault && !a.quiescenceFault && !a.selectorFault && !a.finalGuardFault
  }

  /** The selections requested by other threads: a wide one is refused while stopping is set. */
  function Requested(selection: Width, stopping: bool, requests: seq<Width>): (r: Width)
    ensures stopping && selection == Sse41 ==> r == Sse41
    decreases requests
  {
    if requests == [] then selection
    else
      var w := requests[0];
      Requested(if IsWide(w) && stopping then selection else w, stopping, requests[1..])
  }

  class PrivateRuntime {
    var installed: bool
    var live: bool
    var stopInProgress: bool
    var monitorStarted: bool
    var perfPresent: bool
    var stopping: bool
    var running: bool
    var ownerTid: nat
    var selection: Width
    var joins: nat
    var cleanups: nat

    function View(): (v: Lifecycle)
      reads this
    {
      Lifecycle(installed, live, stopInProgress, monitorStarted, perfPresent, stopping, running,
                ownerTid, selection, joins, cleanups)
    }

    /** A runtime that has just been started by thread `owner`. */
    constructor (owner: nat)
      requires owner > 0
      ensures View() == Lifecycle(true, true, false, true, true, false, true, owner, Sse41, 0, 0)
    {
      installed, live, stopInProgress := true, true, false;
      monitorStarted, perfPresent := true, true;
      stopping, running, ownerTid := false, true, owner;
      selection, joins, cleanups := Sse41, 0, 0;
    }

    method OtherThreadsSelect(requests: seq<Width>)
      modifies this`selection
      ensures selection == Requested(old(selection), stopping, requests)
    {
      var i := 0;
      while i < |requests|
        invariant 0 <= i <= |requests|
        invariant Requested(selection, stopping, requests[i..]) == Requested(old(selection), stopping, requests)
      {
        if !(IsWide(requests[i]) && stopping) {
          selection := requests[i];
        }
        assert requests[i..][1..] == requests[i + 1..];
        i := i + 1;
      }
    }

    method Stop(a: Attempt) returns (ok: bool)
      modifies this
      ensures (View(), ok) == StopOnce(old(View()), a)
    {
      if !installed {
        return false;
      }
      OtherThreadsSelect(a.before);
      if a.inWideKernel || stopInProgress || a.guardFault {
        return false;
      }
      ok := StopInstalled(a);
    }

    /** The stages of an attempt that has passed the guard lock. */
    method StopInstalled(a: Attempt) returns (ok: bool)
      modifies this
      ensures (View(), ok) == StopStages(old(View()), a)
    {
      stopInProgress := true;
      stopping := true;
      running := false;
      OtherThreadsSelect(a.between);

      ok := JoinMonitor(a);
      if ok {
        ok := DrainAndSelect(a);
      }
      if ok {
        OtherThreadsSelect(a.late);
        ok := CleanUpAndRelease(a);
      }
      if !ok {
        stopInProgress := false;
      }
    }

    /** Join the monitor unless an earlier attempt already has. */
    method JoinMonitor(a: Attempt) returns (ok: bool)
      modifies this`monitorStarted, this`joins
      ensures ok <==> !(old(monitorStarted) && a.joinFault)
      ensures View() == AfterJoin(old(View()), a)
    {
      if !monitorStarted {
        return true;
      }
      if a.joinFault {
        return false;
      }
      joins := joins + 1;
      monitorStarted := false;
      return true;
    }

    /** Drain the admitted wide kernels and commit SSE4.1. */
    method DrainAndSelect(a: Attempt) returns (ok: bool)
      modifies this`selection
      ensures ok <==> !a.quiescenceFault && !(old(selection) != Sse41 && a.selectorFault)
      ensures selection == if ok then Sse41 else old(selection)
    {
      if a.quiescenceFault {
        return false;
      }
      if selection != Sse41 && a.selectorFault {
        return false;
      }
      selection := Sse41;
      return true;
    }

    /** Perf cleanup comes before the final guard acquisition, which may still fail. */
    method CleanUpAndRelease(a: Attempt) returns (ok: bool)
      modifies this
      ensures ok <==> !a.finalGuardFault
      ensures View() == if ok then Released(CleanedUp(old(View()))) else CleanedUp(old(View()))
    {
      if perfPresent {
        cleanups := cleanups + 1;
        perfPresent := false;
      }
      if a.finalGuardFault {
        return false;
      }
      ownerTid := 0;
      installed := false;
      live := false;
      stopping := false;
      return true;
    }
  }

  // ---------------------------------------------------------------- specification

  predicate JoinDrainAndSelectSucceed(v: Lifecycle, a: Attempt) {
    && !(v.monitorStarted && a.joinFault)
    && !a.quiescenceFault
    && !(v.selection != Sse41 && a.selectorFault)
  }

  function AfterJoin(v: Lifecycle, a: Attempt): (r: Lifecycle) {
    if v.monitorStarted && !a.joinFault then v.(joins := v.joins + 1, monitorStarted := false) else v
  }

  function CleanedUp(v: Lifecycle): (r: Lifecycle) {
    if v.perfPresent then v.(cleanups := v.cleanups + 1, perfPresent := false) else v
  }

  function Released(v: Lifecycle): (r: Lifecycle) {
    v.(ownerTid := 0, installed := false, live := false, stopping := false)
  }

  function StopOnce(v: Lifecycle, a: Attempt): (r: (Lifecycle, bool)) {
    if !v.installed then (v, false)
    else
      var u := v.(selection := Requested(v.selection, v.stopping, a.before));
      if a.inWideKernel || v.stopInProgress || a.guardFault then (u, false) else StopStages(u, a)
  }

  function StopStages(v: Lifecycle, a: Attempt): (r: (Lifecycle, bool)) {
    var begun := v.(stopInProgress := true, stopping := true, running := false,
                    selection := Requested(v.selection, true, a.between));
    if !JoinDrainAndSelectSucceed(begun, a) then (AfterJoin(begun, a).(stopInProgress := false), false)
    else
      var cleaned := CleanedUp(AfterJoin(begun, a).(selection := Requested(Sse41, true, a.late)));
      if a.finalGuardFault then (cleaned.(stopInProgress := false), false) else (Released(cleaned), true)
  }

  /** A runtime that can be stopped: each resource is either held or has been given up once. */
  predicate Stoppable(v: Lifecycle) {
    && v.installed && v.live && !v.stopInProgress
    && v.joins == (if v.monitorStarted then 0 else 1)
    && v.cleanups == (if v.perfPresent then 0 else 1)
  }

  /** The end of a successful stop. */
  predicate CleanlyStopped(v: Lifecycle) {
    && !v.installed && !v.live && v.joins == 1 && v.cleanups == 1 && v.ownerTid == 0
    && v.selection == Sse41 && !v.stopping && !v.running
  }

  function StopMany(v: Lifecycle, attempts: seq<Attempt>): (r: Lifecycle) {
    if attempts == [] then v else StopOnce(StopMany(v, attempts[..|attempts| - 1]), attempts[|attempts| - 1]).0
  }

  function Succeeds(v: Lifecycle, a: Attempt): (ok: bool) {
    StopOnce(v, a).1
  }

  /** An attempt on a stoppable runtime either fails and leaves it stoppable, or succeeds and
      leaves it cleanly stopped; it succeeds when nothing goes wrong. */
  lemma OneAttempt(v: Lifecycle, a: Attempt)
    requires Stoppable(v)
    ensures !Succeeds(v, a) ==> Stoppable(StopOnce(v, a).0)
    ensures Succeeds(v, a) ==> CleanlyStopped(StopOnce(v, a).0)
    ensures FaultFree(a) ==> Succeeds(v, a)
  {
  }

  /** What requests leave selected: while stopping is set only an SSE4.1 request counts, otherwise the
      last one does. */
  lemma {:induction false} RequestedExactly(selection: Width, stopping: bool, requests: seq<Width>)
    ensures stopping ==> Requested(selection, stopping, requests) == if Sse41 in requests then Sse41 else selection
    ensures !stopping ==> Requested(selection, stopping, requests) == if requests == [] then selection else requests[|requests| - 1]
    decreases requests
  {
    if requests != [] {
      var w := requests[0];
      RequestedExactly(if IsWide(w) && stopping then selection else w, stopping, requests[1..]);
      assert requests == [w] + requests[1..];
    }
  }

  /** The selection the selector stage finds: the last one requested before stopping was set, unless
      SSE4.1 has been requested since. */
  function SelectedAtStop(v: Lifecycle, a: Attempt): (w: Width) {
    if Sse41 in a.between then Sse41 else SelectedBefore(v, a)
  }

  function SelectedBefore(v: Lifecycle, a: Attempt): (w: Width) {
    if v.stopping then (if Sse41 in a.before then Sse41 else v.selection)
    else if a.before == [] then v.selection else a.before[|a.before| - 1]
  }

  /** The guard lock was not reached: the call comes from a wide kernel or the lock failed. */
  predicate Refused(a: Attempt) {
    a.inWideKernel || a.guardFault
  }

  /** A stage before the final guard failed: an unjoined monitor, the drain, or the selector at a wide
      selection. */
  predicate StageFails(v: Lifecycle, a: Attempt) {
    || (v.monitorStarted && a.joinFault) || a.quiescenceFault
    || (a.selectorFault && SelectedAtStop(v, a) != Sse41)
  }

  /** Main result: an attempt on a stoppable runtime succeeds exactly when it is not refused, no stage
      fails and the final guard lock is taken; and what each kind of failure leaves behind. */
  lemma SucceedsExactlyWhen(v: Lifecycle, a: Attempt)
    requires Stoppable(v)
    ensures Succeeds(v, a) <==> !Refused(a) && !StageFails(v, a) && !a.finalGuardFault
    ensures var u := StopOnce(v, a).0;
            && (Refused(a) ==> u == v.(selection := SelectedBefore(v, a)))
            && (!Refused(a) && !Succeeds(v, a) ==>
                  && u.stopping && !u.running && u.live && u.ownerTid == v.ownerTid
                  && (u.monitorStarted <==> v.monitorStarted && a.joinFault)
                  && (u.perfPresent <==> v.perfPresent && StageFails(v, a))
                  && u.selection == if StageFails(v, a) then SelectedAtStop(v, a) else Sse41)
  {
    RequestedExactly(v.selection, v.stopping, a.before);
    RequestedExactly(Requested(v.selection, v.stopping, a.before), true, a.between);
    RequestedExactly(Sse41, true, a.late);
  }

  /** Main result: after any number of failed attempts the runtime is still installed
      and stoppable, and the next attempt without a fault stops it cleanly: monitor
      joined once, perf cleaned up once, owner cleared, and SSE4.1 committed as stopping is
      cleared. */
  lemma {:induction false} StopIsRetryable(v: Lifecycle, failed: seq<Attempt>, a: Attempt)
    requires Stoppable(v)
    requires forall i :: 0 <= i < |failed| ==> !Succeeds(StopMany(v, failed[..i]), failed[i])
    ensures Stoppable(StopMany(v, failed))
    ensures FaultFree(a) ==> Succeeds(StopMany(v, failed), a) && CleanlyStopped(StopMany(v, failed + [a]))
  {
    AttemptsKeepStoppable(v, failed);
    OneAttempt(StopMany(v, failed), a);
    assert (failed + [a])[..|failed|] == failed;
  }

  lemma {:induction false} AttemptsKeepStoppable(v: Lifecycle, failed: seq<Attempt>)
    requires Stoppable(v)
    requires forall i :: 0 <= i < |failed| ==> !Succeeds(StopMany(v, failed[..i]), failed[i])
    ensures Stoppable(StopMany(v, failed))
  {
    if failed != [] {
      var last := |failed| - 1;
      var init := failed[..last];
      assert forall i :: 0 <= i < last ==> init[..i] == failed[..i];
      AttemptsKeepStoppable(v, init);
      OneAttempt(StopMany(v, init), failed[last]);
    }
  }

  /** From the first attempt that gets past the guard lock on, no attempt ever clears stopping
      without having stopped the runtime, so wide widths stay refused in between. */
  lemma {:induction false} StoppingIsSticky(v: Lifecycle, attempts: seq<Attempt>)
    requires v.stopping && v.installed
    ensures StopMany(v, attempts).installed ==> StopMany(v, attempts).stopping
  {
    if attempts != [] {
      StoppingIsSticky(v, attempts[..|attempts| - 1]);
    }
  }

  /** Once a runtime is released, further attempts change nothing. */
  lemma {:induction false} StoppedIsFinal(v: Lifecycle, attempts: seq<Attempt>)
    requires !v.installed
    ensures StopMany(v, attempts) == v
  {
    if attempts != [] {
      StoppedIsFinal(v, attempts[..|attempts| - 1]);
    }
  }
}
