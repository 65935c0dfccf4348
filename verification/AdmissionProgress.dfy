/** What a thread of the admission protocol achieves when no other thread interferes: an entry that is
    allowed goes through, one that is not ends at SSE4.1, an exit gives its admission back, a safety
    write reopens exactly when it is authorized, and a drain without wide kernels returns. */
module AdmissionProgress {

  import opened SimdWidth
  import opened WidthAuthorization
  import opened AdmissionProtocol
  import opened AdmissionSafety
  import opened AdmissionChecks

  /** The operations of thread t, one after the other, lead from (m, th) to (m', th'). */
  predicate Does(m: Memory, t: nat, th: Thread, ops: seq<Op>, m': Memory, th': Thread)
    decreases |ops|
  {
    if ops == [] then m' == m && th' == th
    else Can(m, th, ops[0]) && Does(Local(m, t, th, ops[0]).0, t, Local(m, t, th, ops[0]).1, ops[1..], m', th')
  }

  lemma DoesNothing(m: Memory, t: nat, th: Thread)
    ensures Does(m, t, th, [], m, th)
  {
  }

  lemma DoesFirst(m: Memory, t: nat, th: Thread, op: Op, m1: Memory, th1: Thread, ops: seq<Op>, m': Memory, th': Thread)
    requires Can(m, th, op) && Local(m, t, th, op) == (m1, th1) && Does(m1, t, th1, ops, m', th')
    ensures Does(m, t, th, [op] + ops, m', th')
  {
    assert ([op] + ops)[1..] == ops;
  }

  // ---------------------------------------------------------------- entry

  function FirstChecks(w: Width): (ops: seq<Op>) {
    [Execute(Begin(w)), Execute(ReadFirstOwner), Execute(ReadFirstAdmission), Execute(AuthorizeFirst(true))]
  }

  function SecondChecks(): (ops: seq<Op>) {
    [Execute(Increment), Execute(ReadSecondAdmission), Execute(ReadSecondOwner), Execute(AuthorizeSecond(true))]
  }

  /** Main result: with admission open and the thread not a stranger to the owner, an authorized wide call gets
      its frame, one more admission counted, and nothing else changes. */
  lemma AllowedEntryGoesThrough(m: Memory, t: nat, th: Thread, w: Width)
    requires th.pc == Ready && IsWide(w) && MayOwn(m, t) && m.admission
    ensures Does(m, t, th, FirstChecks(w), m, th.(pc := Checking(Incrementing, w)))
    ensures Does(m, t, th.(pc := Checking(Incrementing, w)), SecondChecks(), m.(active := m.active + 1),
              th.(depth := th.depth + 1, frames := th.frames + [w]))
  {
    var at := (stage: CheckStage) => th.(pc := Checking(stage, w));
    DoesNothing(m, t, at(Incrementing));
    DoesFirst(m, t, at(FirstAuthorization), Execute(AuthorizeFirst(true)), m, at(Incrementing), [], m, at(Incrementing));
    DoesFirst(m, t, at(FirstAdmission), Execute(ReadFirstAdmission), m, at(FirstAuthorization),
      [Execute(AuthorizeFirst(true))], m, at(Incrementing));
    DoesFirst(m, t, at(FirstOwner), Execute(ReadFirstOwner), m, at(FirstAdmission),
      [Execute(ReadFirstAdmission), Execute(AuthorizeFirst(true))], m, at(Incrementing));
    DoesFirst(m, t, th, Execute(Begin(w)), m, at(FirstOwner),
      [Execute(ReadFirstOwner), Execute(ReadFirstAdmission), Execute(AuthorizeFirst(true))], m, at(Incrementing));
    SecondChecksGoThrough(m, t, th, w);
  }

  lemma SecondChecksGoThrough(m: Memory, t: nat, th: Thread, w: Width)
    requires th.pc == Ready && MayOwn(m, t) && m.admission
    ensures Does(m, t, th.(pc := Checking(Incrementing, w)), SecondChecks(), m.(active := m.active + 1),
              th.(depth := th.depth + 1, frames := th.frames + [w]))
  {
    var n, deeper := m.(active := m.active + 1), th.(depth := th.depth + 1);
    var end := deeper.(frames := th.frames + [w]);
    var at := (stage: CheckStage) => deeper.(pc := Checking(stage, w));
    DoesNothing(n, t, end);
    DoesFirst(n, t, at(SecondAuthorization), Execute(AuthorizeSecond(true)), n, end, [], n, end);
    DoesFirst(n, t, at(SecondOwner), Execute(ReadSecondOwner), n, at(SecondAuthorization),
      [Execute(AuthorizeSecond(true))], n, end);
    DoesFirst(n, t, at(SecondAdmission), Execute(ReadSecondAdmission), n, at(SecondOwner),
      [Execute(ReadSecondOwner), Execute(AuthorizeSecond(true))], n, end);
    DoesFirst(m, t, th.(pc := Checking(Incrementing, w)), Execute(Increment), n, at(SecondAdmission),
      [Execute(ReadSecondAdmission), Execute(ReadSecondOwner), Execute(AuthorizeSecond(true))], n, end);
  }

  /** What a check reads, and whether that lets the call on. */
  predicate LetsOn(m: Memory, t: nat, x: ExecuteOp) {
    match x
    case Begin(w) => IsWide(w)
    case ReadFirstOwner => MayOwn(m, t)
    case ReadFirstAdmission => m.admission
    case AuthorizeFirst(ok) => ok
    case Increment => true
    case ReadSecondAdmission => m.admission
    case ReadSecondOwner => MayOwn(m, t)
    case AuthorizeSecond(ok) => ok
  }

  /** Main result: a check that does not let the call on leaves it with an SSE4.1 frame, at once before the
      increment, and after giving the admission back behind it; no check touches shared memory other
      than the increment. */
  lemma RefusedCallFallsBack(m: Memory, t: nat, th: Thread, x: ExecuteOp)
    requires CanExecute(th.pc, x)
    ensures var (m', th') := ExecuteStep(m, t, th, x);
            && m' == (if x == Increment then m.(active := m.active + 1) else m)
            && th'.depth == (if x == Increment then th.depth + 1 else th.depth)
            && (!LetsOn(m, t, x) ==>
                  if x.ReadSecondAdmission? || x.ReadSecondOwner? || x.AuthorizeSecond?
                  then th' == th.(pc := Releasing(Subtracting, FallBack))
                  else th' == th.(pc := Ready, frames := th.frames + [Sse41]))
            && (LetsOn(m, t, x) && !x.AuthorizeSecond? ==> th'.pc.Checking? && th'.frames == th.frames)
  {
  }

  // ---------------------------------------------------------------- exit

  /** Main result: returning from the innermost frame of width w gives back exactly what entering took: a wide
      frame its admission, with a broadcast when it was the last, an SSE4.1 frame nothing. */
  lemma ReturnGivesBack(m: Memory, t: nat, th: Thread, w: Width) returns (ops: seq<Op>)
    requires th.pc == Ready && (IsWide(w) ==> m.active > 0 && th.depth > 0) && m.drainLock == None
    ensures var inside := th.(frames := th.frames + [w]);
            if IsWide(w) then Does(m, t, inside, ops, m.(active := m.active - 1), th.(depth := th.depth - 1))
            else Does(m, t, inside, ops, m, th)
    ensures IsWide(w) && m.active == 1 ==> Release(Broadcast) in ops
  {
    var inside := th.(frames := th.frames + [w]);
    assert inside.frames[..|inside.frames| - 1] == th.frames;
    if IsWide(w) {
      var leaving := th.(pc := Releasing(Subtracting, Continue));
      ops := SubtractGivesBack(m, t, leaving, Continue);
      DoesFirst(m, t, inside, Release(FinishKernel), m, leaving, ops, m.(active := m.active - 1), th.(depth := th.depth - 1));
      ops := [Release(FinishKernel)] + ops;
    } else {
      ops := [Release(FinishKernel)];
      DoesNothing(m, t, th);
      DoesFirst(m, t, inside, Release(FinishKernel), m, th, [], m, th);
    }
  }

  /** The release itself, for a call that returns, backs out or unwinds. */
  lemma SubtractGivesBack(m: Memory, t: nat, th: Thread, after: Resume) returns (ops: seq<Op>)
    requires th.pc == Releasing(Subtracting, after) && m.active > 0 && th.depth > 0 && m.drainLock == None
    ensures Does(m, t, th, ops, m.(active := m.active - 1), Resumed(th.(depth := th.depth - 1), after))
    ensures m.active == 1 ==> Release(Broadcast) in ops
  {
    var less, shallower := m.(active := m.active - 1), th.(depth := th.depth - 1);
    var end := Resumed(shallower, after);
    DoesNothing(less, t, end);
    if m.active > 1 {
      ops := [Release(Subtract)];
      DoesFirst(m, t, th, Release(Subtract), less, end, [], less, end);
    } else {
      var locked := less.(drainLock := Some(t));
      var at := (step: ReleaseStage) => shallower.(pc := Releasing(step, after));
      assert Resumed(at(UnlockingNotify), after) == end;
      DoesFirst(locked, t, at(UnlockingNotify), Release(UnlockNotify), less, end, [], less, end);
      DoesFirst(locked, t, at(Broadcasting), Release(Broadcast), locked, at(UnlockingNotify), [Release(UnlockNotify)], less, end);
      DoesFirst(less, t, at(LockingToNotify), Release(LockToNotify), locked, at(Broadcasting),
        [Release(Broadcast), Release(UnlockNotify)], less, end);
      ops := [Release(Subtract), Release(LockToNotify), Release(Broadcast), Release(UnlockNotify)];
      DoesFirst(m, t, th, Release(Subtract), less, at(LockingToNotify),
        [Release(LockToNotify), Release(Broadcast), Release(UnlockNotify)], less, end);
    }
  }

  /** What a resumed thread looks like: a call that backed out runs at SSE4.1, one that returned is ready,
      an exiting thread goes on unwinding. */
  lemma ResumedExactly(th: Thread, after: Resume)
    ensures Resumed(th, after).frames == th.frames + (if after == FallBack then [Sse41] else [])
    ensures Resumed(th, after).pc == if after == KeepUnwinding then Unwinding else Ready
    ensures Resumed(th, after).depth == th.depth
  {
  }

  /** Main result: a thread that exits unwinds every frame, giving every wide admission back, and terminates. */
  lemma {:induction false} ExitUnwindsEverything(m: Memory, t: nat, th: Thread, left: nat) returns (ops: seq<Op>)
    requires th.pc == Unwinding && m.drainLock == None
    requires th.depth == WideCount(th.frames) && m.active == left + th.depth
    ensures Does(m, t, th, ops, m.(active := left), Thread(Terminated, 0, []))
    decreases |th.frames|
  {
    var goal, end := m.(active := left), Thread(Terminated, 0, []);
    if th.frames == [] {
      ops := [Release(UnwindFrame)];
      DoesNothing(m, t, end);
      DoesFirst(m, t, th, Release(UnwindFrame), m, end, [], m, end);
    } else {
      var last := |th.frames| - 1;
      var rest := th.(frames := th.frames[..last]);
      if IsWide(th.frames[last]) {
        var more := ExitUnwindsEverything(m.(active := m.active - 1), t, rest.(depth := th.depth - 1), left);
        ops := UnwindWide(m, t, th, rest, more, goal, end);
      } else {
        var more := ExitUnwindsEverything(m, t, rest, left);
        ops := UnwindNarrow(m, t, th, rest, more, goal, end);
      }
    }
  }

  lemma UnwindNarrow(m: Memory, t: nat, th: Thread, rest: Thread, more: seq<Op>, goal: Memory, end: Thread)
      returns (ops: seq<Op>)
    requires th.pc == Unwinding && th.frames != [] && !IsWide(th.frames[|th.frames| - 1])
    requires rest == th.(frames := th.frames[..|th.frames| - 1]) && Does(m, t, rest, more, goal, end)
    ensures Does(m, t, th, ops, goal, end)
  {
    DoesFirst(m, t, th, Release(UnwindFrame), m, rest, more, goal, end);
    ops := [Release(UnwindFrame)] + more;
  }

  /** A wide frame is unwound through its release. */
  lemma UnwindWide(m: Memory, t: nat, th: Thread, rest: Thread, more: seq<Op>, goal: Memory, end: Thread)
      returns (ops: seq<Op>)
    requires th.pc == Unwinding && m.drainLock == None && m.active > 0 && th.depth > 0
    requires th.frames != [] && IsWide(th.frames[|th.frames| - 1]) && rest == th.(frames := th.frames[..|th.frames| - 1])
    requires Does(m.(active := m.active - 1), t, rest.(depth := th.depth - 1), more, goal, end)
    ensures Does(m, t, th, ops, goal, end)
  {
    var leaving := rest.(pc := Releasing(Subtracting, KeepUnwinding));
    var give := SubtractGivesBack(m, t, leaving, KeepUnwinding);
    DoesBoth(m, t, leaving, give, m.(active := m.active - 1), rest.(depth := th.depth - 1), more, goal, end);
    DoesFirst(m, t, th, Release(UnwindFrame), m, leaving, give + more, goal, end);
    ops := [Release(UnwindFrame)] + (give + more);
  }

  lemma {:induction false} DoesBoth(m: Memory, t: nat, th: Thread, a: seq<Op>, m1: Memory, th1: Thread, b: seq<Op>,
      m': Memory, th': Thread)
    requires Does(m, t, th, a, m1, th1) && Does(m1, t, th1, b, m', th')
    ensures Does(m, t, th, a + b, m', th')
    decreases |a|
  {
    if a == [] {
      assert a + b == b;
    } else {
      DoesBoth(Local(m, t, th, a[0]).0, t, Local(m, t, th, a[0]).1, a[1..], m1, th1, b, m', th');
      assert (a + b)[1..] == a[1..] + b;
    }
  }

  // ---------------------------------------------------------------- safety writes

  /** Main result: an undisturbed safety write publishes its guard state, gives the lock back and leaves admission
      open exactly when stopping is clear and that state authorizes a wide width. */
  lemma SafetyWriteReopensExactlyWhen(m: Memory, t: nat, th: Thread, g: Guard) returns (ops: seq<Op>, m': Memory)
    requires th.pc == Ready && m.guardLock == None
    ensures Does(m, t, th, ops, m', th)
    ensures m' == m.(guard := g, admission := !m.stopping && GuardAuthorizes(g, m.limits, m.now))
    ensures Write(Publish(g)) in ops
  {
    var open := !m.stopping && GuardAuthorizes(g, m.limits, m.now);
    var closed := m.(guardLock := Some(t), admission := false);
    var written := closed.(guard := g);
    var stored := written.(admission := open);
    m' := stored.(guardLock := None);
    var at := (stage: WriteStage) => th.(pc := Guarding(stage));
    DoesNothing(m', t, th);
    DoesFirst(stored, t, at(UnlockingGuard), Write(UnlockGuard), m', th, [], m', th);
    DoesFirst(written, t, at(Storing(open)), Write(Store), stored, at(UnlockingGuard), [Write(UnlockGuard)], m', th);
    DoesFirst(written, t, at(Leaving), Write(Evaluate(open)), written, at(Storing(open)), [Write(Store), Write(UnlockGuard)], m', th);
    DoesFirst(written, t, at(Writing), Write(Leave), written, at(Leaving),
      [Write(Evaluate(open)), Write(Store), Write(UnlockGuard)], m', th);
    DoesFirst(closed, t, at(Writing), Write(Publish(g)), written, at(Writing),
      [Write(Leave), Write(Evaluate(open)), Write(Store), Write(UnlockGuard)], m', th);
    ops := WriteBegins(m, t, th, [Write(Publish(g)), Write(Leave), Write(Evaluate(open)), Write(Store), Write(UnlockGuard)], m', th);
  }

  /** Taking the lock and closing admission comes before anything is written. */
  lemma WriteBegins(m: Memory, t: nat, th: Thread, rest: seq<Op>, m': Memory, th': Thread) returns (ops: seq<Op>)
    requires th.pc == Ready && m.guardLock == None
    requires Does(m.(guardLock := Some(t), admission := false), t, th.(pc := Guarding(Writing)), rest, m', th')
    ensures Does(m, t, th, ops, m', th') && ops == [Write(Enter), Write(LockGuard), Write(Close)] + rest
  {
    var locked := m.(guardLock := Some(t));
    var closed := locked.(admission := false);
    var at := (stage: WriteStage) => th.(pc := Guarding(stage));
    DoesFirst(locked, t, at(Closing), Write(Close), closed, at(Writing), rest, m', th');
    DoesFirst(m, t, at(LockingGuard), Write(LockGuard), locked, at(Closing), [Write(Close)] + rest, m', th');
    DoesFirst(m, t, th, Write(Enter), m, at(LockingGuard), [Write(LockGuard)] + ([Write(Close)] + rest), m', th');
    ops := [Write(Enter)] + ([Write(LockGuard)] + ([Write(Close)] + rest));
  }

  /** Under the guard lock a width can be selected exactly when it is authorized. */
  lemma SelectableExactlyWhen(m: Memory, w: Width)
    ensures CanWrite(m, Guarding(Writing), Select(w)) <==>
      w == Sse41 || (!m.stopping && GuardAuthorizes(m.guard, m.limits, m.now))
  {
  }

  // ---------------------------------------------------------------- drain

  /** Main result: outside wide kernels an undisturbed wait returns at once when the counter is zero, and goes to
      sleep when it is not; inside one it is refused. */
  lemma DrainReturnsExactlyWhen(m: Memory, t: nat, th: Thread) returns (ops: seq<Op>)
    requires th.pc == Ready && m.drainLock == None
    ensures th.depth > 0 ==> Does(m, t, th, [Drain(WaitQuiescence)], m, th)
    ensures th.depth == 0 && m.active == 0 ==> Does(m, t, th, ops, m, th) && Drain(LoadActive) in ops
    ensures th.depth == 0 && m.active > 0 ==> Does(m, t, th, ops, m, th.(pc := Draining(Asleep)))
  {
    ops := [];
    DoesNothing(m, t, th);
    if th.depth > 0 {
      DoesFirst(m, t, th, Drain(WaitQuiescence), m, th, [], m, th);
    } else {
      var locked := m.(drainLock := Some(t));
      var at := (stage: DrainStage) => th.(pc := Draining(stage));
      var end := if m.active == 0 then th else at(Asleep);
      var last := if m.active == 0 then Drain(UnlockDrain) else Drain(Sleep);
      var before := if m.active == 0 then at(UnlockingDrain) else at(GoingToSleep);
      DoesNothing(m, t, end);
      DoesFirst(locked, t, before, last, m, end, [], m, end);
      DoesFirst(locked, t, at(Loading), Drain(LoadActive), locked, before, [last], m, end);
      DoesFirst(m, t, at(LockingDrain), Drain(LockDrain), locked, at(Loading), [Drain(LoadActive), last], m, end);
      DoesFirst(m, t, th, Drain(WaitQuiescence), m, at(LockingDrain), [Drain(LockDrain), Drain(LoadActive), last], m, end);
      ops := [Drain(WaitQuiescence), Drain(LockDrain), Drain(LoadActive), last];
    }
  }

  /** A woken waiter takes the lock and looks again. */
  lemma WokenLooksAgain(m: Memory, t: nat, th: Thread)
    requires th.pc == Draining(Asleep) && m.drainLock == None
    ensures Woken(th) == th.(pc := Draining(Reacquiring))
    ensures Does(m, t, Woken(th), [Drain(Reacquire)], m.(drainLock := Some(t)), th.(pc := Draining(Loading)))
  {
    var locked, loading := m.(drainLock := Some(t)), th.(pc := Draining(Loading));
    DoesNothing(locked, t, loading);
    DoesFirst(m, t, Woken(th), Drain(Reacquire), locked, loading, [], locked, loading);
  }

  // ---------------------------------------------------------------- the environment

  /** A new thread is idle and disturbs nothing; time and configuration change only their own cells; and of
      the other threads a step touches only those a broadcast wakes. */
  lemma EnvironmentSteps(s: State, ms: nat, limits: Limits)
    ensures Step(s, Spawn) == State(s.threads + [Thread(Ready, 0, [])], s.m)
    ensures Step(s, Tick(ms)) == State(s.threads, s.m.(now := s.m.now + ms))
    ensures Step(s, Recapture(limits)) == State(s.threads, s.m.(limits := limits))
  {
  }

  lemma BystandersAreLeftAlone(s: State, t: nat, op: Op, i: nat)
    requires t < |s.threads| && i < |s.threads| && i != t && Can(s.m, s.threads[t], op)
    ensures var th := Step(s, ByThread(t, op)).threads[i];
            if op == Release(Broadcast) && s.threads[i].pc == Draining(Asleep)
            then th == s.threads[i].(pc := Draining(Reacquiring)) else th == s.threads[i]
  {
  }
}
