/** What the public runtime calls achieve when no other thread interferes: a start in a vacant layer
    succeeds, a failed one leaves nothing, a stop frees the private runtime, and destroy frees a
    stopped handle. */
module RuntimeProgress {

  import opened SimdWidth
  import opened RuntimeHandles

  /** The operations of one thread, one after the other, lead from (m, pc) to (m', pc'). */
  predicate Does(m: Memory, pc: Pc, ops: seq<Op>, m': Memory, pc': Pc)
    decreases |ops|
  {
    if ops == [] then m' == m && pc' == pc
    else Can(m, pc, ops[0]) && Does(Local(m, pc, ops[0]).0, Local(m, pc, ops[0]).1, ops[1..], m', pc')
  }

  lemma DoesNothing(m: Memory, pc: Pc)
    ensures Does(m, pc, [], m, pc)
  {
  }

  lemma DoesFirst(m: Memory, pc: Pc, op: Op, m1: Memory, pc1: Pc, ops: seq<Op>, m': Memory, pc': Pc)
    requires Can(m, pc, op) && Local(m, pc, op) == (m1, pc1) && Does(m1, pc1, ops, m', pc')
    ensures Does(m, pc, [op] + ops, m', pc')
  {
    assert ([op] + ops)[1..] == ops;
  }

  /** Nothing is active, starting or published. */
  predicate Vacant(m: Memory) {
    m.active.None? && !m.starting && m.snapshot.Inactive?
  }

  /** A fresh handle that the failed start has freed again. */
  const DISCARDED := NEW_HANDLE.(freed := true)

  function WithHandle(m: Memory, handle: Handle): (r: Memory) {
    m.(handles := m.handles + [handle])
  }

  /** What a start leaves once it has reserved the layer, and once it has its private runtime. */
  function Reserved(m: Memory): (r: Memory) {
    WithHandle(m, NEW_HANDLE).(starting := true)
  }

  function Started(m: Memory): (r: Memory) {
    m.(handles := m.handles + [Handle(Some(|m.impls|), m.nextGeneration, false, false, false, true)],
       impls := m.impls + [true], privateActive := Some(|m.impls|), active := Some(|m.handles|),
       snapshot := Active, nextGeneration := NextGeneration(m.nextGeneration))
  }

  lemma ReserveTakesLayer(m: Memory, rest: seq<Op>, m': Memory)
    requires Vacant(m) && Does(Reserved(m), Activating(|m.handles|), rest, m', Idle)
    ensures Does(m, Idle, [Allocate] + ([Reserve] + rest), m', Idle)
  {
    var h, m1 := |m.handles|, WithHandle(m, NEW_HANDLE);
    DoesFirst(m1, Reserving(h), Reserve, Reserved(m), Activating(h), rest, m', Idle);
    DoesFirst(m, Idle, Allocate, m1, Reserving(h), [Reserve] + rest, m', Idle);
  }

  lemma ActivatePublishes(m: Memory, h: nat, rest: seq<Op>, m': Memory)
    requires m.snapshot.Inactive? && Does(m.(snapshot := Active), StartingPrivate(h), rest, m', Idle)
    ensures Does(m, Activating(h), [Activate(true)] + ([PublishSnapshot] + rest), m', Idle)
  {
    var publishing := m.(snapshot := Publishing);
    DoesFirst(publishing, PublishingSnapshot(h), PublishSnapshot, m.(snapshot := Active), StartingPrivate(h), rest, m', Idle);
    DoesFirst(m, Activating(h), Activate(true), publishing, PublishingSnapshot(h), [PublishSnapshot] + rest, m', Idle);
  }

  lemma PrivateStartCommits(m: Memory)
    requires Vacant(m) && m.privateActive.None?
    ensures Does(Reserved(m).(snapshot := Active), StartingPrivate(|m.handles|), [StartPrivate(true), Commit], Started(m), Idle)
  {
    var h, i := |m.handles|, |m.impls|;
    var m4 := Reserved(m).(snapshot := Active);
    var m5 := m4.(impls := m.impls + [true], privateActive := Some(i));
    assert m5.handles[h := Handle(Some(i), m.nextGeneration, false, false, false, true)] == Started(m).handles;
    DoesNothing(Started(m), Idle);
    DoesFirst(m5, Committing(h, i), Commit, Started(m), Idle, [], Started(m), Idle);
    DoesFirst(m4, StartingPrivate(h), StartPrivate(true), m5, Committing(h, i), [Commit], Started(m), Idle);
  }

  /** Main result: a start in a vacant layer returns an active handle with the next generation, holding a new
      private runtime, under a published snapshot. */
  lemma VacantStartSucceeds(m: Memory) returns (ops: seq<Op>)
    requires Vacant(m) && m.privateActive.None?
    ensures Does(m, Idle, ops, Started(m), Idle) && Activate(true) in ops && StartPrivate(true) in ops
  {
    PrivateStartCommits(m);
    ActivatePublishes(Reserved(m), |m.handles|, [StartPrivate(true), Commit], Started(m));
    var rest := [Activate(true)] + ([PublishSnapshot] + [StartPrivate(true), Commit]);
    ReserveTakesLayer(m, rest, Started(m));
    ops := [Allocate] + ([Reserve] + rest);
  }

  /** Main result: a start that finds the layer busy frees its handle and leaves everything else as it was. */
  lemma BusyStartLeavesNothing(m: Memory)
    requires m.active.Some? || m.starting || m.snapshot.Active?
    ensures Does(m, Idle, [Allocate, Reserve], WithHandle(m, DISCARDED), Idle)
  {
    var h, m1, end := |m.handles|, WithHandle(m, NEW_HANDLE), WithHandle(m, DISCARDED);
    assert m1.handles[h := DISCARDED] == end.handles;
    DoesNothing(end, Idle);
    DoesFirst(m1, Reserving(h), Reserve, end, Idle, [], end, Idle);
    DoesFirst(m, Idle, Allocate, m1, Reserving(h), [Reserve], end, Idle);
  }

  lemma AbortDiscards(m: Memory)
    requires Vacant(m)
    ensures Does(Reserved(m), Aborting(|m.handles|), [Abort], WithHandle(m, DISCARDED), Idle)
  {
    var end := WithHandle(m, DISCARDED);
    assert Reserved(m).handles[|m.handles| := DISCARDED] == end.handles;
    DoesNothing(end, Idle);
    DoesFirst(Reserved(m), Aborting(|m.handles|), Abort, end, Idle, [], end, Idle);
  }

  /** Main result: so does one that is given an invalid configuration, or whose private start fails. */
  lemma FailedStartLeavesNothing(m: Memory, valid: bool) returns (ops: seq<Op>)
    requires Vacant(m)
    ensures Does(m, Idle, ops, WithHandle(m, DISCARDED), Idle)
    ensures Activate(valid) in ops && (valid ==> StartPrivate(false) in ops)
  {
    var h, m2, end := |m.handles|, Reserved(m), WithHandle(m, DISCARDED);
    AbortDiscards(m);
    var rest;
    if valid {
      var m4 := m2.(snapshot := Active);
      DoesFirst(m4, Deactivating(h), Deactivate, m2, Aborting(h), [Abort], end, Idle);
      DoesFirst(m4, StartingPrivate(h), StartPrivate(false), m4, Deactivating(h), [Deactivate] + [Abort], end, Idle);
      ActivatePublishes(m2, h, [StartPrivate(false)] + ([Deactivate] + [Abort]), end);
      rest := [Activate(true)] + ([PublishSnapshot] + ([StartPrivate(false)] + ([Deactivate] + [Abort])));
    } else {
      DoesFirst(m2, Activating(h), Activate(false), m2, Aborting(h), [Abort], end, Idle);
      rest := [Activate(false)] + [Abort];
    }
    ReserveTakesLayer(m, rest, end);
    ops := [Allocate] + ([Reserve] + rest);
  }

  /** An active handle whose private runtime is live. */
  predicate Running(m: Memory, h: nat, i: nat) {
    && h < |m.handles| && m.active == Some(h) && !m.handles[h].freed && !m.handles[h].stopped
    && !m.handles[h].stopInProgress && m.handles[h].impl == Some(i) && ImplLive(m, i)
  }

  /** Main result: stopping a running handle frees its private runtime and leaves the layer vacant; a failed
      private stop leaves everything as it was, so the stop can be tried again. */
  lemma StopOfRunningHandle(m: Memory, h: nat, i: nat)
    requires Running(m, h, i)
    ensures Does(m, Idle, [BeginStop(h), TouchPrivate, StopPrivate(true), FinishStop],
              m.(handles := m.handles[h := m.handles[h].(impl := None, stopped := true)], impls := m.impls[i := false],
                 privateActive := None, active := None, snapshot := Inactive), Idle)
    ensures Does(m, Idle, [BeginStop(h), TouchPrivate, StopPrivate(false), FinishStop], m, Idle)
  {
    var handle := m.handles[h];
    var m1 := SetHandle(m, h, handle.(stopInProgress := true));
    var m2 := m1.(impls := m.impls[i := false], privateActive := None);
    var end := m.(handles := m.handles[h := handle.(impl := None, stopped := true)], impls := m.impls[i := false],
                  privateActive := None, active := None, snapshot := Inactive);
    assert m2.handles[h := handle.(impl := None, stopped := true)] == end.handles;
    assert m1.handles[h := handle] == m.handles;
    DoesNothing(end, Idle);
    DoesFirst(m2, FinishingStop(h, true), FinishStop, end, Idle, [], end, Idle);
    DoesFirst(m1, StoppingPrivate(h, i), StopPrivate(true), m2, FinishingStop(h, true), [FinishStop], end, Idle);
    DoesFirst(m1, StoppingPrivate(h, i), TouchPrivate, m1, StoppingPrivate(h, i), [StopPrivate(true), FinishStop], end, Idle);
    DoesFirst(m, Idle, BeginStop(h), m1, StoppingPrivate(h, i), [TouchPrivate, StopPrivate(true), FinishStop], end, Idle);
    DoesNothing(m, Idle);
    DoesFirst(m1, FinishingStop(h, false), FinishStop, m, Idle, [], m, Idle);
    DoesFirst(m1, StoppingPrivate(h, i), StopPrivate(false), m1, FinishingStop(h, false), [FinishStop], m, Idle);
    DoesFirst(m1, StoppingPrivate(h, i), TouchPrivate, m1, StoppingPrivate(h, i), [StopPrivate(false), FinishStop], m, Idle);
    DoesFirst(m, Idle, BeginStop(h), m1, StoppingPrivate(h, i), [TouchPrivate, StopPrivate(false), FinishStop], m, Idle);
  }

  /** Main result: destroying a stopped handle frees it and nothing else; an active, stopping or unstopped one is
      refused. */
  lemma DestroyFreesExactlyWhen(m: Memory, h: nat)
    requires h < |m.handles| && !m.handles[h].freed
    ensures var handle := m.handles[h];
            if m.active != Some(h) && handle.stopped && !handle.stopInProgress && handle.impl.None?
            then Does(m, Idle, [Destroy(h), Free], m.(handles := m.handles[h := handle.(freed := true)]), Idle)
            else Does(m, Idle, [Destroy(h)], m, Idle)
  {
    var handle := m.handles[h];
    if m.active != Some(h) && handle.stopped && !handle.stopInProgress && handle.impl.None? {
      var end := m.(handles := m.handles[h := handle.(freed := true)]);
      DoesNothing(end, Idle);
      DoesFirst(m, Freeing(h), Free, end, Idle, [], end, Idle);
      DoesFirst(m, Idle, Destroy(h), m, Freeing(h), [Free], end, Idle);
    } else {
      DoesNothing(m, Idle);
      DoesFirst(m, Idle, Destroy(h), m, Idle, [], m, Idle);
    }
  }

  /** Generations count up from 1, and only the largest 64-bit value is followed by 1 again. */
  lemma GenerationsCountUp(g: nat)
    requires 0 < g < U64_MODULUS
    ensures 0 < NextGeneration(g) < U64_MODULUS
    ensures NextGeneration(g) == if g == U64_MODULUS - 1 then 1 else g + 1
  {
  }

  /** Reading a freed handle, or a freed private runtime through a live one, is what a fault records; no
      other query changes anything. */
  lemma FreedAccessIsRecorded(m: Memory, h: nat)
    requires h < |m.handles|
    ensures var touched := m.active == Some(h);
            var handle := m.handles[h];
            var usable := !handle.stopped && !handle.stopInProgress && handle.impl.Some?;
            var dead := handle.freed || (usable && !(handle.impl.value < |m.impls| && m.impls[handle.impl.value]));
            && InspectStep(m, h) == (if touched && dead then m.(fault := true) else m)
            && (touched && handle.freed ==> BeginStopStep(m, h).0 == m.(fault := true))
            && (!touched && handle.freed ==> DestroyStep(m, h).0 == m.(fault := true))
  {
  }

  /** A private stop of a freed private runtime is recorded too. */
  lemma FreedRuntimeIsRecorded(m: Memory, h: nat, i: nat, ok: bool)
    requires i < |m.impls| && !m.impls[i]
    ensures Local(m, StoppingPrivate(h, i), TouchPrivate).0 == m.(fault := true)
    ensures Local(m, StoppingPrivate(h, i), StopPrivate(ok)).0 == m.(fault := true)
  {
  }
}
