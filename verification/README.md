# Thermal SIMD Dispatcher: a Dafny model of its safety core

The dispatcher lets application kernels run at AVX2 or AVX-512 only while perf counters, raw
temperature and configuration allow it, and falls back to SSE4.1 in every doubtful case. This
project models that fail-closed core and proves what it promises over all inputs, all
interleavings and all runs.

| file | models |
|---|---|
| `SimdWidth`, `WidthAuthorization` | widths, the guard state and the authorization rule |
| `AdmissionProtocol`, `AdmissionSafety` | executors, safety writers and drain waiters as a transition system over any number of threads; a step is one shared access, except that evaluating the authorization and selecting a width under the guard lock take their reads as one step; its invariant and the theorems about whole runs |
| `AdmissionChecks`, `AdmissionProgress` | what every entry went through, ownership, one frame per call; what a thread achieves when undisturbed |
| `RuntimeHandles`, `RuntimeProgress` | the public handle layer: start, stop, destroy and queries from any number of threads; what undisturbed calls achieve |
| `PrivateStop` | the private stop with its fault points, as an object updated in place |
| `FusionLifecycle`, `FusionProgress` | start, external stop, worker self-stop and join of the fusion worker; what undisturbed calls achieve |
| `Statistics` | integer EWMA and the trimmed mean with its in-place sort |
| `PerfPipeline`, `SustainedDegradation` | one measurement: averages, references, ratio window, threshold, severity; what runs of samples report |
| `PerfModes`, `PerfContext` | counter reads, baselines, hardware and software mode, the software timeout; the context updated in place with its ring of ratios |
| `PerfArithmetic`, `PerfVerdicts` | the arithmetic of an evaluation value by value; what runs of ticks report |
| `MonitorLoop`, `MonitorSafety`, `MonitorHysteresis` | the monitor loop over its local variables and the committed selection; safety, dwell and cooldown over whole runs; when hysteresis and advice change the width |
| `MonitorPerf`, `MonitorTemperature`, `MonitorVerdicts` | runs of the loop whose ticks read the perf context: its modes, its software timeout, when it reports the raw temperature, and how a slow workload is narrowed |
| `Bits`, `Kernels`, `MixBijection`, `ChunkedDispatch` | exclusive or bit by bit; the mixing kernel at 4, 8 and 16 lanes and its inverse; width resolution, chunked execution, benchmark passes, checksum |
| `TrampolineState`, `Trampoline` | the tagged selection word and its stores; page sealing, selection and attestation |
| `Rollout`, `WidthChoice`, `RolloutForms`, `PolicyState` | the discounted rollout over reals, the choice among widths, closed forms of the score, the controller's history and the policy gate |
| `Base64`, `ConstantTimeEqual` | the credential decoder and comparison of the metrics endpoint |
| `HistoryBaseline` | the incremental mean and variance per socket, over reals |
| `TelemetryBus` | per-source slots and the fused reading |

Concurrent code is modelled under sequential consistency; the fences of the original are what
justifies that. Doubles are reals, with an explicit "unavailable" case for NaN and infinity.
Unsigned truncation is written out; 128-bit intermediates are exact.

## Where the code and its promises differ

Each of these has a lemma with a concrete failing case and one with the condition under which the
promise holds; "exactly" marks the conditions proved in both directions.

- A bare admission close outside the guard lock (`src/thermal_perf.c:208`) can be overwritten by a
  safety write that has already evaluated its authorization; it is as good as a locked close
  exactly when no such store is pending (`BareCloseIsEffective`, `BareCloseIsOverwritten`,
  `BareCloseOverwrittenRun`).
- A widening's cooldown can be cut short by a successful safety fallback, not only by a failed one,
  because the fallback starts the shorter narrowing cooldown. With samples at least one check interval
  apart and advice within the widest width, this cannot happen exactly when the widening cooldown is
  no longer than one interval plus the narrowing cooldown or the minimum dwell, or than two
  intervals, in whole milliseconds and with the degraded overlay off; or when nothing can widen,
  because ceiling or margins are out of range or the host has no wider width. The defaults are not
  such a configuration. The condition is the same for runs driven by the perf context, through
  any changes of mode (`CooldownSurvivesFallbacks`, `FallbackShortensCooldown`,
  `DefaultsDoNotCover`, `DrivenCooldownSurvivesFallbacks`, `DrivenFallbackShortensCooldown`).
- A comment at `src/thermal_simd.c:416-419` says that the raw thermal state is evaluated on every
  sample. A sample reports the temperature exactly when its evaluation reaches the telemetry: not while
  the workload is idle, the counters stall, cannot be read or are read for the first time, and not
  while software mode is being seeded or makes no progress. Then a package above the emergency limit
  changes no selection, for any number of samples (`TemperatureReportedExactlyWhen`,
  `HotPackageIsEmergencyExactlyWhen`, `HotIdlePackageStaysWide`). The admission gate has its own
  temperature check.
- A comment at `src/thermal_simd.c:439` says that a failed safety fallback is retried at the next
  sample. That holds of emergencies (`EmergencyIsRetried`). A fallback caused by the software timeout
  is reported once per stay in software mode, so within the stay it is attempted again exactly at
  emergency ticks (`FailedTimeoutIsNotRetried`, `TimeoutFallbackIsLeftBehind`).
- A width projected over the thermal ceiling can be recommended although the forecast itself is not
  above it, exactly when the fitted per-step benefit is large enough for the horizon: the largest
  saving it can bring exceeds the minimum improvement (`OverCeilingNeedsLargeBenefit`,
  `LargeBenefitOutweighsCeiling`). No benefit up to 10^9 / 8.1 is (`OverCeilingIsNeverRecommended`).
- Sustained degradation is reported for every threshold below 2^32 - 1; from there on the saturated
  32-bit history hides it, up to the largest ratio a bounded sample can reach
  (`DegradationIsNeverNormalizedAway`, `SaturatedHistoryHidesDegradation`,
  `LargerThresholdsAreUnreachable`).
- A bus slot keeps the greatest key exactly when some timestamp is positive or the last quality is
  the greatest (`SlotIsGreatestExactlyWhen`); the fused value, unlike its key, depends on iteration
  order when two candidates share a key (`TiesAreOrderDependent`). The fused key depends on the
  publication order only when a source has no positive timestamp or publishes different readings
  with one key
  (`FusedKeyIgnoresBothOrders`, `SourceTiesAreOrderDependent`).
- The credential comparison truncates the exclusive or of the sizes to 32 bits, so as a function it is
  not equality (`MatchesExactlyWhen`, `EmptyMatchesZeros`). At its only call the presented credential
  comes from a request of at most 8192 bytes, and there it is
  (`PresentedCredentialMatchesOnlyWhenEqual`).

## Model

| member | source | states |
|---|---|---|
| AdmissionSafety.WideEntryWasAuthorized | src/runtime_guard.c:200-228 | in every run, a successful wide entry read admission as open at its second check, and that bit was stored by a leave that evaluated the authorization to true under the guard lock with stopping clear; no close came in between |
| AdmissionSafety.OpenWasGranted | src/runtime_guard.c:273-277 | admission is open only because of such an evaluation and store, with the guard lock held from one to the other |
| AdmissionSafety.CloseIsEffective | src/runtime_guard.c:262-271 | after a close under the guard lock, any later pass of a re-check was preceded by a new evaluation and store after the close |
| AdmissionSafety.BareCloseIsEffective | src/thermal_perf.c:205-208 | a close without the lock has the same effect when no reopening store is pending |
| AdmissionSafety.BareCloseIsOverwritten | src/thermal_perf.c:205-208 | when one is pending, its store makes admission open again although its evaluation came before the close |
| AdmissionSafety.BareCloseOverwrittenRun | src/thermal_perf.c:205-208 | a concrete run that reaches such a state and is reopened |
| AdmissionSafety.StopQuiescence | src/runtime_guard.c:236-260 | once the drain has read zero with stopping set, no thread is in a wide kernel and none gets in while stopping stays set |
| AdmissionSafety.StoppingImpliesClosed | src/runtime_guard.c:279-287 | stopping implies closed admission in every reachable state |
| AdmissionSafety.CounterIsOutstanding | src/dispatch/adaptive_dispatch.c:336-390 | the in-flight counter is the number of admissions not given back, on return, error, cancellation and thread exit; the underflow repair is unreachable |
| AdmissionSafety.SleeperIsOwedBroadcast | src/runtime_guard.c:182-198 | a drain waiter that sleeps at zero is owed a broadcast by a releaser |
| AdmissionSafety.BroadcastWakesEveryone | src/runtime_guard.c:182-198 | a broadcast leaves no drain waiter asleep |
| AdmissionSafety.SelectionStaysConservative | src/runtime_guard.c:319-336 | an SSE4.1 selection stays SSE4.1 for as long as stopping stays set |
| AdmissionSafety.InvPreserved | src/runtime_guard.c:153-287 | every step of every thread keeps the protocol invariant |
| AdmissionSafety.RunInv | src/runtime_guard.c:153-287 | every reachable state satisfies the protocol invariant |
| WidthAuthorization.AuthorizedExactlyWhen | src/runtime_guard.c:293-336 | a wide width is authorized exactly with sandbox and temperature gate passed and, for a live runtime, healthy hardware counters at most 5 s old and a raw temperature within the permitted skew, at or below ceiling minus margin, all limits in range |
| WidthAuthorization.AuthorizationIsMonotone | src/runtime_guard.c:302-336 | cooling down or refreshing a stamp never revokes it; time alone ends it when a stamp gets too old |
| AdmissionChecks.WideEntryPassedSecondChecks | src/runtime_guard.c:212-228 | in every run a wide entry had incremented the counter, then read open admission and then found no owner or itself as owner; its frame is of the width it asked for |
| AdmissionChecks.IncrementPassedFirstChecks | src/runtime_guard.c:205-213 | and before that increment it had begun a wide call of that width, passed the owner check, read open admission and been authorized |
| AdmissionChecks.WideEntryWasCool | src/runtime_guard.c:273-336 | every wide entry goes back to a moment with stopping clear at which, for a live runtime, the raw temperature was fresh and at or below ceiling minus margin |
| AdmissionChecks.StrangerStartsNoWideKernel | src/runtime_guard.c:166-169 | while another thread is the owner, a thread that has not already passed its second owner check starts no wide kernel |
| AdmissionChecks.EveryCallGetsOneFrame | src/dispatch/adaptive_dispatch.c:336-390 | the calls a thread has begun are those that ended, those on its stack and the one still being checked |
| AdmissionChecks.DrainEndsAtZero | src/runtime_guard.c:236-260 | a wait for quiescence returns only after a read of zero |
| AdmissionChecks.DrainerIsOutside | src/runtime_guard.c:237-240 | no thread inside a wide kernel waits for quiescence |
| AdmissionChecks.CellsHoldLastWrite | src/runtime_guard.c:162-164 | owner, stopping flag, selection and guard hold what was last written, and are written under the guard lock of the writer |
| AdmissionProgress.AllowedEntryGoesThrough | src/runtime_guard.c:200-228 | undisturbed, an owner's authorized wide call under open admission gets its frame and one more admission |
| AdmissionProgress.RefusedCallFallsBack | src/dispatch/adaptive_dispatch.c:118-129 | a check that fails leaves the call with an SSE4.1 frame, behind the increment after giving the admission back |
| AdmissionProgress.ReturnGivesBack | src/runtime_guard.c:182-198 | undisturbed, a return gives back exactly what its frame took, with a broadcast when it was the last |
| AdmissionProgress.ExitUnwindsEverything | src/dispatch/adaptive_dispatch.c:336-390 | undisturbed, an exiting thread unwinds every frame, gives every wide admission back and terminates |
| AdmissionProgress.SafetyWriteReopensExactlyWhen | src/runtime_guard.c:262-277 | an undisturbed safety write leaves admission open exactly when stopping is clear and the published state authorizes a wide width |
| AdmissionProgress.SelectableExactlyWhen | src/patcher/trampoline_guard.c:12-44 | under the guard lock a width can be selected exactly when it is authorized |
| AdmissionProgress.DrainReturnsExactlyWhen | src/runtime_guard.c:236-260 | an undisturbed wait returns at zero, sleeps otherwise, and is refused inside a wide kernel |
| AdmissionProgress.WokenLooksAgain | src/runtime_guard.c:236-260 | a woken waiter reads the counter again |
| AdmissionProgress.BystandersAreLeftAlone | src/runtime_guard.c:182-198 | a step changes no other thread, except that a broadcast wakes the sleeping waiters |
| RuntimeHandles.OneGenerationAtATime | src/runtime_api.c:48-107 | at most one generation is starting or active, at most one private runtime is allocated, and the configuration snapshot is live whenever a handle is active |
| RuntimeHandles.NoUseAfterFree | src/runtime_api.c:113-232 | no public call dereferences a freed handle or private runtime |
| RuntimeHandles.ReservedStartIsNeverBusy | src/runtime_api.c:48-107 | a reserved start never meets a busy snapshot or a busy private layer |
| RuntimeHandles.StoppedHandleIsInert | src/runtime_api.c:113-208 | calls on a stopped handle change nothing shared; freeing it changes that handle alone |
| RuntimeHandles.StoppedForever | src/runtime_api.c:124-177 | a stopped handle stays stopped for the rest of the run |
| RuntimeHandles.ActiveHandleIsUndestroyable | src/runtime_api.c:179-208 | an active handle stays active and unfreed until its own stop succeeds |
| RuntimeProgress.VacantStartSucceeds | src/runtime_api.c:48-107 | undisturbed, a start in a vacant layer returns an active handle with the next generation and a new private runtime under a published snapshot |
| RuntimeProgress.BusyStartLeavesNothing | src/runtime_api.c:48-66 | a start that finds the layer busy frees its handle and changes nothing else |
| RuntimeProgress.FailedStartLeavesNothing | src/runtime_api.c:66-107 | so does one with an invalid configuration or a failing private start |
| RuntimeProgress.StopOfRunningHandle | src/runtime_api.c:124-177 | undisturbed, a stop frees the private runtime and leaves the layer vacant; a failed private stop leaves everything as it was |
| RuntimeProgress.DestroyFreesExactlyWhen | src/runtime_api.c:179-208 | destroy frees a stopped handle and nothing else, and refuses any other |
| RuntimeProgress.GenerationsCountUp | src/runtime_api.c:90-100 | generations count up from 1 and skip 0 when they wrap |
| RuntimeProgress.FreedAccessIsRecorded | src/runtime_api.c:113-232 | the fault the memory-safety theorem excludes is recorded by every query that reads freed memory and by no other |
| RuntimeProgress.FreedRuntimeIsRecorded | src/runtime_api.c:124-177 | so is the private stop of a freed private runtime |
| FusionLifecycle.OneWorkerJoinedOnce | src/telemetry/fusion.cpp:73-168 | at most one worker is unjoined, no worker is joined twice, and a joined worker has left its loop |
| FusionLifecycle.OverlappingStartIsIgnored | src/telemetry/fusion.cpp:73-94 | a start that overlaps a stop or an unjoined worker changes nothing |
| FusionLifecycle.ExternalStopLeavesNothingRunning | src/telemetry/fusion.cpp:96-168 | when any external stop returns the worker is gone, running is false and the published state is stopped |
| FusionLifecycle.WorkerNeverWaitsForJoin | src/telemetry/fusion.cpp:96-168 | the worker's own stop never waits for the join |
| FusionLifecycle.SleepingWorkerIsNotified | src/telemetry/fusion.cpp:184-217 | a worker asleep after running was cleared is owed a notification |
| FusionProgress.StartCreatesWorker | src/telemetry/fusion.cpp:73-94 | undisturbed, a start without a worker or a stop under way creates one and publishes it; when the thread cannot be created everything stays stopped |
| FusionProgress.ExternalStopLeavesNoWorker | src/telemetry/fusion.cpp:96-168 | undisturbed, an external stop clears running, joins the worker if there is one and leaves none |
| FusionProgress.WorkerStopLeavesJoin | src/telemetry/fusion.cpp:96-168 | the worker's own stop clears running and leaves its join to another caller |
| FusionProgress.StopDuringJoin | src/telemetry/fusion.cpp:96-168 | a stop during another caller's join waits for it, except that the worker does not |
| FusionProgress.WaitEndsWithJoin | src/telemetry/fusion.cpp:96-168 | a waiting stop returns once the join has ended |
| FusionProgress.WorkerPass | src/telemetry/fusion.cpp:184-217 | a pass of the worker publishes whether it runs and sleeps; once running is cleared it publishes that and exits |
| FusionProgress.WokenWorkerLooksAgain | src/telemetry/fusion.cpp:184-217 | a worker that wakes goes on while running and exits otherwise |
| PrivateStop.PrivateRuntime.Stop | src/thermal_simd.c:734-840 | one attempt ends in the lifecycle given by its faults and the selections other threads request before and during it |
| PrivateStop.OneAttempt | src/thermal_simd.c:757-840 | a failed attempt leaves the runtime installed and stoppable, a successful one leaves it cleanly stopped, and one without a fault succeeds |
| PrivateStop.SucceedsExactlyWhen | src/thermal_simd.c:757-840 | an attempt succeeds exactly outside a wide kernel, without guard, drain or final-guard fault, without a join fault while the monitor is unjoined and without a selector fault while a wide width is selected; and what each failure leaves joined, cleaned up, selected and stopping |
| PrivateStop.RequestedExactly | src/patcher/trampoline_guard.c:12-44 | while stopping is set only SSE4.1 requests count, otherwise the last request does |
| PrivateStop.StopIsRetryable | src/thermal_simd.c:734-840 | after any failed attempts, with any selections other threads request before, between and within them, the first fault-free one joins the monitor once, cleans perf up once, clears the owner and leaves SSE4.1 committed as stopping is cleared |
| PrivateStop.StoppingIsSticky | src/thermal_simd.c:757-793 | stopping, once set, stays set for as long as the runtime is installed |
| PrivateStop.StoppedIsFinal | src/thermal_simd.c:734-756 | attempts after a successful stop change nothing |
| Statistics.UpdateEwma | src/statistics.c:5-24 | the average lies between its old value and the sample and moves strictly towards the sample |
| Statistics.EwmaConverges | src/statistics.c:5-24 | on a steady signal it reaches the signal exactly, in at most the initial distance of steps |
| Statistics.EwmaMoves | src/statistics.c:5-24 | it moves by the 2^shift-th part of the distance, rounded down, but by at least one |
| Statistics.ComputeTrimmedMean | src/statistics.c:26-60 | copying at most eight values, sorting in place and summing between the ends gives the trimmed mean |
| Statistics.SortInPlace | src/statistics.c:35-43 | the in-place loop computes the insertion sort of the array |
| Statistics.InsertionSortSorts | src/statistics.c:35-43 | that result is sorted and a permutation of the input |
| Statistics.TrimmedMeanBounds | src/statistics.c:44-59 | the trimmed mean of values in a range lies in that range |
| Statistics.TrimmedMeanOfPermutation | src/statistics.c:26-60 | the trimmed mean does not depend on the order of the values |
| Statistics.OutlierResilience | src/statistics.c:26-60 | with three or more values, replacing any one by any outlier keeps the result between the extremes of the others |
| PerfPipeline.WindowIsLatestRatios | src/thermal_perf.c:991-997 | after any run since a reset the window holds the last min(n, 8) stored ratios and the published trimmed ratio is their trimmed mean |
| PerfPipeline.RoundedRatioIsNearest | src/thermal_perf.c:973-979 | a ratio is within half a unit of the exact quotient while it fits 64 bits |
| PerfPipeline.SlopeAdjusted | src/thermal_perf.c:1005-1016 | the slope penalty lowers the threshold by at most a quarter, and only when the fast average is above the slow one |
| PerfPipeline.MemoryGuardOnlyRaises | src/thermal_perf.c:1017-1023 | the memory-bound guard raises the threshold by at least its offset |
| PerfArithmetic.AveragesFollow | src/thermal_perf.c:955-972 | the fast averages move by a quarter of the distance to the sample, the slow ones by a thirty-second; a slow CPI is never left at zero |
| PerfArithmetic.ReferencesAreSetOnce | src/thermal_perf.c:955-990 | a reference is set by the first positive sample and never moves |
| PerfArithmetic.RatioExactly | src/thermal_perf.c:973-990 | the ratio is that of the work cost when there is one, else the larger of the ratios to slow average and reference |
| PerfArithmetic.ThresholdExactly | src/thermal_config.c:161-167 | the threshold is the configured one, 1500 for none, and at most 1300 under the degraded overlay |
| PerfArithmetic.MemoryBoundExactly | src/thermal_perf.c:998-1003 | a sample is memory bound exactly with the miss counter open and more than 2.5 times the baseline misses |
| PerfArithmetic.SlopeExactly | src/thermal_perf.c:1005-1016 | the slope penalty is a fifth of the excess, rounded down, up to a quarter of the threshold |
| PerfArithmetic.MemoryGuardExactly | src/thermal_perf.c:1017-1023 | the guard adds the configured share, rounded down, and the offset |
| PerfArithmetic.ThermalSeverityExactly | src/thermal_perf.c:1027-1060 | heat counts from 85 C and a frequency loss from 1.0, each weighted in thousandths, and only when measured |
| PerfArithmetic.SeverityExactly | src/thermal_perf.c:1024-1067 | the severity is the excess of the mean of ratio and trimmed ratio over the threshold plus the thermal severity |
| SustainedDegradation.DegradationIsNeverNormalizedAway | src/thermal_perf.c:965-1026 | with a calibrated reference, a run whose samples, by work cost or by CPI, all exceed the threshold in force, memory guard included, is reported at every sample, however far the slow average drifts |
| SustainedDegradation.SaturatedHistoryHidesDegradation | src/thermal_perf.c:991-1026 | for every threshold from 2^32 - 1 up to the largest reachable ratio a degraded sample goes unreported |
| SustainedDegradation.LargerThresholdsAreUnreachable | src/thermal_perf.c:973-979 | beyond that no sample below 2^54 is degraded |
| SustainedDegradation.HealthyRunIsNeverThrottled | src/thermal_perf.c:1005-1067 | a run whose ratios stay within three quarters of every threshold is never reported |
| SustainedDegradation.SteadySampleIsHealthy | src/thermal_perf.c:1005-1067 | such runs exist: a steady sample at the reference is one |
| PerfModes.HardwareHistoryIsForgotten | src/thermal_perf.c:638-647 | two contexts that fall out of hardware mode report exactly the same on every later run of ticks, whatever their hardware histories |
| PerfModes.SoftwareHistoryIsForgotten | src/thermal_perf.c:901-930 | contexts that recover through the same baseline report the same ever after, whatever their software histories |
| PerfModes.RunSameDomain | src/thermal_perf.c:1086-1285 | contexts equal up to what their domain can read stay so and report the same |
| PerfModes.MeasureIgnoresBaselines | src/thermal_perf.c:955-1068 | a positive software cost is judged without reading any hardware baseline |
| PerfModes.RecoveryNeedsBaseline | src/thermal_perf.c:901-930 | a run that starts in software mode and ends in hardware mode contains an accepted baseline |
| PerfModes.FailedReprobeIsHarmless | src/thermal_perf.c:901-923 | a reprobe that fails or is rejected leaves mode, pipeline and software cursor as they were |
| PerfModes.HardwareBaseline | src/thermal_perf.c:771-842 | an accepted observation gives positive references taken from its own reads |
| PerfModes.ObservedWorkloadIsNominal | src/thermal_perf.c:804-833 | after a recovery the observed workload has the ratio 1000 against the new references |
| PerfModes.LostCountersFailClosed | src/thermal_perf.c:1171-1213 | unreadable, malformed or regressing counters end in software mode, throttled and unvalidated |
| PerfModes.StalledCountersFailClosed | src/thermal_perf.c:1070-1084 | the third stalled sample in a row fails closed, earlier ones are only counted |
| PerfModes.ScaledIsFloor | src/thermal_perf.c:420-426 | multiplex scaling is the exact floor while it fits 64 bits |
| PerfModes.UnscaledCounter | src/thermal_perf.c:420-426 | a counter that was never multiplexed is not changed |
| PerfModes.SoftwareCost | src/thermal_perf.c:1143-1150 | the software cost is never zero |
| PerfModes.MeasuredExactlyWhen | src/thermal_perf.c:1206-1262 | a pair of reads is measured exactly when times and instructions advanced, both counters scale to something and the work is the runtime's own or registered |
| PerfModes.MeasuredSampleIsFloor | src/thermal_perf.c:1231-1272 | the sample is the floor of cycles per instruction, per work item and of misses per thousand instructions, in thousandths, while the products fit 64 bits; counters that ran all the time count as read |
| PerfArithmetic.BaselineExactly | src/thermal_perf.c:771-842 | an observation is accepted exactly when all four counters advanced and scale to something; its references and averages are what it counted |
| PerfArithmetic.ReprobeExactly | src/thermal_perf.c:901-930 | what each outcome of a reprobe leaves: mode, validation, cursors and pipeline |
| PerfArithmetic.SoftwareTickExactly | src/thermal_perf.c:1125-1157 | a software tick seeds, does nothing without progress, and otherwise measures nanoseconds per work item |
| PerfArithmetic.SoftwareCostIsFloor | src/thermal_perf.c:1125-1157 | the software cost is the floor of nanoseconds per work item in thousandths, but at least 1 |
| PerfArithmetic.CursorsFollowReads | src/thermal_perf.c:1206-1285 | which cursors a measured, unrelated, idle or stalled tick moves |
| PerfArithmetic.FirstReadSetsCursors | src/thermal_perf.c:1197-1203 | the first read after opening only sets the cursors |
| PerfArithmetic.LlcReopensExactly | src/thermal_perf.c:1167-1196 | a closed miss counter that could be reopened starts from what it then reads |
| PerfArithmetic.StandstillExactly | src/thermal_perf.c:1158-1230 | counters that ran backwards fail closed at once, counters that stood still are counted, and the third such read in a row fails closed |
| PerfArithmetic.ModeChangeExactly | src/thermal_perf.c:186-239 | what entering a different mode forgets, keeps and starts |
| PerfArithmetic.TimeoutExactly | src/thermal_perf.c:1306-1318 | a timeout is reported exactly in software mode, once per stay, from the configured seconds after entry |
| PerfVerdicts.ThrottledExactlyWhenSevere | src/thermal_perf.c:1067 | in every mode the verdict is a positive severity |
| PerfVerdicts.SlowRunIsThrottled | src/thermal_perf.c:955-1285 | in hardware mode, from an empty history and a calibrated reference, a run whose measured samples all exceed a threshold below 2^32 - 1 is throttled at every measured tick, whatever ticks lie between |
| PerfVerdicts.FitRunIsNeverThrottled | src/thermal_perf.c:955-1285 | a run whose measured ratios stay within three quarters of every threshold is throttled at none |
| PerfContext.RatioRing.Push | src/thermal_perf.c:991-997 | storing at the cursor slides the window, and the trimmed mean over the ring is that of the window |
| PerfContext.RingSlides | src/thermal_perf.c:991-996 | overwriting the slot at the cursor and advancing it slides the window by one |
| PerfContext.TrimmedOverRing | src/thermal_perf.c:997 | the trimmed mean over the filled part of the ring is that of the window in time order |
| PerfContext.PerfState.ResetMeasurementDomain | src/thermal_perf.c:104-116 | averages, window and trimmed ratio are cleared and nothing else changes |
| PerfContext.PerfState.ChangeMode | src/thermal_perf.c:186-239 | entering another mode clears the domain and starts an unreported stay at the current time; software mode also drops references and validation and turns the degraded overlay on, hardware mode turns it off |
| PerfContext.PerfState.CloseAndFallBack | src/thermal_perf.c:638-647 | the counters are closed and the context is in software mode, unvalidated |
| PerfContext.PerfState.ProcessMeasurement | src/thermal_perf.c:955-1068 | the in-place update and its verdict are those of the pipeline functions |
| PerfContext.PerfState.TryRecoverHardware | src/thermal_perf.c:901-930 | only an accepted observation leaves software mode; failed probes change nothing the pipeline reads |
| PerfContext.PerfState.EvaluateTick | src/thermal_perf.c:1086-1285 | one evaluation in place is the evaluation function on the abstract context |
| PerfContext.PerfState.CheckSoftwareTimeout | src/thermal_perf.c:1306-1319 | the check in place is the timeout function on the abstract context: it reports an expired stay and remembers that it did, and changes nothing else |
| MonitorLoop.Monitor | src/thermal_simd.c:376-604 | the loop over its local variables and the shared selection takes exactly the actions of a run from its initial state and leaves that run's selection committed |
| MonitorLoop.Iterate | src/thermal_simd.c:431-604 | one pass through the loop body, with its early exits, is one step of such a run |
| MonitorLoop.DegradedOverlayIsStricter | src/thermal_config.c:120-167 | the degraded overlay narrows no later, widens no earlier and waits no less |
| MonitorSafety.TransitionsKeepDwell | src/thermal_simd.c:456-460 | in every run a transition is at least the minimum dwell in force at it away from every earlier transition and every earlier successful fallback |
| MonitorSafety.TransitionsKeepCooldown | src/thermal_simd.c:456-557 | without a safety fallback in between, two transitions are at least the earlier one's cooldown apart |
| MonitorSafety.CooldownSurvivesFallbacks | src/thermal_simd.c:390-460 | the same with successful fallbacks in between, for samples at least one check interval apart and advice within the widest width, when the widening cooldown is covered or nothing can widen, provided performance is only measured with the overlay off |
| MonitorSafety.FallbackShortensCooldown | src/thermal_simd.c:390-460 | under every other configuration and interval a run of three samples from a started loop, widening to AVX2, a working emergency patch back to SSE4.1 and widening again, breaks the cooldown |
| MonitorSafety.DefaultsDoNotCover | src/thermal_config.c:46-86 | the default configuration at its 50 ms interval is one of those on every host with a wider width |
| MonitorSafety.EmergencyEndsNarrowOrFails | src/thermal_simd.c:431-446 | in every run an emergency tick ends with SSE4.1 selected, or its patch failed and left no cooldown and no new dwell epoch |
| MonitorSafety.EmergencyIsRetried | src/thermal_simd.c:431-446 | after a failed emergency fallback every later emergency tick attempts again and the first working patch ends at SSE4.1, whatever lies between; the selection has not grown meanwhile unless a tick met every widening condition |
| MonitorSafety.PersistentEmergencyNarrows | src/thermal_simd.c:431-446 | through an unbroken emergency SSE4.1 stays selected from the first working patch on |
| MonitorSafety.FallbackHoldsUntilGatedWidening | src/thermal_simd.c:431-460 | after a successful fallback nothing wider is selected until a tick that meets every widening condition, at least the narrowing cooldown and the minimum dwell later |
| MonitorSafety.SelectionGrowsOnlyGated | src/thermal_simd.c:110-123 | between any two states of a run the selection grows only through a tick with transitions allowed, validated counters, measured performance, no safety condition, open gates and raw temperature at or below ceiling minus margin |
| MonitorSafety.WithoutPermissionOnlySse41 | src/thermal_simd.c:471-477 | while transitions are not allowed the selection stays what it was or drops to SSE4.1 |
| MonitorSafety.WithoutAdviceNoWidthIsSkipped | src/thermal_simd.c:529-604 | without advice a run from SSE4.1 to AVX-512 has AVX2 selected on the way |
| MonitorHysteresis.HysteresisNeedsStreak | src/thermal_simd.c:559-580 | a widening by hysteresis ends an uninterrupted stretch with the required number of stable observations |
| MonitorHysteresis.OrdinaryExactlyWhen | src/thermal_simd.c:420-462 | a tick reaches advice and hysteresis exactly when it is measured, no safety tick, and past dwell and cooldown |
| MonitorHysteresis.StableStretchWidens | src/thermal_simd.c:559-600 | the tick that completes the required stable ticks, counted from zero, widens by exactly one width when every widening condition holds and its patch works, and otherwise changes nothing and starts the count again |
| MonitorHysteresis.ThrottlingNarrows | src/thermal_simd.c:499-557 | a stretch that nothing resets with at least the required throttled ticks ends one width narrower, or at SSE4.1 without permission; a failing patch leaves no cooldown and no new dwell epoch |
| MonitorHysteresis.FailedNarrowingIsRetried | src/thermal_simd.c:552-556 | after a failed narrowing the next measured, throttled tick past the dwell tries again |
| MonitorHysteresis.NarrowingNeedsStreak | src/thermal_simd.c:499-543 | hysteresis narrows only at the end of such a stretch, or after a failed safety fallback |
| MonitorHysteresis.AdviceIsFollowedExactlyWhen | src/thermal_simd.c:463-497 | advice changes the width exactly at an ordinary tick, to another width, with a working patch and, when wider, every widening condition; to the advised width, or to SSE4.1 without permission |
| MonitorPerf.EvaluateKeepsModes | src/thermal_perf.c:1086-1285 | an evaluation keeps the overlay in step with the mode, keeps the stay unless the mode changes, and reports performance only from validated hardware mode to validated hardware mode |
| MonitorPerf.WatchOverlay | src/thermal_perf.c:205-231 | in every run of rounds the degraded overlay is on exactly in software mode |
| MonitorPerf.TimeoutReportedExactlyOnce | src/thermal_perf.c:1306-1319 | within one stay in software mode the timeout is reported exactly at the first check that finds it expired |
| MonitorPerf.FreshStayIsUnreported | src/thermal_perf.c:198-202 | falling out of hardware mode starts a stay that has not been reported |
| MonitorPerf.DrivenOverlayIsOff | src/thermal_simd.c:396-431 | in every run of the loop that reads the perf context performance is measured only with the overlay off |
| MonitorPerf.DrivenCooldownSurvivesFallbacks | src/thermal_simd.c:390-460 | so in every such run, through any changes of mode, transitions keep the earlier cooldown when it is covered or nothing can widen |
| MonitorPerf.DrivenFallbackShortensCooldown | src/thermal_simd.c:390-460 | under every other configuration and interval the three samples that break it read a healthy hardware context |
| MonitorPerf.WideningNeedsValidatedHardware | src/thermal_simd.c:463-604 | in such a run the selection grows only through a round that measured performance in validated hardware mode with the overlay off |
| MonitorPerf.FailedTimeoutIsNotRetried | src/thermal_simd.c:431-446 | after a fallback has failed on the software timeout, later ticks of the same stay attempt one exactly at emergencies and otherwise leave the selection alone |
| MonitorPerf.TimeoutFallbackIsLeftBehind | src/thermal_simd.c:438-440 | in every configuration that can widen, a run from a started loop on healthy counters widens, loses the counters, fails the timeout fallback, and leaves AVX2 selected at the next sample although its patch would work |
| MonitorTemperature.TemperatureReportedExactlyWhen | src/thermal_perf.c:1086-1285 | a round reports the raw temperature exactly when it is available and mode, reads and counter progress let the evaluation reach the telemetry; otherwise it measures nothing either |
| MonitorTemperature.HotPackageIsEmergencyExactlyWhen | src/thermal_simd.c:416-446 | in every driven run a package above the emergency limit is an emergency exactly at such samples; at others, unless the timeout is reported, the loop does nothing |
| MonitorTemperature.HotIdlePackageStaysWide | src/thermal_perf.c:1223-1229 | in every configuration that can widen, and for any number of samples, a run from a started loop stays at AVX2 through a hot package whose workload is idle |
| MonitorVerdicts.SlowWorkloadNarrows | src/thermal_simd.c:390-557 | in a driven run, a stretch in hardware mode whose measured samples are all slow ends one width narrower once it holds the required number of ordinary samples |
| Kernels.MixScalar | benchmarks/registered_kernel.c:89-97 | the scalar loop computes the given number of mixing rounds modulo 2^32 |
| Kernels.MixVector | benchmarks/registered_kernel.c:112-121 | the vector rounds compute the scalar mix in every lane |
| Bits.XorBit | benchmarks/registered_kernel.c:89-97 | a bit of the exclusive or is set exactly when the two bits differ |
| Bits.XorTwice | benchmarks/registered_kernel.c:89-97 | a second exclusive or with the same value undoes the first |
| MixBijection.RoundTrips | benchmarks/registered_kernel.c:89-97 | every mixing round is undone by an explicit inverse |
| MixBijection.MixIsInjective | benchmarks/registered_kernel.c:89-97 | through any number of rounds distinct inputs keep distinct outputs |
| Kernels.KernelContext.Kernel | benchmarks/registered_kernel.c:99-184 | a kernel of any width rejects ranges outside the buffers and otherwise mixes exactly its range |
| ChunkedDispatch.Resolve | src/dispatch/adaptive_dispatch.c:262-285 | the resolved kernel is the widest registered one within selection and host |
| ChunkedDispatch.UsedWidth | src/dispatch/adaptive_dispatch.c:287-299 | the resolved kernel runs when it is admitted or SSE4.1, and SSE4.1 otherwise |
| ChunkedDispatch.Execute | src/dispatch/adaptive_dispatch.c:336-390 | one execution mixes its range and, on a thread that may account, accounts for it, or returns its error and changes nothing |
| ChunkedDispatch.ExecuteChunked | src/dispatch/adaptive_dispatch.c:392-417 | for any schedule of widths and faults the chunks tile the completed part, the output is the scalar mix over exactly that part and the work counter grows by the chunks that may be accounted; success means the whole range |
| ChunkedDispatch.OwnerAccountsEverything | src/dispatch/adaptive_dispatch.c:130-136 | on the owner thread the work counter grows by exactly the completed part, on any other schedule by no more |
| ChunkedDispatch.TilesCoverOnce | src/dispatch/adaptive_dispatch.c:408-414 | every index of the range lies in exactly one chunk |
| ChunkedDispatch.WidthItemsAddUp | benchmarks/registered_kernel.c:432-435 | the items executed per width add up to the range |
| ChunkedDispatch.BenchmarkResult.RunPass | benchmarks/registered_kernel.c:401-438 | a pass leaves the scalar mix of the whole input and keeps the per-width counts equal to the completed count |
| ChunkedDispatch.ChecksumOutput | benchmarks/registered_kernel.c:358-368 | the checksum loops fold FNV-1a over the little-endian bytes of the output, from the offset basis of the source, 1469598103934665603, which is not the standard one |
| ChunkedDispatch.BytesAreDigits | benchmarks/registered_kernel.c:358-368 | the bytes hashed are the digits of each value, least significant first |
| MixBijection.ChecksumDetectsOneByte | benchmarks/registered_kernel.c:358-368 | the checksum tells apart byte strings of one length that differ in one byte |
| ChunkedDispatch.ChecksumIsScheduleIndependent | benchmarks/registered_kernel.c:358-437 | two complete outputs of the same input have the scalar output and its checksum, whatever widths ran |
| TrampolineState.TaggingRoundTrips | src/patcher/trampoline_state.c:20-52 | tagging round-trips for every aligned slot and refuses every other one |
| TrampolineState.DecodingRoundTrips | src/patcher/trampoline_state.c:29-52 | a word that decodes is the tagging of what it decodes to |
| TrampolineState.PublishedCells | src/patcher/trampoline_state.c:54-107 | a completed publication leaves word and every mirror in agreement and the last attempt untouched |
| TrampolineState.ResetCells | src/patcher/trampoline_state.c:54-107 | a completed reset leaves SSE4.1 everywhere, not initialized, no attempt |
| TrampolineState.SnapshotIsNeverTorn | src/patcher/trampoline_state.c:90-121 | between any two stores of any run of publications and resets a snapshot returns exactly the pair of the operations begun so far |
| TrampolineState.MirrorsCanBeTorn | src/patcher/trampoline_state.c:109-121 | the diagnostic mirrors can show a new width with an old slot |
| Trampoline.Table.BuildPage | src/patcher/trampoline.cpp:262-323 | the page is kept only sealed and verified with every payload in place; nothing is published while it is writable |
| Trampoline.SlotsAreApart | src/patcher/trampoline.cpp:262-323 | the slots lie 64 bytes apart inside one page, in the order of the widths |
| Trampoline.LandingPadExactly | src/patcher/trampoline.cpp:140-147 | a payload is accepted exactly when it begins with the four bytes of ENDBR64 |
| Trampoline.Table.Init | src/patcher/trampoline.cpp:362-381 | initialization succeeds exactly when the page exists or can be built and the hash lock is free; it then selects SSE4.1 with no attested hash, and otherwise changes nothing published |
| Trampoline.Table.Commit | src/patcher/trampoline.cpp:227-260 | selection and hash are committed together or not at all |
| Trampoline.Table.Patch | src/patcher/trampoline.cpp:387-463 | every call records its request; it succeeds exactly for an allowed width with a sealed or buildable page, a verified mapping and a hash, and then selects the slot of its width with the hash of its payload; a failed one leaves selection and hash |
| Trampoline.Table.GuardedPatch | src/patcher/trampoline_guard.c:12-44 | it succeeds exactly when the patch does and, for a wide width, stopping is clear and the guard state authorizes it |
| Trampoline.Table.ActiveHash | src/patcher/trampoline.cpp:545-562 | a returned hash is the hash of the payload of the selected width |
| Trampoline.Table.SelfValidate | src/patcher/trampoline.cpp:465-502 | validation of a valid table fails only before the first selection or on the mapping check |
| Rollout.ScoreWidth | src/policy/mpc_controller.cpp:165-233 | the loop with its running discount and halving response computes the discounted score |
| Rollout.ScoreParts | src/policy/mpc_controller.cpp:185-232 | the score is the ratio part, the thermal part and the transition penalty |
| Rollout.ThermalPartMonotone | src/policy/mpc_controller.cpp:185-224 | for every horizon and forecast the thermal part never decreases with the width |
| RolloutForms.MassClosed | src/policy/mpc_controller.cpp:185-224 | the discounts of n steps sum to (1 - 0.9^n) / 0.1 |
| RolloutForms.ReachClosed | src/policy/mpc_controller.cpp:185-224 | the actuator lag takes a geometric sum of ratio 0.45 from it |
| RolloutForms.RatioPartAboveObjective | src/policy/mpc_controller.cpp:196-206 | while every projected ratio is at or above the objective the ratio part is 4.05 times the discounted trajectory of level, trend and benefit, less 4 times the discounted objective |
| RolloutForms.RatioPartWithinObjective | src/policy/mpc_controller.cpp:196-206 | within the objective it is 0.05 times that trajectory |
| RolloutForms.RatioPartBelowZero | src/policy/mpc_controller.cpp:196-206 | below zero it costs nothing |
| RolloutForms.ThermalPartAboveObjective | src/policy/mpc_controller.cpp:207-224 | between objective and ceiling the thermal part is a quarter of the discounted excess |
| RolloutForms.ThermalPartWithinObjective | src/policy/mpc_controller.cpp:207-224 | within both limits it is zero |
| RolloutForms.ThermalPartOverCeiling | src/policy/mpc_controller.cpp:207-224 | over the ceiling at every step, and without an objective, it is the hard constraint of every step and the discounted excess |
| RolloutForms.ThermalPartWithoutForecast | src/policy/mpc_controller.cpp:207-224 | without a forecast only an unusable ceiling costs, and only wide candidates |
| RolloutForms.ScoreMovesWithOwnPenalty | src/policy/mpc_controller.cpp:226-232 | a score moves with the penalty of its own direction, once per width, and not with the other |
| WidthChoice.ChosenWithinMargin | src/policy/mpc_controller.cpp:274-289 | the chosen cost belongs to an allowed width and is within 0.25 of the minimum over allowed widths |
| WidthChoice.DecisionIsNearlyOptimal | src/policy/mpc_controller.cpp:291-307 | a change improves the cost by at least 1; keeping the current width is within 1.25 of the best |
| WidthChoice.WideningChoosesExactly | src/policy/mpc_controller.cpp:274-307 | from the narrowest width, the decision in terms of the three costs, boundaries of both margins included |
| WidthChoice.NarrowingChoosesExactly | src/policy/mpc_controller.cpp:274-307 | and from the widest |
| RolloutForms.WideningPaysExactlyWhen | src/policy/mpc_controller.cpp:226-307 | with AVX2 the widest, widening is recommended exactly when it saves the upgrade penalty and 1 |
| RolloutForms.NarrowingPaysExactlyWhen | src/policy/mpc_controller.cpp:226-307 | narrowing exactly when it saves the downgrade penalty and 1 |
| RolloutForms.ChangePaysItsPenalty | src/policy/mpc_controller.cpp:226-307 | every recommended change, of one width or two, saves its own penalty and 1 |
| WidthChoice.OverCeilingIsNeverRecommended | src/policy/mpc_controller.cpp:165-308 | with a per-step benefit of at most 10^9 / 8.1 a wider width projected over the ceiling at the first step is never recommended while the current forecast is not above it, whatever the horizon |
| WidthChoice.OverCeilingNeedsLargeBenefit | src/policy/mpc_controller.cpp:165-308 | such a width is recommended only if the discounted saving of two full width steps, less the hard constraint at every step, exceeds the minimum improvement |
| WidthChoice.LargeBenefitOutweighsCeiling | src/policy/mpc_controller.cpp:165-308 | for every benefit and horizon that exceed it there are a configuration and a forecast in which AVX-512 is recommended over the ceiling |
| PolicyState.Controller.PushSample | src/policy/mpc_controller.cpp:108-119 | the history is the newest samples up to its limit |
| PolicyState.Controller.ComputeForecastRatio | src/policy/mpc_controller.cpp:121-131 | the forecast is the mean of the last ratios |
| PolicyState.ForecastRatioWithin | src/policy/mpc_controller.cpp:121-131 | the forecast lies between the extremes of the last controlling ratios: the trimmed one where it is positive, else the raw one |
| PolicyState.TrendSpansHorizon | src/policy/mpc_controller.cpp:250-262 | the trend carries the first ratio of the horizon to the last in its steps |
| PolicyState.ForecastTemp | src/policy/mpc_controller.cpp:133-163 | a model forecast is never below the latest measurement |
| PolicyState.ForecastTempWithin | src/policy/mpc_controller.cpp:133-163 | without a prediction the forecast exists exactly when a temperature was measured and lies between the extremes measured |
| PolicyState.PredictionIsRaised | src/policy/mpc_controller.cpp:133-163 | a prediction is raised to the latest measured temperature |
| PolicyState.Controller.ComputeForecastTemperature | src/policy/mpc_controller.cpp:133-163 | the loop computes that forecast, or the mean of the measured temperatures |
| PolicyState.Controller.Recommend | src/policy/mpc_controller.cpp:235-308 | stale, missing or unforecast history gives no advice; otherwise the advice is the decision by score |
| PolicyState.Policy.Recommend | src/policy/dispatcher_policy.cpp:191-256 | fallback, emergency and exceptions lead to SSE4.1; otherwise the advice passes, a wider width only with a recorded temperature at or below a valid limit, and without advice the width stays |
| PolicyState.Policy.Record | src/policy/dispatcher_policy.cpp:167-189 | the last raw temperature is kept, and an exception makes fallback stick |
| Base64.Base64Decode | src/observability/metrics.cpp:480-499 | the 32-bit accumulator computes the reference decoding, white space, padding and rejection included |
| Base64.DecodeInvertsEncode | src/observability/metrics.cpp:480-499 | decoding inverts the encoding of section 4 of RFC 4648 for every byte string |
| Base64.SpacesAreSkipped | src/observability/metrics.cpp:486-488 | white space may be inserted anywhere |
| Base64.BytesAreSorted | src/observability/metrics.cpp:481-491 | white space is exactly six bytes, the alphabet exactly the bytes of the 64 digits, and padding is neither; no byte is two of these |
| Base64.EncodingIsPadded | src/observability/metrics.cpp:480-499 | the reference encoding has four characters per group of three bytes |
| ConstantTimeEqual.Compare | src/observability/metrics.cpp:501-510 | the fold is zero exactly when the sizes agree modulo 2^32 and the zero-padded contents agree |
| ConstantTimeEqual.MatchesExactlyWhen | src/observability/metrics.cpp:501-510 | that is equality, except when one string is the other followed by a positive multiple of 2^32 zeros |
| ConstantTimeEqual.ShortStringsMatchOnlyWhenEqual | src/observability/metrics.cpp:501-510 | for strings shorter than 2^32 it is equality |
| ConstantTimeEqual.PresentedCredentialMatchesOnlyWhenEqual | src/observability/metrics.cpp:555-578 | for a presented string of at most 8192 bytes and an expected one without zero bytes, however long, it is equality |
| ConstantTimeEqual.EmptyMatchesZeros | src/observability/metrics.cpp:503 | the function alone has the exception |
| HistoryBaseline.WelfordRefinesBatch | src/telemetry/history_store.cpp:28-46 | after any samples the baseline is their mean and the accumulator the sum of squared deviations from it |
| HistoryBaseline.VarianceIsSampleVariance | include/telemetry/history_store.h:18-23 | variance() is the n - 1 sample variance from two samples on, and 0 before |
| HistoryBaseline.AbsorbSample | src/telemetry/history_store.cpp:32-42 | the in-place update is the incremental step |
| HistoryBaseline.Store.UpdateSocket | src/telemetry/history_store.cpp:28-46 | every record is the statistic of exactly its own socket's samples, and no other record changes |
| HistoryBaseline.Store.Get | src/telemetry/history_store.cpp:19-26 | a lookup returns the statistic of the socket's samples, the default for none |
| TelemetryBus.SlotIsGreatestExactlyWhen | src/telemetry/bus.cpp:11-24 | a slot holds the greatest (timestamp, quality) key exactly when some timestamp is positive or the last quality is the greatest |
| TelemetryBus.SlotKeyIsOrderIndependent | src/telemetry/bus.cpp:11-24 | with a positive timestamp the key does not depend on the publication order |
| TelemetryBus.ZeroTimestampsForget | src/telemetry/bus.cpp:18 | two zero timestamps defeat it |
| TelemetryBus.Bus.Publish | src/telemetry/bus.cpp:11-24 | every slot is what its own publications left, and other sources are untouched |
| TelemetryBus.Latest | src/telemetry/bus.cpp:36-49 | the latest reading is the first of those with the greatest (valid, timestamp, quality) key |
| TelemetryBus.AssignValue | src/telemetry/fusion.cpp:247-269 | the loop computes the fused selection |
| TelemetryBus.FuseSelectsGreatest | src/telemetry/fusion.cpp:247-269 | fusion selects an eligible reading with the greatest (quality, timestamp) key, or nothing when none is eligible |
| TelemetryBus.FusedExactlyWhen | src/telemetry/fusion.cpp:247-269 | there is a fused reading exactly when some candidate is valid, finite, stamped, not from the future and inside the window |
| TelemetryBus.FusedKeyIsOrderIndependent | src/telemetry/fusion.cpp:247-269 | the key does not depend on iteration order, nor does the reading when eligible keys are distinct |
| TelemetryBus.TiesAreOrderDependent | src/telemetry/fusion.cpp:257-260 | with a shared key the value does |
| TelemetryBus.FusedIsGreatestOfNewest | src/telemetry/fusion.cpp:247-269 | with a positive timestamp from every listed source the fused reading has, among the newest and then best reading of every source, the greatest (quality, timestamp) key of the eligible ones; there is none exactly when no source's newest reading is eligible |
| TelemetryBus.FusedKeyIgnoresBothOrders | src/telemetry/bus.cpp:11-34 | with a positive timestamp from every listed source and no ties within a source the fused key depends neither on publication order nor on map order |
| TelemetryBus.SourceTiesAreOrderDependent | src/telemetry/bus.cpp:18-20 | with a tie within a source it can |

## Left out

- Weak memory: steps are sequentially consistent; mutexes and condition variables do not fail, apart from the stop's named fault points.
- Integer width of counters and clocks: the in-flight counter, work and pass counters, hysteresis counts and millisecond clocks are unbounded; a failing monotonic clock is not modelled.
- Address reuse: a freed public handle is never handed out again, so a stale pointer that aliases a new handle is not modelled.
- The built-in shim of `src/thermal_simd.c` enters admission without a cleanup handler; only registered kernels are modelled.
- Cancellation state calls that fail around a callback, and the v1 chunk loop, which differs from v2 only in passing no offset.
- Trampoline.Table.BuildPage: checks all three landing pads before filling, where the original checks each before copying it; the page is discarded in both cases.
- PerfContext.PerfState.ChangeMode: does not model the admission close and the SSE4.1 patch it triggers; the close is part of the admission protocol, and the patch is a narrowing another part commits within a monitor tick.
- Perf and LLC retry backoff, affinity, file descriptors and event setup: their outcomes are inputs of a tick.
- The software-mode start-up baseline and the scripted test path of the perf context.
- MonitorLoop.Monitor: reads the policy's advice, patch outcomes and the narrowings that other threads and the mode change commit as inputs of a tick, and ends with the given ticks instead of a stop flag.
- Clocks: all mode changes of one perf evaluation use one clock value, and the perf context's nanosecond clock and the loop's millisecond clock are separate inputs.
- The fitted ARX prediction, its residual term, coefficient files and the policy tuner: the prediction is an input and the width effects are only assumed non-negative.
- Floating-point rounding, NaN and infinity beyond an "unavailable" case.
- Persistence of baselines, the snapshot ring buffer, collectors, and the observability snapshots other than the guard state.
- TelemetryBus.SlotIsGreatestExactlyWhen: takes timestamps that are not negative, as a steady clock gives.
- SHA-256 and the machine-code payloads are parameters; HTTP, TLS, logging, metrics text, option parsing, sandboxing and signal handling are not modelled.
