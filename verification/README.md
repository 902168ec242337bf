# Energy metering and pause/resume/kill runtime: a verified model

This project models, in Dafny, the energy-metering and pause/resume/kill runtime that the ActionLoop proxy
gained in `openwhisk/`, and proves what its comments promise of whole runs. `dafny verify dfyconfig.toml` verifies
the whole project.

The runtime meters an action by *execution segments*: an effective freeze closes the running segment, an
effective resume opens the next one, and nothing is attributed in between. When the energy reaches the
threshold in force, a *pause cycle* freezes the action's cgroup, reports EXECUTION_PAUSED to the scheduler and
obeys its answer. The energy state then travels to the next step of the sequence inside the result.

## Modules

- `Attribution`: one measurement window; the wrapping register; several containers on one node.
- `Segments`: the batch formula over the log of freeze marks, and its laws.
- `Metering`: the incremental meter and the marks, updated side by side; the meter refines the formula.
- `Controller`: the activation controller's state machine and the language of kernel operations it speaks.
- `EnergyStates`: extraction and reinjection of the carried state, and a whole sequence of steps.
- `WireFormat`: the names and types under which that state travels, written out.
- `PauseCycles`: the monitor and its pause cycles against an arbitrary kernel and scheduler.
- `PauseCycleLaws`, `PauseCycleEnergy`, `PauseCycleOutcomes`, `PauseCycleKills`, `PauseCycleThresholds`: what holds
  of all runs.
- `PauseCycleReports`: what a run reports, settles and records, measured against the batch formula.
- `Disturbances`: runs of the monitor in a disturbed world, on the register, compared with undisturbed ones.
- `Monitors`: the monitor as the source writes it, updating its objects in place, proved against `PauseCycles`.
- `RunHandler`: one `/run` request from parameters to response and effects, and chains of requests.
- `RequestLaws`: what one request does, told from its own parameters and action name.
- `MeasurementLaws`: what the handler measures, compared with what the monitor enforced and a kill is settled at.
- `Interactions`: the interleavings of Interact, the monitor, the action and the process exit, which refine the
  sequential invocation of `RunHandler`.
- `ExitBroadcast`: how the death of the child process reaches all who wait for it.
- `Records`: the bounded history and the `/init` record held back for its `/run`.
- `SchedulerChannel`: address cache, background resolution, bounded delivery.

## How the model reads

- Each object that the source updates in place is a class; its methods are proved to reach, field by field,
  what a function on values specifies. The laws of whole runs are lemmas about those functions.
- The outside world (readings, kernel outcomes, scheduler answers, process exit) is a parameter, given as a
  finite list per run. Every finite prefix of an endless wait is such a list, so what is proved of all lists
  holds at every moment of a wait that never ends.
- Energies are integer microjoules, CPU times integer microseconds, clocks integer nanoseconds, Joules exact
  reals. The source's floating-point share is the integer share `delta * min(ticks, capacity) / capacity`;
  `Attribution.ShareIsTruncatedRatio` shows that it is the source's formula without rounding.
- The machine's parameters (register range, proximity threshold, cores of the socket) are fixed positive
  values with the threshold at most the range, and every law holds for all of them.

## Where the code does less than its comments

The model follows the code, and each point below is a lemma.

- *Killed does not mean stopped.* A failed freeze or unfreeze leaves UNKNOWN (`openwhisk/cgroupFreezer.go:404`,
  `:437`), from which a kill is refused (`:460`), yet the cycle reports killed (`openwhisk/energyMonitor.go:583`); a
  failed local kill is reported too (`:485`), and a controller left UNKNOWN by an earlier invocation makes every
  later kill one in name only. `KilledMeansStoppedExactlyWhen` gives the exact condition, `ReportedKilledYetAlive` a
  concrete cycle and `KilledWithoutEffect` the UNKNOWN case.
- *A wait that never ends.* After a failed unfreeze an unkillable step can never resume (`StuckAfterFailedUnfreeze`),
  and if its process exits then, Interact waits for the monitor for good (`openwhisk/executor.go:225`):
  `ReturnsExactlyUnlessStuck` and `ExitCanLeaveInteractStuck`.
- *A failed resume reading "never a loss"* (`openwhisk/energySegments.go:295`): on the register it can be one.
  `FallbackNeverLosesExactlyWhen` and `FailedResumeCanLose`.
- *A step killed while frozen is measured at its energy at the freeze* (`openwhisk/energySegments.go:111-113`): the
  handler and the monitor each start from their own reading, so a kill can be recorded at another energy than the one
  it is settled at. `KillRecordedAsSettled` gives the difference and when there is none, and
  `KillRecordedBelowSettlement` an input.
- *Recorded outcomes.* An unkillable step whose freeze failed is recorded "killed" though it goes on, and
  "queued_wait", meant to stay visible (`openwhisk/energyMonitor.go:748`), is never recorded because the record
  is added only on return: `RecordedOutcome`.
- *Extraction "in every case" strips the bookkeeping* (`openwhisk/energy_state.go:143`): false when both carriers
  are mixed. `CleanedExactlyWhenNotMixed` and `ArgumentsCleanExactlyWhen` give the exact conditions,
  `MixedCarriersLeak` two concrete inputs.
- *Freeze control.* On a failed resume the second reading overwrites the first
  (`openwhisk/energySegments.go:279`): `FailedResumeControl`.
- *Backoff cap* (`openwhisk/schedulerChannel.go:209`): the first wait is not capped. `WaitsCappedExactlyWhen`.
- *Undelivered incident* (`openwhisk/schedulerChannel.go:805`): it reports the allowed attempts even when a
  refusal ended them earlier: `PostExecutionKilled`.
- *One freeze at a time* is not enforced by the meter but by the pause cycle: `RefinesExactlyWhen`,
  `FreezingTwiceBreaksRefinement` and `MonitorKeepsCoupling`.

## Model

| member | source | states |
|---|---|---|
| `Attribution.ShareBounds` | openwhisk/metrics_helpers.go:490-499 | A window's share of the node's energy is between 0 and the whole of it, whatever the CPU time and the capacity. |
| `Attribution.ShareMonotone` | openwhisk/metrics_helpers.go:490-499 | On one capacity, more node energy or more CPU time never lowers the share. |
| `Attribution.ShareIsTruncatedRatio` | openwhisk/metrics_helpers.go:494-499 | The integer share used throughout is exactly the source's formula (energy times the ratio capped at 1, truncated) computed without rounding error. |
| `Attribution.AttributionFormula` | openwhisk/metrics_helpers.go:472-512 | The whole breakdown in its own terms: capacity is the whole microseconds elapsed on every core, the ratio the CPU time to it and at most one, the attribution that ratio of the corrected energy rounded down; zero in every field when energy, CPU time or a whole microsecond is missing. |
| `Attribution.AttributionWithinDelta` | openwhisk/metrics_helpers.go:472-499 | What a window attributes is never negative and never more than the corrected node energy of that window. |
| `Attribution.AttributionMonotoneInTicks` | openwhisk/metrics_helpers.go:472-499 | With the same energy and clock readings, a later closing CPU reading never lowers the attribution, including when it makes an unmeasurable window measurable. |
| `Attribution.AttributionMonotoneInEnergy` | openwhisk/metrics_helpers.go:472-499 | Starting a non-wrapping window from an earlier energy reading never lowers what it attributes. |
| `Attribution.ContainersConserveNodeEnergy` | openwhisk/metrics_helpers.go:472-499 | Any number of containers measured on one window, with CPU times together within the socket's capacity, are charged together at most the node's energy on it, and nothing when that is not positive. |
| `Attribution.DeltaStaysInRange` | openwhisk/metrics_helpers.go:162-190 | For any two readings of a register in [0, max), the corrected difference is again in [0, max). |
| `Attribution.WrapRecoveredExactlyWhen` | openwhisk/metrics_helpers.go:162-190 | Against an unbounded true counter seen modulo max, the correction returns the true consumption if and only if it is less than one turn and either no wrap happened or the start was at the proximity threshold or above. |
| `Attribution.WrapRecoveredWithinHeadroom` | openwhisk/metrics_helpers.go:162-190 | A window that consumes at most max minus the threshold is always recovered exactly, wrapped or not. |
| `Segments.NeverFrozenIsOneWindow` | openwhisk/energySegments.go:109-121 | Without any freeze mark the batch formula is the whole-interval attribution, in all four reported figures. |
| `Segments.SegmentedSums` | openwhisk/energySegments.go:115-148 | Energy, CPU time and capacity of a step are the sums over its executed segments, and the ratio is that of the summed CPU time and capacity, at most one, zero without capacity. |
| `Segments.RunningPlusFrozenIsWhole` | openwhisk/energySegments.go:109-148 | For any quantity read at the boundaries, its gains over the executed segments plus its gains over the finished freezes telescope to last minus first reading, for any number of pauses and also when the step ends frozen. |
| `Segments.StepConservesNodeEnergy` | openwhisk/energySegments.go:109-148 | Without wrapping, a step is charged at most the node's energy from start to stop minus everything the node used between its freezes and resumes. |
| `Segments.EnergyDuringFreezesNeverCounts` | openwhisk/energySegments.go:109-148 | Adding any amounts of energy and of wall-clock time during each of the freezes, carried on to all later readings, leaves the whole breakdown of the step unchanged. |
| `Segments.FailedResumeOnlyRaises` | openwhisk/energySegments.go:295-308 | Without wrapping: when a resume reading is unusable and the segment restarts from the freeze's energy, the step's charge is at least what any usable reading would have given. |
| `Attribution.FallbackNeverLosesExactlyWhen` | openwhisk/energySegments.go:295-308 | On the register: the segment restarted from the freeze is charged at least what the resume reading would give, for all CPU times and clocks, if and only if nothing is measurable after the resume, or freeze, resume and end follow each other without a turn, or with one turn and the freeze at the proximity threshold or above. |
| `Segments.FailedResumeOnRegister` | openwhisk/energySegments.go:295-308 | The same for a whole step on the register: under that condition on one resume the fallback can only raise the step's charge, whatever the other segments do. |
| `Attribution.FallbackSafeWhenRecovered` | openwhisk/energySegments.go:295-308 | The condition holds whenever the consumption from freeze to end of segment is itself recovered by the overflow correction. |
| `Segments.FailedResumeCanLose` | openwhisk/energySegments.go:295-308 | A concrete step for which the fallback loses energy: the register wraps during a freeze taken far below the top. The comment's "never a loss" is false there. |
| `Segments.CPUTimeCountedOnce` | openwhisk/energySegments.go:287-316 | Reported CPU time over any number of pauses is at most last minus first reading, and equal to it if and only if every segment with CPU time also shows node energy and elapsed time. |
| `Segments.SegmentedThroughRegister` | openwhisk/energySegments.go:118-148 | Measured on the wrapping register, a step gets exactly the breakdown it would get on the unbounded counter when each segment stays within the headroom. |
| `Segments.StepConservesThroughRegister` | openwhisk/energySegments.go:109-148 | The same conservation bound, on the true counter, for a step measured on the wrapping register. |
| `Segments.FreezesNeverCountThroughRegister` | openwhisk/energySegments.go:109-148 | On the wrapping register too, any energy others burn and any time that passes during the freezes leave the step's breakdown unchanged, even when the register wraps while the step is frozen. |
| `Metering.MeterShowsSegmented` | openwhisk/energySegments.go:173-191 | In any coupled state, running or frozen, the incremental meter shows exactly what the batch formula computes from the marks. |
| `Metering.MeterRefinesBatch` | openwhisk/energySegments.go:118-316 | After any interleaving of closes, late refinements and resumes, with any of their readings unusable, the incremental meter equals the batch formula, provided no freeze is noted during a freeze. |
| `Metering.RefinesExactlyWhen` | openwhisk/energySegments.go:118-316 | The two forms agree at every moment of every disciplined continuation if and only if no freeze was noted during a freeze so far. |
| `Metering.FreezingTwiceBreaksRefinement` | openwhisk/energySegments.go:186-191 | A concrete pair of freezes without a resume on which meter and formula part, so the discipline above is needed; the pause cycle is what provides it. |
| `Metering.CloseKeepsCoupling` | openwhisk/energySegments.go:255-268 | Closing a segment at a freeze keeps meter and marks telling the same story, and freezes the meter exactly when the reading was usable. |
| `Metering.RefineKeepsCoupling` | openwhisk/energySegments.go:193-253 | A late CPU reading keeps meter and marks coupled and never lowers the closed energy. |
| `Metering.OpenKeepsCoupling` | openwhisk/energySegments.go:283-316 | Reopening at a resume keeps meter and marks coupled and always leaves the meter running. |
| `Metering.LateRefinementIsOrderFree` | openwhisk/energySegments.go:193-215 | Any sequence of late readings in one freeze amounts to closing directly with the highest of them at the freeze's instant and energy; the amounts returned sum to the CPU time gained; the closed energy never falls. |
| `Metering.CoupledCountsCPUOnce` | openwhisk/energySegments.go:287-316 | Whatever log the meter's own operations leave satisfies the conditions under which CPU time is counted once. |
| `Metering.SegmentedAttribution` | openwhisk/energySegments.go:118-148 | The loop over the marks computes the batch formula, including the break at a freeze never left and the ratio of the summed inputs. |
| `Metering.FreezeMarks.Reset` | openwhisk/energySegments.go:70-74 | Leaves no mark. |
| `Metering.FreezeMarks.Freeze` | openwhisk/energySegments.go:76-80 | Appends one open mark and changes no other. |
| `Metering.FreezeMarks.Resume` | openwhisk/energySegments.go:82-91 | Completes the last mark if it is open, otherwise changes nothing. |
| `Metering.FreezeMarks.RefineFreezeCPU` | openwhisk/energySegments.go:93-101 | Raises the CPU time of the last mark if it is open and the reading is later, otherwise changes nothing. |
| `Metering.StepMeter.StepUJ` | openwhisk/energySegments.go:173-184 | Returns the value `MeterShowsSegmented` speaks of, in microjoules. |
| `Metering.StepMeter.Close` | openwhisk/energySegments.go:186-191 | In-place close of the running segment, equal in every field to the specified close. |
| `Metering.StepMeter.RefineFrozenCPU` | openwhisk/energySegments.go:205-215 | In-place late refinement, equal in every field to the specified one, with the amount `LateRefinementIsOrderFree` sums. |
| `Metering.StepMeter.Open` | openwhisk/energySegments.go:217-219 | In-place reopening, equal in every field to the specified one. |
| `Controller.KernelLanguage` | openwhisk/cgroupFreezer.go:388-537 | A history of cgroup operations can be issued by some sequence of freeze, resume and kill calls, with any ids and any kernel outcomes, if and only if it is in the language (freeze unfreeze)* [freeze] [kill] where each unfreeze has its freeze's id, only the last operation may have failed, and nothing follows a kill. |
| `Controller.CallSucceedsExactlyWhen` | openwhisk/cgroupFreezer.go:388-537 | In every reachable state, a call reports success if and only if it leaves the controller in the state it is for, under this very pause id for freeze and resume; a failed call leaves the pause id. |
| `Controller.VisibleStates` | openwhisk/cgroupFreezer.go:388-537 | Between calls only RUNNING, FROZEN, STOPPED and UNKNOWN are visible; UNKNOWN, FROZEN and STOPPED each if and only if the last kernel operation says so. |
| `Controller.DeadStatesAreFinal` | openwhisk/cgroupFreezer.go:395-465 | From STOPPED or UNKNOWN no sequence of calls changes anything or reaches the kernel: in particular a kill after a failed freeze never does. |
| `Controller.RepeatedCallIsNoOp` | openwhisk/cgroupFreezer.go:388-459 | Repeating a call that succeeded succeeds again whatever the kernel would answer, and changes nothing. |
| `Controller.ActivationController.FreezeExecution` | openwhisk/cgroupFreezer.go:388-410 | The method updating state and pause id in place reaches the specified reply and state, and issues at most the one operation specified. |
| `Controller.ActivationController.ResumeExecution` | openwhisk/cgroupFreezer.go:415-443 | As above for resume, with its id check. |
| `Controller.ActivationController.KillExecution` | openwhisk/cgroupFreezer.go:453-537 | As above for kill, which refuses UNKNOWN. |
| `EnergyStates.StateSurvivesTheWire` | openwhisk/energy_state.go:90-130 | Decoding an encoded state gives it back, with only the step-local action name cleared. |
| `EnergyStates.CleanedExactlyWhenNotMixed` | openwhisk/energy_state.go:143-184 | The extracted parameters are free of energy bookkeeping if and only if the two carriers were not mixed: no hidden state beside the anchor parameter, no energy_* parameter without it. |
| `EnergyStates.MixedCarriersLeak` | openwhisk/energy_state.go:143-184 | The two concrete parameter maps for which the comment's "in every case" is false. |
| `EnergyStates.BusinessParametersUntouched` | openwhisk/energy_state.go:146-184 | A parameter outside the bookkeeping is never lost, added or altered by the extraction. |
| `WireFormat.FirstStepExtraction` | openwhisk/energy_state.go:45-166 | With the ten energy_* names written out: for every state and every business map free of those names, extracting the business map together with the parameters that hold the state - zero values possibly missing or null - gives exactly that state and that business map, also when a hidden state lies beside them. |
| `WireFormat.DecodedExactlyWhenWellTyped` | openwhisk/energy_state.go:90-164 | A first step's state is decoded if and only if each of its ten parameters is missing, null or of its own type: text, number, flag, whole number of 64 bits, map of texts. |
| `WireFormat.CorruptedStateIsDropped` | openwhisk/energy_state.go:168-180 | A hidden state that is not an object, or does not decode, is stripped and counts as none. |
| `WireFormat.ReinjectedAs` | openwhisk/energy_state.go:90-253 | The hidden object handed to the next step, name by name and type by type, the measured energy added and the action's name left out; every other field of the result unchanged. |
| `EnergyStates.ReinjectThenExtract` | openwhisk/energy_state.go:146-253 | For every result without the anchor key, extracting the reinjected result gives back the previous state with the measured energy added, and the business result without the hidden field. |
| `EnergyStates.TakeParams` | openwhisk/energy_state.go:152-159 | The loop over the ten parameter names moves exactly those present under their bare names and deletes exactly those names, in whatever order it visits them. |
| `EnergyStates.ExtractEnergyState` | openwhisk/energy_state.go:146-184 | The copying and deleting code reaches the extraction the laws are about; the input is a value and stays as it was. |
| `EnergyStates.ReinjectEnergyState` | openwhisk/energy_state.go:231-253 | The copying code reaches the reinjection the laws are about; no state in, result unchanged. |
| `EnergyStates.SequenceCarries` | openwhisk/energy_state.go:132-253 | Over any chain of steps with object results lacking the anchor key, the carried consumption is the dispatched one plus all the measured energy, the carried threshold is the last granted in any earlier step or the dispatched one, and every other wire field is unchanged. |
| `EnergyStates.ConsumptionNeverDecreases` | openwhisk/energy_state.go:211-239 | Along such a chain of non-negative measurements the carried consumption never goes down. |
| `PauseCycles.MonitoredMeansResolved` | openwhisk/energyMonitor.go:256-387 | Among monitored steps, the never-kill rule holds if and only if the step's own resolved name is mapped to UNKILLABLE: neither a missing map nor an absent name protects. |
| `PauseCycles.ObeyIs` | openwhisk/energyMonitor.go:642-793 | Every answer but the authorization of this very pause has one single effect: a kill with the named cause for a killable step, staying frozen and asking again for an unkillable one. |
| `PauseCycleLaws.UnkillableIsNeverKilled` | openwhisk/energyMonitor.go:404-795 | For all ticks, kernel outcomes and scheduler answers (failures, mismatched ids, KILL_EXECUTION, unknown commands), a run of the monitor on a never-kill step issues no kill, calls no kill and records no kill. |
| `PauseCycleLaws.CycleNeverKills` | openwhisk/energyMonitor.go:561-793 | A pause cycle of a never-kill step kills nothing and is left without a resume exactly when its freeze failed. |
| `PauseCycleLaws.ResumeNeedsAuthorization` | openwhisk/energyMonitor.go:659-735 | Against any stream of answers, every unfreeze comes right after a RESUME_EXECUTION carrying that pause's id, which itself directly answers an EXECUTION_PAUSED of the same id, and a successful one is followed at once by that command's threshold coming into force. |
| `PauseCycleThresholds.NoCommandObeyedTwice` | openwhisk/energyMonitor.go:695-735 | With fresh pause ids, over a whole run the kernel is asked at most once to unfreeze for each pause, however often its command is replayed and whatever the kernel made of it. |
| `PauseCycleLaws.ThresholdFollowsGrants` | openwhisk/energyMonitor.go:412-518 | At the end of any run, the monitor's threshold and the one it publishes are both the last put in force; something is published if and only if something was; no other field of the state moved. |
| `PauseCycleThresholds.ActsExactlyAtThreshold` | openwhisk/energyMonitor.go:436-503 | A tick does anything at all if and only if its energy reading is readable and the cumulative energy reaches the threshold in force. |
| `PauseCycleThresholds.PausesNeverEarly` | openwhisk/energyMonitor.go:448-552 | Over any run, no recorded pause cycle began below the threshold then in force. |
| `PauseCycleThresholds.OnlyCommandsMoveTheThreshold` | openwhisk/energyMonitor.go:513-735 | Over any run, each threshold put in force is that of the resume command which the unfreeze just before it obeyed, or the one already in force (freeze failure of an unkillable step). |
| `PauseCycleThresholds.LateTicksAreCounted` | openwhisk/energyMonitor.go:606-735 | However a measured freeze is left, the closed segment ends at exactly the highest CPU reading taken during the freeze, at the freeze's instant and energy; a resumed segment restarts from it, at the resume's energy if that reading is usable and the freeze's otherwise, and at the resume's clock or the present one; and the record's freeze control is exactly the CPU time the last reading found. |
| `PauseCycleEnergy.MonitorKeepsCoupling` | openwhisk/energyMonitor.go:424-521 | Every run of the monitor keeps meter and marks coupled, and between two ticks the meter is never frozen. |
| `PauseCycleEnergy.MonitorAgreesWithBatch` | openwhisk/energySegments.go:109-191 | At the end of any run of the monitor, and so at every moment of it, the live meter and the batch formula over the marks agree for any present reading. |
| `PauseCycleEnergy.MonitorCountsCPUOnce` | openwhisk/energySegments.go:287-316 | The marks left by any run of the monitor count the container's CPU time once, under the exact condition of `CPUTimeCountedOnce`. |
| `PauseCycleEnergy.KillSettlement` | openwhisk/energyMonitor.go:496-511 | A kill after an effective freeze is settled, prior consumption included, at the final energy-at-freeze of that cycle's record, and at least at what the last EXECUTION_PAUSED posted; also when the freeze could not be measured. |
| `PauseCycleReports.EveryReportIsTrue` | openwhisk/energyMonitor.go:600-631 | Over any run, for resumed, killed and waiting pauses alike, every EXECUTION_PAUSED carries the pause id of its tick and exactly the consumption before the step plus the batch formula at the reading of the effective freeze, or at the reading of the decision when the freeze could not be measured. |
| `PauseCycleReports.EveryKillIsSettledByFormula` | openwhisk/energyMonitor.go:484-511 | Every killed run, by a cycle or locally, with an effective freeze or without, is settled at the batch formula over the marks it leaves, at the reading that decided the kill, under its pause's id and under none if local. |
| `PauseCycleReports.TickKillCause` | openwhisk/energyMonitor.go:491-784 | The recorded cause of a kill is that of its cycle, or says that it was local. |
| `PauseCycleReports.KillCauses` | openwhisk/energyMonitor.go:574-792 | The cause of a cycle's kill, word for word, for each freeze outcome and each answer. |
| `PauseCycleReports.TickRecords` | openwhisk/energyMonitor.go:545-604 | A tick adds one cycle record if and only if it ends a pause cycle, and that record tells the pause id, the energy by the formula at the decision and at the effective freeze with late CPU time, and the threshold that was in force. |
| `PauseCycleReports.TickNames` | openwhisk/energyMonitor.go:485-781 | Every kernel operation, kill and report of a tick is for that tick's pause, or for none when it kills locally. |
| `PauseCycleOutcomes.KillableCycleClassified` | openwhisk/energyMonitor.go:564-793 | The whole behaviour of a killable step's cycle from RUNNING: at most one answer is ever asked for, and each combination of freeze, answer, unfreeze and kill outcomes leaves one exit, one controller state and one recorded outcome. |
| `PauseCycleKills.KilledMeansStoppedExactlyWhen` | openwhisk/energyMonitor.go:461-656 | A run that ends in a reported kill, local or by a cycle, from any controller an executor can have, leaves it STOPPED if and only if the last tick's kill reached a live cgroup and succeeded (or it was STOPPED already), and UNKNOWN otherwise; a killable step still monitored keeps a running cgroup running. The expected "killed implies STOPPED" is false. |
| `PauseCycleKills.CycleKilledMeansStopped` | openwhisk/energyMonitor.go:564-656 | The same for one cycle, from each of the four states it can begin in. |
| `PauseCycleKills.KilledWithoutEffect` | openwhisk/energyMonitor.go:484-588 | From a controller left UNKNOWN, a killable step at its threshold is reported killed at once whatever the kernel would do, and nothing reaches the kernel. |
| `PauseCycleOutcomes.ReportedKilledYetAlive` | openwhisk/energyMonitor.go:574-588 | The concrete cycle (failed freeze) reported killed though no kill operation reached the kernel. |
| `PauseCycleOutcomes.UnkillableCycleClassified` | openwhisk/energyMonitor.go:561-793 | The whole behaviour of an unkillable step's cycle from RUNNING: it is left only by a failed freeze or by the first matching resume, if the kernel obeys it; until then the controller is FROZEN, or UNKNOWN for good after a failed unfreeze. |
| `PauseCycleOutcomes.StuckAfterFailedUnfreeze` | openwhisk/energyMonitor.go:710-716 | After a failed unfreeze of an unkillable step no list of answers ever lets it go on. |
| `PauseCycleOutcomes.RecordedOutcome` | openwhisk/energyMonitor.go:550-752 | A returned cycle, begun in any controller state, is recorded "resumed" if it resumed and "killed" otherwise, also for an unkillable step that was not killed; "queued_wait" is never recorded. |
| `PauseCycleOutcomes.CycleRecordsNothingWhilePaused` | openwhisk/energyMonitor.go:717-735 | A cycle that resumed, after any number of answers and late readings, records the same energy at its effective freeze and at its effective resume. |
| `PauseCycleOutcomes.FailedResumeControl` | openwhisk/energyMonitor.go:650-708 | After a failed resume the recorded CPU-while-frozen is all that was found during the freeze if and only if the reading before the unfreeze found nothing: the second reading overwrites the first. |
| `PauseCycleOutcomes.RunAccounts` | openwhisk/energyMonitor.go:404-795 | Through any run, the kernel operations among the events are exactly those the controller issued, in order, and the controller's history stays in the kernel language. |
| `PauseCycleOutcomes.RunSpeaksKernelLanguage` | openwhisk/energyMonitor.go:404-795 | What any run of the monitor on a fresh controller makes the kernel do is in the kernel language. |
| `Disturbances.MonitorIsUndisturbed` | openwhisk/energyMonitor.go:404-521 | For any run whose segments stay within the headroom: on the wrapping register, with any energy others burn and any time that passes in each measured pause, the monitor issues the same events, posts the same values, records the same cycles, moves the same threshold and settles the same energy as on the undisturbed unbounded counter. |
| `Disturbances.OthersCannotInterfere` | openwhisk/energyMonitor.go:404-521 | Hence two disturbances of the same step cannot be told apart by anything the monitor does. |
| `Monitors.EnergyMonitorResult.SetKilled` | openwhisk/energyMonitor.go:115-121 | Records the kill and nothing else. |
| `Monitors.EnergyMonitorResult.SetThreshold` | openwhisk/energyMonitor.go:127-132 | Records the threshold, last call wins, and nothing else. |
| `Monitors.EnergyMonitorResult.AddCycle` | openwhisk/energyMonitor.go:151-155 | Appends one cycle and changes nothing else. |
| `Monitors.Executor.CloseSegmentAtFreeze` | openwhisk/energySegments.go:259-268 | Meter and marks, updated in place, reach the specified close together, and the result says whether the reading was usable. |
| `Monitors.Executor.RefineFrozenSegment` | openwhisk/energySegments.go:245-253 | Meter and marks, updated in place, reach the specified refinement together, with the late amount returned. |
| `Monitors.Executor.RefineCycleWhileFrozen` | openwhisk/energySegments.go:274-281 | The cycle's freeze control and energy-at-freeze are those of the refined meter, and untouched when the step is not frozen. |
| `Monitors.Executor.OpenSegmentAtResume` | openwhisk/energySegments.go:299-316 | Meter and marks restart together from the specified reading, usable resume or not, also when the clock could not be read. |
| `Monitors.Executor.KillOrRetryPoll` | openwhisk/energyMonitor.go:642-657 | In-place form of the single choke point: kills with its cause noted, or leaves everything as it was for an unkillable step. |
| `Monitors.Executor.ObeyAnswer` | openwhisk/energyMonitor.go:687-793 | In-place handling of one answer, reaching in every field the specified effect the run laws are about. |
| `Monitors.Executor.ReportAndObey` | openwhisk/energyMonitor.go:659-794 | The polling loop reaches the specified loop's state, record, events and exit for any list of answers. |
| `Monitors.Executor.RunPauseCycle` | openwhisk/energyMonitor.go:535-795 | The whole cycle in place reaches the specified cycle: controller, meter, marks, record, events, returned values, and the record appended on every return. |
| `Monitors.Executor.HandleTick` | openwhisk/energyMonitor.go:436-518 | One tick in place reaches the specified tick, on the monitor's own copy of the energy state. |
| `Monitors.Executor.MonitorEnergy` | openwhisk/energyMonitor.go:404-521 | The monitor's loop in place reaches the specified run for any ticks; only its own copy of the energy state moves; an unreadable first reading ends it at once. |
| `Interactions.EveryInterleaving` | openwhisk/executor.go:175-263 | Under every interleaving of Interact, monitor, action and process exit, over any number of invocations: the caller's state is untouched until Interact publishes, and at the return the kill, the caller's state, the marks and the controller are exactly what the sequential `RunHandler.Interact` specifies for the readings and answers the monitor took. |
| `Interactions.ExecutorKeepsOneHistory` | openwhisk/cgroupFreezer.go:388-537 | Under every interleaving and over any number of invocations of one executor, all its kernel was ever asked is one history of the kernel language, which later invocations only add to. |
| `Interactions.MonitorNeverReadsALaterThreshold` | openwhisk/executor.go:229-253 | A watching monitor decides on the dispatched threshold or the last granted one, as the run it has made says: the publication never feeds back into a running monitor. |
| `Interactions.ReturnsExactlyUnlessStuck` | openwhisk/executor.go:204-228 | An invocation in progress can return by steps of Interact and the monitor alone if and only if it has an answer or an exit to select and its monitor is not in a pause whose controller is UNKNOWN. |
| `Interactions.StuckForGood` | openwhisk/executor.go:224-225 | From such a state no sequence of actions whatever makes Interact return: it waits for a monitor that never finishes. |
| `Interactions.ExitCanLeaveInteractStuck` | openwhisk/energyMonitor.go:710-716 | For every unkillable step at its threshold there is a run of five actions (pause, failed resume, exit) after which Interact never returns. |
| `ExitBroadcast.CloseReleasesEveryone` | openwhisk/executor.go:297-338 | With the channel closed at the child's death, all receivers still waiting can be released, in any order, whatever waits, receptions and polls of Exited() came before. |
| `ExitBroadcast.SendReleasesAtMostOne` | openwhisk/executor.go:303-325 | One value sent instead releases at most one receiver ever, and once it is taken nobody else. |
| `ExitBroadcast.PollStarvesInteract` | openwhisk/executor.go:305-309 | The concrete starvation: with one value sent, a single poll of Exited() leaves Interact waiting for good. |
| `Records.PushesOfHistory` | openwhisk/metrics_helpers.go:669-700 | Over any history of recorded calls the pushes are exactly: each /run in order, preceded by the record just before it, tagged like it, when that one was not a /run; an overwritten held-back record is never pushed. |
| `Records.EveryRunPushedOnce` | openwhisk/metrics_helpers.go:691-695 | Over any history of recorded calls, the /run pushes are the /run records, each once and in order. |
| `Records.InitDirectlyPrecedesItsRun` | openwhisk/metrics_helpers.go:669-695 | Over any history of recorded calls, every push that is not a /run is an /init directly followed by a /run push with the same trace, activation and phase. |
| `Records.InitKeepsItsMeasurement` | openwhisk/metrics_helpers.go:671-687 | Over any history, each pushed /init has, field by field, the start, end, energy, breakdown and lifecycle of the record directly before the /run pushed after it. |
| `Records.StoredOfHistory` | openwhisk/metricHandler.go:192-205 | After any history each endpoint's stored list is the last `limit` accepted entries of its whole history, all of them when the limit is not positive. |
| `Records.StoredIsTheEnd` | openwhisk/metricHandler.go:199-204 | Entry by entry, an endpoint's stored list is the end of its accepted history, at most `limit` entries of it. |
| `Records.AcceptedUnlessBlank` | openwhisk/metricHandler.go:192-195 | An entry is accepted as the last of its endpoint unless its start and end are both zero. |
| `Records.Metrics.Add` | openwhisk/metricHandler.go:192-205 | In-place append and trim, equal to the specified update of the whole map. |
| `Records.Metrics.Snapshot` | openwhisk/metricHandler.go:207-217 | The copying loop returns the whole stored map. |
| `Records.Recorder.RecordCall` | openwhisk/metrics_helpers.go:665-700 | In-place recording reaches the ledger the history laws are about. |
| `SchedulerChannel.BackoffIsCappedDoubling` | openwhisk/schedulerChannel.go:279-297 | The wait after the i-th further failure is base times 2^i capped at the maximum; the first wait is the base uncapped; with base at most the maximum one formula covers all. |
| `SchedulerChannel.WaitsCappedExactlyWhen` | openwhisk/schedulerChannel.go:209-297 | The waits the resolver made all respect the documented cap if and only if the configured base does or it made none. |
| `SchedulerChannel.ResolveInBackground` | openwhisk/schedulerChannel.go:278-299 | The resolver's loop stops at the first success or after the allowed attempts, waits the specified backoff between two attempts and never after the last; its waits respect the cap if and only if the base does or one attempt was enough. |
| `SchedulerChannel.PostExecutionKilled` | openwhisk/schedulerChannel.go:745-806 | Delivery stops at the first status of 200 to 299 or 400 to 499 and at no other answer, n attempts wait base times (2^(n-1) - 1) in all, and the undelivered incident is raised if and only if it was not delivered, always reporting the allowed number of attempts. |
| `SchedulerChannel.CacheIsTrustworthy` | openwhisk/schedulerChannel.go:223-388 | Under any interleaving of dials, failures, forgetting, restarts and background resolution, at most one resolver is alive, its attempts are bounded, and a non-empty cached address for a name was obtained by resolving that very name. |
| `SchedulerChannel.FailedKeptAddressIsGone` | openwhisk/schedulerChannel.go:346-359 | Wherever it is interleaved, a dial that fails at a kept address leaves that name without address and every other name as it was, and then has a resolution of that very name under way unless another one was. |
| `SchedulerChannel.ConnectedDialIsKept` | openwhisk/schedulerChannel.go:383-386 | A dial that connects after resolving a name keeps the target for that name; any other that connects leaves the cache as it is. |
| `SchedulerChannel.DialIsChannelRun` | openwhisk/schedulerChannel.go:342-388 | A dial run on its own is one run of the interleaved channel, so the object's dial is covered by the interleaving law. |
| `SchedulerChannel.AddrCache.Get` | openwhisk/schedulerChannel.go:232-239 | Returns the kept target for that very name, empty for any other. |
| `SchedulerChannel.AddrCache.Set` | openwhisk/schedulerChannel.go:241-245 | Replaces the one kept name and target, leaving the resolving flag. |
| `SchedulerChannel.AddrCache.Forget` | openwhisk/schedulerChannel.go:247-253 | Forgets the target only if it is kept for that name. |
| `SchedulerChannel.AddrCache.StartResolving` | openwhisk/schedulerChannel.go:259-271 | Starts a resolver if and only if none is running and the host is a name. |
| `SchedulerChannel.AddrCache.RunResolver` | openwhisk/schedulerChannel.go:272-299 | The resolver keeps the first resolved target under its own name and lowers the flag however it ends. |
| `SchedulerChannel.AddrCache.ResolveInPlace` | openwhisk/schedulerChannel.go:361-373 | In-place resolution makes at least one and at most the allowed attempts, and stops before the last allowed one only on a success or when the caller's time is over. |
| `SchedulerChannel.AddrCache.DialContext` | openwhisk/schedulerChannel.go:342-388 | A dial aims at the kept target when there is one, resolves otherwise, and leaves the cache as the specified dial does: kept on success, forgotten with a resolver started on failure. |
| `RunHandler.ShortNameIsLastSegment` | openwhisk/energyMonitor.go:190-201 | The short name holds no '/', is a suffix of the qualified name, and starts either at its beginning or right after a '/'. |
| `RunHandler.PublishedIsLastGranted` | openwhisk/executor.go:229-253 | What the caller is handed back after the join is the dispatched state under the last threshold granted, nothing else moved. |
| `RunHandler.CompletedRunIsSequenceStep` | openwhisk/runHandler.go:141-366 | A completed request's body is one step of `SequenceCarries`: the energy measured by segments, never negative, added to the decoded state under the last granted threshold. |
| `RunHandler.ChainCarries` | openwhisk/runHandler.go:141-366 | Over any chain of completed requests whose results lack the anchor key, the state reaching the last step is the dispatched one with all measured energy added, under the last threshold granted on the way, nothing else moved. |
| `RunHandler.KilledEventIsSettledAtFreeze` | openwhisk/runHandler.go:221-236 | For a kill after an effective freeze, EXECUTION_KILLED carries the pause id and the final energy-at-freeze of the last recorded cycle, at least what the last EXECUTION_PAUSED announced. |
| `RunHandler.UnkillableIsNeverAnsweredKilled` | openwhisk/runHandler.go:215-297 | No request of a never-kill step is ever answered as killed. |
| `RequestLaws.DeclaredUnkillableIsNeverAnsweredKilled` | openwhisk/runHandler.go:171 | On the request itself: if the decoded class map declares a name UNKILLABLE, and the action is called that, alone or behind a '/', the request is never answered as killed. |
| `RequestLaws.MonitoredExactlyWhen` | openwhisk/energyMonitor.go:378-422 | A request is monitored if and only if it decodes a state with a positive threshold, the first reading can be taken, and the action has a name whenever the state has a class map. |
| `RequestLaws.KilledEventCarries` | openwhisk/runHandler.go:221-236 | Every EXECUTION_KILLED carries the request's trace, reservation and phase, the action's short name, the cleaned arguments, and the consumption before the step plus the step's own by the batch formula, for cycle, failed-freeze and local kills alike. |
| `RequestLaws.AnsweredByTheAction` | openwhisk/runHandler.go:299-366 | A step that went through is answered by what its action returned: no answer, unreadable, passed through, or completed with its own fields and the hidden state exactly when a state came in. |
| `RequestLaws.NotAnsweredByTheAction` | openwhisk/runHandler.go:135-297 | A request is refused as exited, left paused or answered killed if and only if the process was found dead, the monitor still waits, or it ended in a kill. |
| `RequestLaws.RecordedExactlyWhen` | openwhisk/runHandler.go:262-382 | Something is pushed if and only if the request is killed, passed through or completed; the executor is given up if and only if it is killed or without answer; an event is posted if and only if it is the answer's. |
| `RequestLaws.RecordTells` | openwhisk/metrics_helpers.go:645-663 | The record tells when the request came and ended, its activation, trace, phase and cycles, and, at the same closing reading, the very energy handed on to the next step. |
| `RunHandler.ArgumentsCleanExactlyWhen` | openwhisk/runHandler.go:155-196 | The business code sees no energy bookkeeping if and only if there was none, or a state was decoded and the carriers were not mixed. |
| `RunHandler.MeasuredTraceIsStates` | openwhisk/runHandler.go:147-189 | Whenever a state is decoded, from either carrier, the measurement's trace tag is that state's trace. |
| `RunHandler.ChainKeepsTrace` | openwhisk/runHandler.go:147-189 | Every step of a chain is measured under the dispatched trace and execution phase. |
| `RunHandler.Interact` | openwhisk/executor.go:175-263 | Resets the marks, runs the monitor, and hands back the action's answer, the kill, the cycles' records, the published threshold and the marks of the specified run. |
| `RunHandler.RecordedBeforeTold` | openwhisk/runHandler.go:238-386 | In every request, before the executor of a killed step is given up, its event posted, or a killed, completed or passed-through answer sent, the ledger already holds everything the request pushes: the held-back /init, then its /run; nothing is pushed otherwise or later, and the answer is the last effect. |
| `MeasurementLaws.KillRecordedAsSettled` | openwhisk/metrics_helpers.go:626-643 | For a step killed while frozen, whatever the readings taken after its death: EXECUTION_KILLED settles the energy closed by the monitor, the record is that energy corrected by what the first segment gets from the handler's start instead of the monitor's (the settled energy standing in for a zero), and the two are equal if and only if that correction is zero or the settled energy stands in. |
| `MeasurementLaws.KillRecordedBelowSettlement` | openwhisk/runHandler.go:104-133 | Concrete kills, for any killable step at its threshold, whose settlement is 1000 µJ and whose record is 550 µJ, because the handler's first reading is a millisecond before the monitor's. |
| `MeasurementLaws.MeasuredVersusEnforced` | openwhisk/runHandler.go:337-344 | The energy reinjected for the next step is what the monitor's meter shows at the same closing reading, corrected by the first segment in the same way. |
| `MeasurementLaws.StepCountsCPUOnce` | openwhisk/metrics_helpers.go:619-627 | Over a whole request, from the handler's own start and over any pauses, CPU time is at most what the container used, and all of it if and only if no segment with CPU time is unmeasurable. |
| `MeasurementLaws.StepMeasuredWithinNode` | openwhisk/runHandler.go:337-341 | Without wrapping, the energy a step hands on is never negative and at most what the node used from the handler's start to the step's stop, freezes excluded. |
| `RunHandler.ActionProxy.Handle` | openwhisk/runHandler.go:101-402 | The handler in place reaches the specified response, the specified effects in order (pushes, executor given up, event posted, answer) and the specified ledger, and gives up its executor if and only if the step was killed or the process gave no answer. |
| `RunHandler.ActionProxy.RecordRun` | openwhisk/metrics_helpers.go:594-700 | The record of a request - trace and phase of the carried state, energy by segments, the settled energy in place of a zero - goes through the ledger, and the effects are exactly what the ledger pushed. |
## Left out

- Rounding, overflow and NaN of IEEE doubles, and with them the failure of JSON encoding on NaN or infinity in
  reinjection.
- Overflow of the 64-bit counters; the two carried 64-bit limits are modelled with their width.
- JSON text, number formatting and the decoder's case-insensitive match of field names; objects are maps.
- Aliasing of the maps and slices that the source copies: they are values here, so "the input is not changed"
  holds by construction.
- Several invocations at once on one executor, which the source calls unsound (`openwhisk/executor.go:332`).
- Real time: polling intervals, timeouts and latencies; only the list of retry waits is kept.
- A request body that does not decode: it behaves as one without energy bookkeeping.
- The wait for the killed process to be reaped (`waitOnce`, unbounded by default): a kill is one kernel outcome.
- cgroup, RAPL and `/proc` reading and writing, `parseCoreMask`, `pickIP`, environment variables: outcomes and
  parameters.
- Connection tracing (`connRecorder`), `[safety]` payloads, lifecycle timings: observations without effect on state.
- `pushMetrics`: the retry shape of `postExecutionKilled` again. The asynchronous pushes of `recordMetrics` have no
  order to state; the synchronous ones are modelled.
- `/init`, compilation, archives, launchers and the other endpoints of the proxy.
- The monitor's counters of samples and of time spent, and the sizes and durations reported of the sidecar.
- Disturbances.MonitorIsUndisturbed: a pause whose freeze or resume could not be measured is not disturbed, since the
  source charges it to the running step by design (`openwhisk/energySegments.go:255-258`, `:295-298`).
- Segments.FreezesNeverCountThroughRegister: as for every law read through the register, each running segment must
  stay within the headroom above the overflow bound; beyond it the source itself cannot tell (see
  `WrapRecoveredExactlyWhen`).
- PauseCycleEnergy.MonitorAgreesWithBatch: with the monitor's own first reading; `MeasuredVersusEnforced` carries it
  over to the handler's.
