# A verified model of OpenHTF

OpenHTF runs hardware tests: phases on killable threads, measurements with validators, diagnosers,
a layered configuration, and a conversion of the finished test record to protocol buffers. This
project models the parts of it whose correctness is not obvious from any one function, and proves
what those parts promise. `dafny verify dfyconfig.toml` checks everything.

| file | what it models |
|---|---|
| `StopProtocol.dfy` | the executor thread, any number of `stop()` and `reset_stop()` calls and the killable phase threads as one small-step transition system (one lock, one running lock per thread, two flags, an unlocked write), with an inductive invariant |
| `PhaseExecution.dfy` | the retry loop, the phase records it leaves and rewrites, and the failure checkpoints that read them |
| `StateWatch.dfy` | watchers of a plug's state and its mutators: event registered under a lock, state read and written outside of it |
| `Names.dfy`, `UniqueNames.dfy`, `PhaseUniquizer.dfy` | string order, decimal printing, `splitext`; unique names; the in-place re-keying of all phases' dictionaries |
| `AttachmentPacking.dfy` | packing attachments under a byte budget, and repeating that until everything is sent |
| `DimensionedValues.dfy`, `MeasurementOutcomes.dfy` | the ordered dictionary of a dimensioned measurement and its incremental cache; the outcome machine and `Collection` |
| `MultidimConversion.dfy` | dimensioned measurements as attachments and back |
| `Diagnoses.dfy` | the diagnosis store, diagnosers that may fail part-way, conditions |
| `Configuration.dfy` | declared, loaded and flag values; programs with nested `save_and_restore` |
| `Clock.dfy`, `RateLimiter.dfy`, `Monitor.dfy` | `call_at_most_every` and the monitor's sampling schedule over real time |
| `PhaseTree.dfy` | sequences, groups, branches and subtests and their transformers |

Code that updates objects, dictionaries or lists is a class or a method with a loop, proved against
a function on values (`Once`, `Execute`, `Fates`, `SetItemSpec`, `Exec`, ...); the results about
all inputs and all runs are lemmas about those functions and about the transition systems.
Concurrency is interleaving of single steps; time is a clock that may pass by any amount; the
answers of user code (phases, validators, transforms, diagnosers) are parameters, and may be exceptions.

## Where the code does not do what its documentation says

The model follows the code. Each of these is proved, together with the exact condition under which
the promise does hold.

- A `reset_stop()` between the first two statements of `stop()` undoes it, and later phases start (`StopProtocol.StopHoldsIff`, `StopCanBeLost`).
- The phase function can still begin after `kill()` returned, when the thread stood between its test of `_killed` and the call; the exception has been posted to it by then (`StopProtocol.LateEntryIff`, `KillProtocol`).
- A phase that finishes as its deadline passes, after its outcome was looked for and before its thread is asked whether it is alive, is answered for as killed (`StopProtocol.FinishedPhaseReadAsKilled`); it is answered for by its outcome if and only if that was there when it was looked for (`JoinAnswersStoredIff`).
- `wait_for_plug_update` can answer the state that the caller already had, when a notify changed nothing or was undone (`StateWatch.AnswersComeFromHistory`, `RemoteStateCanBeAnswered`).
- With `run_if` and `repeat_on_measurement_fail`, a phase that is not run rewrites the record of another phase, or raises IndexError (`PhaseExecution.EarlierRecordsUntouchedIff`).
- A `stop()` after a failed attempt's FAIL was rewritten for a repeat erases the failure: the record says SKIP, and no checkpoint sees it (`FailureCheckpoints.LastFailureIsSeenIff`, `StopErasesTheLastFailure`).
- Unique names clash exactly if a name given once is a numbered form of a repeated one (`UniqueNames.UniqueNamesDistinctIff`). Even if they do not, re-keying in place loses an entry when a moved key lands on another key of its phase (`PhaseUniquizer.PhaseKeepsEntriesIff`, `DistinctNamesCanLose`).
- Two different attachments to upload with the same name and size: only one content ends up in the cache (`AttachmentPacking.OwnContentIff`), and the one that is skipped in that cycle is never sent (`OwnContentSentIff`, `SecondNeverSent`); if both fit the budget, both are sent (`BothSentWithinBudget`). Making names unique does not rule this out (`UniquizedNamesCanClash`).
- The cache of a dimensioned measurement keeps values from before the transform (`DimensionedValues.AgreesAfterSetIff`); a coordinate that is no tuple is refused, but not while the cache is gone (`TupleKeysAfterSetIff`, `BytesAfterOverrideExample`).
- A value whose conversion raises is stored without being validated (`MeasurementOutcomes.OutcomeMachine`, `ConversionLeavesOldVerdict`).
- `marginal` is never reset, so that a failed measurement can be reported as MARGINAL_PASS (`MultidimConversion.FailureReportedAsPass`).
- A dimensioned measurement without a value cannot be read back, and with one dimension the coordinates come back wrapped twice (`MultidimConversion.RoundTrip`, `RowsSurviveIff`).
- Results of different enumerations with the same value are one result to the diagnosis store (`Diagnoses.CheckIff`).
- A configuration snapshot also lists values loaded for undeclared keys (`Configuration.AsDictIff`); declarations made inside a wrapped function stay (`SaveAndRestoreReadsIff`).
- A monitor sample that is quicker than the mean may repeat the last sample number (`Monitor.NumberRepeatsIff`, `QuickSampleRepeats`).
- `PhaseGroup.combine` and `wrap` turn a section that is a branch or a subtest into a plain sequence (`PhaseTree.CombineKeepsSectionIff`), and a subtest that is itself a section is not seen by the duplicate check (`SeesAllSubtestsIff`, `HiddenDuplicateExample`).

## Model

| member | source | states |
|---|---|---|
| `KillableThreads.AdvanceKeepsInv` | openhtf/util/threads.py:102-118 | a step of a thread takes back no kill, no post and no outcome, stores an outcome when the phase function returns or its exception is handled, never lets a killed thread that is outside get inside, and frees the running lock only as its holder; a thread that is over and not killed has its outcome |
| `KillableThreads.KillStepKeepsInv` | openhtf/util/threads.py:127-192 | a step of `kill()` sets no state back and disturbs no other `kill()`; its return leaves the thread killed, with an exception posted if it is inside |
| `KillableThreads.KillPostsIff` | openhtf/util/threads.py:160-170 | an undisturbed `kill()` posts an exception exactly to a thread that is alive with its running lock held, and otherwise only sets `_killed` |
| `StopProtocol.StepKeepsInv` | openhtf/core/phase_executor.py:199-222 | every step of executor, `stop()`, `reset_stop()` and threads keeps the invariant over locks, captured threads and kills |
| `StopProtocol.ReachableInv` | openhtf/core/phase_executor.py:334-357 | the invariant holds after every interleaving |
| `StopProtocol.OnlyCurrentRunsUnkilled` | openhtf/core/phase_executor.py:334-357 | with the lock free, the only unkilled thread that may run is `_current_phase_thread` |
| `StopProtocol.JoinReturnsWhenOverOrKilled` | openhtf/core/phase_executor.py:199-222 | `join_or_die` returns only when the phase function is over or its thread is killed, and what each of its three answers tells about the thread |
| `StopProtocol.OverHasOutcome` | openhtf/core/phase_executor.py:175-197 | in every reachable state, a phase that is over and was not killed has its outcome |
| `StopProtocol.OutcomeInTimeIsAnswered` | openhtf/core/phase_executor.py:211-219 | a phase that returns, or whose exception is handled, before its outcome is read is never killed by the executor and is answered for by that outcome, in every later run |
| `StopProtocol.JoinAnswersStoredIff` | openhtf/core/phase_executor.py:211-222 | a join answers the stored outcome if and only if it is there as the join reads it |
| `StopProtocol.FinishedPhaseReadAsKilled` | openhtf/core/phase_executor.py:211-222 | a phase that was never killed and has its outcome, answered for as killed because it finished between the two tests |
| `StopProtocol.StoppedPhaseUnwinds` | openhtf/util/threads.py:102-118 | a killed phase that ends without an outcome and is answered for as killed |
| `StopProtocol.StoppedPhaseCanReturn` | openhtf/util/threads.py:102-118 | a killed phase that catches the exception posted to it, returns, and is answered for by its outcome |
| `StopProtocol.KillProtocol` | openhtf/util/threads.py:160-192 | after `kill()` returned, a thread inside its phase function has an exception posted and was inside already |
| `StopProtocol.KilledBeforeCheckNeverEnters` | openhtf/util/threads.py:102-110 | killed before its test of `_killed` (even before it was started), a thread never enters and never gets an outcome |
| `StopProtocol.LateEntryIff` | openhtf/util/threads.py:102-109 | a thread can still enter after `kill()` returned exactly if it stood between the test and the call |
| `StopProtocol.LateEntryIsReachable` | openhtf/util/threads.py:160-170 | such a state is reached by some interleaving |
| `StopProtocol.StopSafety` | openhtf/core/phase_executor.py:419-450 | from the end of `stop()`'s lock section to `reset_stop()` no phase thread is made or started, and every thread that may run was captured or is killed; when `stop()` returns, all are killed |
| `StopProtocol.StopHoldsIff` | openhtf/core/phase_executor.py:419-450 | that holds if and only if `_stopping` is still set when `stop()` leaves its lock section |
| `StopProtocol.StopCanBeLost` | openhtf/core/phase_executor.py:419-450 | a reachable state in which it is not |
| `StopProtocol.ExecutorCanStartAnother` | openhtf/core/phase_executor.py:300-357 | with `_stopping` clear the executor alone gets from any of its steps to a started phase thread |
| `StopProtocol.ExecutorComesBack` | openhtf/core/phase_executor.py:300-357 | from any of its steps the executor gets back outside by its own steps, with `_current_phase_thread` cleared, and makes a thread only if it then finds `_stopping` clear |
| `StopProtocol.ThreadCanEnd` | openhtf/util/threads.py:102-118 | a thread that no `kill()` is probing can end by its own steps, its phase function returning or raising, with its outcome stored |
| `StopProtocol.PendingThreadCanEnd` | openhtf/util/threads.py:102-118 | a posted exception can end the thread from wherever it is, with the outcome it had and its lock released |
| `StopProtocol.StopCanReturn` | openhtf/core/phase_executor.py:422-450 | with the lock free or its own, a `stop()` call can return by its own steps, for the thread that is current as it gets the lock, and does nothing but kill that one, if it is alive |
| `StateWatch.StepKeepsInv` | openhtf/util/__init__.py:198-216 | every step of mutators and watchers keeps the invariant |
| `StateWatch.UnsetEventsAreRegistered` | openhtf/util/__init__.py:198-206 | an event that was handed out is set or still registered |
| `StateWatch.StaleSnapshotIsOwed` | openhtf/util/__init__.py:198-216 | a stale snapshot with its event unset is owed a wake-up by a mutator that has written and not finished notifying |
| `StateWatch.QuiescentUnsetIsCurrent` | openhtf/util/__init__.py:198-216 | with no such mutator, an unset event means a current snapshot |
| `StateWatch.CompletedUpdateSetsEvent` | openhtf/util/__init__.py:208-216 | an update written after the snapshot that has been notified has set the event |
| `StateWatch.NoneMeansNoUpdate` | openhtf/plugs/__init__.py:381-386 | None is answered only if the snapshot was the remote state and no later update completed |
| `StateWatch.OnlyTimeOutAnswersNone` | openhtf/plugs/__init__.py:381-386 | the time-out is the only step to that answer; the answers with a state are those of `AnswersComeFromHistory` |
| `StateWatch.HistoryIsState` | openhtf/util/__init__.py:198-216 | the state is the last value of the history of writes |
| `StateWatch.AnswersComeFromHistory` | openhtf/plugs/__init__.py:381-386 | over any run, an answer is either a value the state held during the call that is not the remote state, or, after the first reading found the remote state and the event was set, the value that the state held at a second reading behind that |
| `StateWatch.WakingAnswerIsRecent` | openhtf/plugs/__init__.py:381-386 | the second reading is as recent as every write of the notify that set the event, and of every notify that has completed |
| `StateWatch.TicketsNameValues` | openhtf/util/__init__.py:208-216 | the t-th write is the t-th value of the history |
| `StateWatch.RemoteStateCanBeAnswered` | openhtf/plugs/__init__.py:381-386 | a run in which a call is woken and answers the remote state |
| `StateWatch.SetEventsAreDropped` | openhtf/util/__init__.py:211-216 | between notifies no event that is set is still registered |
| `StateWatch.NobodyIsStuck` | openhtf/util/__init__.py:198-216 | a call that has not answered can go on or time out, or waits for the lock of a party that can go on |
| `PhaseExecution.PhaseExecutor.ExecutePhaseOnce` | openhtf/core/phase_executor.py:300-365 | one attempt: the record appended, if any, and the outcome, which are those of `RecordedIff` and `ReturnedIff` |
| `PhaseExecution.RecordedIff` | openhtf/core/test_state.py:746-895 | an attempt is recorded iff `run_if` lets it begin, and is PASS, FAIL, SKIP or ERROR exactly in the stated cases of what the phase returned, kill, timeout, validators, measurements, diagnosers and the repeat limit |
| `PhaseExecution.ReturnedIff` | openhtf/core/phase_executor.py:300-365 | exactly when an attempt returns a timeout, a kill, an exception, STOP (at the repeat limit and for `stop_on_measurement_fail`, too), REPEAT, SKIP, FAIL_SUBTEST, FAIL_AND_CONTINUE or CONTINUE |
| `PhaseExecution.PhaseExecutor.ShouldRepeat` | openhtf/core/phase_executor.py:244-259 | whether to repeat, and the last record's FAIL rewritten to SKIP only when a repeat is left |
| `PhaseExecution.PhaseExecutor.ExecutePhase` | openhtf/core/phase_executor.py:261-298 | the whole loop leaves the records and answers the outcome that `Execute` says |
| `PhaseExecution.RepeatedIff` | openhtf/core/phase_executor.py:244-298 | where `run_if` does not interfere, every attempt but the last was to be repeated, by what happened in it, and not the limit-th; the last was not, or a `stop()` came; and what is returned |
| `PhaseExecution.ForcedRepeatsReachLimit` | openhtf/core/phase_executor.py:279-298 | a phase with `force_repeat` is run three times if no limit or 0 is given, once for a negative limit, and limit times otherwise |
| `PhaseRecords.DiagnosersNeverRepeat` | openhtf/core/test_state.py:860-895 | diagnosers never turn a result into REPEAT |
| `PhaseExecution.AttemptsAreBounded` | openhtf/core/phase_executor.py:283-298 | at most max(1, limit) attempts, for all results and all stop timings |
| `PhaseExecution.NeverReturnsRepeat` | openhtf/core/phase_executor.py:351-365 | no execution returns REPEAT |
| `PhaseExecution.EarlierRecordsUntouchedIff` | openhtf/core/phase_executor.py:244-298 | exactly when earlier records survive, and exactly when IndexError is raised |
| `PhaseExecution.SkippedPhaseCanEraseAFailure` | openhtf/core/phase_executor.py:252-258 | an execution in which a skipped phase turns another phase's FAIL into SKIP |
| `PhaseExecution.RepeatAndTimeoutAreNotFail` | openhtf/core/test_state.py:808-858 | an attempt repeated by REPEAT or timeout is not recorded FAIL |
| `PhaseExecution.RepeatsLeaveOneVerdict` | openhtf/core/phase_executor.py:244-298 | each attempt adds one record, with the outcome it was recorded with, except that before the limit every FAIL has become SKIP |
| `PhaseExecution.FailureIsRepeatedOrStopped` | openhtf/core/phase_executor.py:283-298 | an execution that ends before the limit on an attempt recorded FAIL was cut off by a `stop()` |
| `FailureCheckpoints.AllIsWidest` | openhtf/core/phase_branches.py:241-265 | LAST or SUBTEST triggering implies ALL triggering; the error comes exactly without records |
| `FailureCheckpoints.TriggersIff` | openhtf/core/phase_executor.py:377-406 | a checkpoint triggers iff a record that it looks at has failed; its outcome is its action or CONTINUE, and an exception exactly without records or for FAIL_SUBTEST outside of a subtest |
| `FailureCheckpoints.CheckpointsSeeTheLastAttempt` | openhtf/core/phase_branches.py:241-265 | behind a repeated phase, LAST triggers iff the last attempt was recorded FAIL and was the limit-th, ALL iff that or an earlier record is FAIL, SUBTEST likewise |
| `FailureCheckpoints.LastFailureIsSeenIff` | openhtf/core/phase_executor.py:377-406 | checkpoints see a failed last attempt, and stop the test or fail the subtest, if and only if it was the limit-th; otherwise a `stop()` came after its FAIL was rewritten |
| `FailureCheckpoints.WithoutStopLastFailureIsSeen` | openhtf/core/phase_executor.py:283-298 | if no `stop()` lands, LAST triggers iff the last attempt failed, ALL iff that or an earlier record did |
| `FailureCheckpoints.StopErasesTheLastFailure` | openhtf/core/phase_executor.py:283-298 | an execution whose only attempt failed, and that no checkpoint sees |
| `Names.LessTrichotomy` | openhtf/output/proto/mfg_event_converter.py:310 | the order that sorts keys is total and strict |
| `Names.LessIff` | openhtf/output/proto/mfg_event_converter.py:310 | the order goes by the first difference, a proper prefix first |
| `Names.SortKeys` | openhtf/output/proto/mfg_event_converter.py:310 | sorting a dictionary's keys |
| `Names.DecimalInjective` | openhtf/output/proto/mfg_event_converter.py:282 | different numbers print differently |
| `Names.DecimalPrints` | openhtf/output/proto/mfg_event_converter.py:282 | decimal printing reads back as the number, without leading zeros |
| `Names.SplitExtOfNumbered` | openhtf/output/proto/mfg_event_converter.py:280-282 | splitting a numbered name gives back stem with number, and extension |
| `Names.SplitExtIff` | openhtf/output/proto/mfg_event_converter.py:280 | a path has an extension iff it is a directory, a stem that is not only dots, a dot, and a rest without dots and slashes; the extension is then the dot and the rest |
| `Names.NumberedIff` | openhtf/output/proto/mfg_event_converter.py:280-282 | the number goes in front of that extension, and behind the name if there is none |
| `Names.NumberedExample` | openhtf/output/proto/mfg_event_converter.py:280-282 | log.txt becomes log_0.txt, and a/.log becomes a/.log_12 |
| `Names.NumberedInjective` | openhtf/output/proto/mfg_event_converter.py:280-282 | numbered names never coincide: the last underscore tells stem and number apart |
| `Names.NumberedIsGreater` | openhtf/output/proto/mfg_event_converter.py:280-282 | a numbered name sorts behind its name |
| `UniqueNames.UniqueNameMaker.constructor` | openhtf/output/proto/mfg_event_converter.py:268-270 | a new maker has seen nothing |
| `UniqueNames.UniqueNameMaker.MakeUnique` | openhtf/output/proto/mfg_event_converter.py:272-282 | the n-th call for a repeated name gets number n, a name given once is kept, an unknown one is refused |
| `UniqueNames.UniqueNamesDistinctIff` | openhtf/output/proto/mfg_event_converter.py:265-282 | results are pairwise distinct if and only if no name given once is a number that is handed out for a repeated name |
| `UniqueNames.ClashExample` | openhtf/output/proto/mfg_event_converter.py:265-282 | the names a, a, a_0 clash |
| `PhaseUniquizer.RekeyLosesNothingIff` | openhtf/output/proto/mfg_event_converter.py:310-320 | popping and re-inserting keys in sorted order loses nothing if and only if no moved key lands on another key, and is then a simultaneous renaming |
| `PhaseUniquizer.PhaseKeepsEntriesIff` | openhtf/output/proto/mfg_event_converter.py:308-320 | exactly when a phase keeps all its entries, each under the new name of its key |
| `PhaseUniquizer.KeysUniqueAcrossPhasesIff` | openhtf/output/proto/mfg_event_converter.py:297-321 | exactly when the new keys are unique across phases, whether or not phases lose entries |
| `PhaseUniquizer.NothingLostWithoutNumberedKeys` | openhtf/output/proto/mfg_event_converter.py:285-321 | if no key is a numbered form of a repeated key, every phase keeps all entries under their new names and keys are unique across phases |
| `PhaseUniquizer.DistinctNamesCanLose` | openhtf/output/proto/mfg_event_converter.py:308-321 | two phases with the keys a and a_0 get distinct names and still lose an entry |
| `PhaseUniquizer.CountNames` | openhtf/output/proto/mfg_event_converter.py:297-307 | the names given to the two makers, those of dimensioned measurements included |
| `PhaseUniquizer.CountsIff` | openhtf/output/proto/mfg_event_converter.py:297-307 | how often each name is given: once for each phase that has it as a key, and attachment names once more for each phase with a dimensioned measurement whose attachment has that name |
| `PhaseUniquizer.RekeyMeasurements` | openhtf/output/proto/mfg_event_converter.py:309-315 | the loop over a phase's measurements: the moved dictionary, and every measurement left in it, lost ones or not, named as its key, unless one sat under two keys |
| `PhaseUniquizer.RekeyAttachments` | openhtf/output/proto/mfg_event_converter.py:316-320 | the loop over a phase's attachments |
| `PhaseUniquizer.UniquizePhases` | openhtf/output/proto/mfg_event_converter.py:285-321 | all phases in place: every dictionary re-keyed, no KeyError or failed assertion, and every measurement left in a phase that shares none carries its key as name |
| `PhaseUniquizer.NamedAfresh` | openhtf/output/proto/mfg_event_converter.py:313-315 | where nothing is lost, each measurement carries the new name of the key it had |
| `AttachmentPacking.PhaseCopier.CopyAttachments` | openhtf/output/proto/mfg_event_converter.py:478-518 | appends the entries of all attachments by their fates, True iff none is skipped |
| `AttachmentPacking.FateIff` | openhtf/output/proto/mfg_event_converter.py:496-510 | taken from the cache iff cached; skipped iff uncached, with partial uploads, after some copy, and over nine tenths of a gibibyte with those before |
| `AttachmentPacking.CopiedBytesAdd` | openhtf/output/proto/mfg_event_converter.py:493-512 | the bytes before an attachment are the sizes of the attachments copied before it |
| `AttachmentPacking.BudgetKept` | openhtf/output/proto/mfg_event_converter.py:503-510 | copied bytes fit nine tenths of a gibibyte or exactly one attachment was copied |
| `AttachmentPacking.NoBudgetWithoutCache` | openhtf/output/proto/mfg_event_converter.py:391-394 | without partial uploads everything is copied |
| `AttachmentPacking.SentOnceInOrder` | openhtf/output/proto/mfg_event_converter.py:493-518 | every attachment that is not skipped is sent exactly once, in order, and nothing else is |
| `AttachmentPacking.EntriesAreContents` | openhtf/output/proto/mfg_event_converter.py:498-530 | the entry of a copied attachment has its name and data and a type that tells its MIME type (the marker iff it is one, known types pairwise different, BINARY for the others); the entry of a cached one is that of the cache |
| `AttachmentPacking.CycleProgress` | openhtf/output/proto/mfg_event_converter.py:493-518 | a cycle with uncached attachments caches at least one more |
| `AttachmentPacking.CyclesSucceed` | openhtf/output/proto/mfg_event_converter.py:493-518 | everything is sent within as many cycles as there are uncached attachments |
| `AttachmentPacking.SentStaysSent` | openhtf/output/proto/mfg_event_converter.py:499-502 | after a complete cycle the next takes everything from the cache |
| `AttachmentPacking.TwoCyclesNeeded` | openhtf/output/proto/mfg_event_converter.py:503-507 | two attachments that exceed the budget together need two cycles |
| `AttachmentPacking.CyclesValue` | openhtf/output/proto/mfg_event_converter.py:75-81 | cycles change no cached entry and add only converted attachments |
| `AttachmentPacking.OwnContentIff` | openhtf/output/proto/mfg_event_converter.py:498-502 | the cache ends up with every attachment under its own content if and only if name and size tell the attachments to upload apart |
| `AttachmentPacking.DecidingCycle` | openhtf/output/proto/mfg_event_converter.py:493-518 | the key of every attachment to upload gets into the cache in some cycle |
| `AttachmentPacking.OwnContentSentIff` | openhtf/output/proto/mfg_event_converter.py:493-518 | over all cycles, the content of an attachment to upload is never sent if and only if it is skipped in the cycle that caches its key, with another content |
| `AttachmentPacking.BothSentWithinBudget` | openhtf/output/proto/mfg_event_converter.py:503-510 | two attachments under one key that fit the budget are both sent |
| `AttachmentPacking.SecondNeverSent` | openhtf/output/proto/mfg_event_converter.py:499-507 | if they do not fit and differ, the second is never sent |
| `AttachmentPacking.UniquizedNamesCanClash` | openhtf/output/proto/mfg_event_converter.py:147-149 | three phases whose attachments have coinciding keys after names were made unique |
| `DimensionedValues.StoreKeepsOrder` | openhtf/core/measurements.py:694 | the ordered dictionary keeps overridden keys in place and appends new ones |
| `DimensionedValues.DimensionedMeasuredValue.SetItem` | openhtf/core/measurements.py:715-747 | setting coordinates: all error cases, the cache before the transform, the dictionary after it |
| `DimensionedValues.SetItemIff` | openhtf/core/measurements.py:715-747 | exactly which coordinates are refused, and when the transform raises; otherwise the transformed value is stored under the coordinates, wrapped for one dimension; and exactly when the cache is gone afterwards |
| `DimensionedValues.DimensionedMeasuredValue.BasetypeValue` | openhtf/core/measurements.py:775-780 | the cache, rebuilt row by row when it is gone |
| `DimensionedValues.AgreesAfterSetIff` | openhtf/core/measurements.py:727-743 | an assignment keeps the cache right iff it appends no row that the transform changes or fails on |
| `DimensionedValues.DisagreementEndsIff` | openhtf/core/measurements.py:728-735 | a wrong cache becomes right exactly by an override |
| `DimensionedValues.CacheAgreesIff` | openhtf/core/measurements.py:715-780 | over any run, the cache is right iff the transform was harmless for every row appended since the last override |
| `DimensionedValues.CacheAgrees` | openhtf/core/measurements.py:715-780 | without a transform, after any run, `basetype_value()` is the converted rows in order of first assignment |
| `DimensionedValues.TupleKeysAfterSetIff` | openhtf/core/measurements.py:723-740 | exactly when a key that is no tuple gets in |
| `DimensionedValues.BytesAfterOverrideExample` | openhtf/core/measurements.py:723-780 | a set, an override and a key that is no tuple, after which every read is a TypeError |
| `DimensionedValues.TransformExample` | openhtf/core/measurements.py:734-743 | a stored 1 that the cache shows as 0 |
| `MeasurementOutcomes.PassesIff` | openhtf/core/measurements.py:443-465 | PASS iff all validators hold and marginality checks do not raise first; marginal iff, besides, one affirms before any raises |
| `MeasurementOutcomes.Measurement.Validate` | openhtf/core/measurements.py:443-465 | outcome and marginal after validation, with short-circuits and exceptions |
| `MeasurementOutcomes.Measurement.SetValue` | openhtf/core/measurements.py:581-600 | set and validate, with a transform or conversion that may raise |
| `MeasurementOutcomes.SetIff` | openhtf/core/measurements.py:581-600 | exactly what is stored, when it is validated, and the outcome, the marginal flag and the exception, in terms of what transform, conversion and the single validators answer |
| `MeasurementOutcomes.Measurement.SetEntry` | openhtf/core/measurements.py:314-316 | a new entry of a dimensioned measurement makes it PARTIALLY_SET |
| `MeasurementOutcomes.Measurement.FinalizePhase` | openhtf/core/test_state.py:746-773 | the end of the phase: skipped if unset in a skipped phase, validated if partially set |
| `MeasurementOutcomes.FinalizeIff` | openhtf/core/test_state.py:746-773 | the end of a phase validates exactly the partially set values and skips exactly the unset ones of a skipped phase |
| `MeasurementOutcomes.SkippedAfterStepIff` | openhtf/core/measurements.py:913-929 | exactly when a measurement is SKIPPED after a step |
| `MeasurementOutcomes.Collection.SetItem` | openhtf/core/measurements.py:893-901 | the three refusals, and no other measurement touched |
| `MeasurementOutcomes.Collection.SetMeasurementOutcomeToSkipped` | openhtf/core/measurements.py:913-929 | SKIPPED only without a value |
| `MeasurementOutcomes.StepKeepsConsistent` | openhtf/core/measurements.py:314-320 | outcome and value-set flag stay consistent; no PARTIALLY_SET after the phase |
| `MeasurementOutcomes.JudgesAfterStepIff` | openhtf/core/measurements.py:598-600 | exactly when a step leaves the outcome as the verdict on the latest stored value, whatever it was before |
| `MeasurementOutcomes.OutcomeMachine` | openhtf/core/measurements.py:443-465 | over any history: a verdict exactly with a value, no SKIPPED with a value, marginal iff some judged value was, and the outcome is the verdict on the latest stored value iff no conversion that raised has left another one since the last judgement |
| `MeasurementOutcomes.JudgedWithoutRaising` | openhtf/core/measurements.py:581-600 | that condition holds of every history in which no conversion raises |
| `MeasurementOutcomes.ConversionLeavesOldVerdict` | openhtf/core/measurements.py:598-600 | a value whose conversion raises replaces the one before, whose verdict stays |
| `MeasurementOutcomes.MarginalSurvivesFailure` | openhtf/core/measurements.py:451-456 | a marginal pass followed by a failure is FAIL and marginal |
| `MultidimConversion.OutcomeSurvivesIff` | openhtf/output/proto/mfg_event_converter.py:54-67 | exactly which outcomes and flags survive the two tables, also when the status is read back as its number in `test_runs.proto` |
| `MultidimConversion.DecodeIff` | openhtf/output/proto/mfg_event_converter.py:564-580 | exactly which names and numbers of the statuses are read as which outcome, and which raise |
| `MultidimConversion.FailureReportedAsPass` | openhtf/output/proto/mfg_event_converter.py:84-88 | a failed measurement reported as MARGINAL_PASS |
| `MultidimConversion.DimensionSurvivesIff` | openhtf/output/proto/mfg_event_converter.py:581-588 | exactly which dimensions come back as they were; the name always does |
| `MultidimConversion.SameJsonIff` | openhtf/output/proto/mfg_event_converter.py:332-342 | two dimensions look the same in an attachment iff name, code and suffix do |
| `MultidimConversion.SortedRowsStable` | openhtf/output/proto/mfg_event_converter.py:345-347 | the sorted rows are ascending, with ties in their old order |
| `MultidimConversion.MultidimToAttachment` | openhtf/output/proto/mfg_event_converter.py:324-358 | the conversion to an attachment, with its errors |
| `MultidimConversion.AttachmentToMultidim` | openhtf/output/proto/mfg_event_converter.py:542-615 | the conversion back, with its errors |
| `MultidimConversion.RoundTrip` | openhtf/output/proto/mfg_event_converter.py:324-358 | there and back succeeds iff a value is set and rows can be sorted; then rows, dimensions, units, name, outcome and flag are as stated |
| `MultidimConversion.RowsSurviveIff` | openhtf/output/proto/mfg_event_converter.py:599-606 | the sorted rows come back unchanged iff there is more than one dimension |
| `Diagnoses.GoodPrefixIsLongest` | openhtf/core/diagnoses_lib.py:197-218 | a diagnoser adds what comes before the first element that is refused |
| `Diagnoses.AddedIff` | openhtf/core/diagnoses_lib.py:187-257 | exactly which elements are added, unchanged but for always_fail, and the exceptions for the others |
| `Diagnoses.YieldedIff` | openhtf/core/diagnoses_lib.py:197-218 | what each kind of returned value adds: a single diagnosis is a list of one, a list adds what comes before the first element that is not acceptable, and the run raises iff there is one or the value is none of these |
| `Diagnoses.DiagnosesStore.AddDiagnosis` | openhtf/core/diagnoses_lib.py:154-157 | list and index stay in agreement |
| `Diagnoses.DiagnosesStore.HasDiagnosisResult` | openhtf/core/diagnoses_lib.py:159-161 | answers whether the list has such a result |
| `Diagnoses.DiagnosesStore.GetDiagnosis` | openhtf/core/diagnoses_lib.py:163-166 | answers the last matching entry of the list |
| `Diagnoses.DiagnosesManager.ExecutePhaseDiagnoser` | openhtf/core/diagnoses_lib.py:220-238 | adds the diagnoses before the first refused one to store, test record (without internal ones) and phase record, and answers the exception |
| `Diagnoses.DiagnosesManager.ExecuteTestDiagnoser` | openhtf/core/diagnoses_lib.py:240-257 | the same for the test, where internal diagnoses are refused |
| `Diagnoses.RecordIsStoreWithoutInternal` | openhtf/core/diagnoses_lib.py:220-257 | over any run, the test record is the store's list without internal entries, in order |
| `Diagnoses.FailuresAreRecorded` | openhtf/core/test_state.py:740-744 | every failure result of a phase record has a failure in the test record |
| `Diagnoses.AlwaysFailNeverInternal` | openhtf/core/diagnoses_lib.py:187-195 | an always_fail diagnoser adds only failures, none internal, and an internal one raises |
| `Diagnoses.CheckIff` | openhtf/core/phase_branches.py:62-109 | conditions in terms of the stored diagnoses; NOT_ALL and NOT_ANY are complements |
| `Diagnoses.ConditionsAreMonotone` | openhtf/core/phase_branches.py:106-109 | ALL and ANY stay true over any later run |
| `Configuration.Conf.GetItem` | openhtf/util/configuration.py:415-447 | flag before loaded before default, and the two errors |
| `Configuration.Conf.Contains` | openhtf/util/configuration.py:449-454 | a key is contained exactly when reading it does not raise |
| `Configuration.Conf.AsDict` | openhtf/util/configuration.py:579-595 | the snapshot |
| `Configuration.Conf.DeclareKey` | openhtf/util/configuration.py:456-481 | declaring, and the two refusals |
| `Configuration.DeclareReadsIff` | openhtf/util/configuration.py:456-481 | exactly when declaring fails, and what any key reads afterwards |
| `Configuration.Conf.LoadFromDict` | openhtf/util/configuration.py:536-577 | loading, with its two options |
| `Configuration.LoadReadsIff` | openhtf/util/configuration.py:536-577 | what any key reads after a load |
| `Configuration.WrappedReads` | openhtf/util/configuration.py:670-679 | a wrapped function sees the values it is wrapped with, under the flags |
| `Configuration.Conf.ResetLoaded` | openhtf/util/configuration.py:483-494 | a fresh dictionary, then the configuration file |
| `Configuration.ResetReadsIff` | openhtf/util/configuration.py:483-494 | what a declared key reads after a reset |
| `Configuration.Conf.Perform` | openhtf/util/configuration.py:670-679 | an operation, wrapped functions included, changes the dictionary object in use and otherwise only new ones: the copy saved by an enclosing call stays as it was |
| `Configuration.ExecInTurn` | openhtf/util/configuration.py:670-679 | operations run one after the other up to the first that raises |
| `Configuration.SaveAndRestoreReadsIff` | openhtf/util/configuration.py:621-679 | after a wrapped function, whatever it does, a key reads as before iff it was declared before or still is not |
| `Configuration.FlagsWin` | openhtf/util/configuration.py:433-439 | nothing changes what a declared key with a flag value reads |
| `Configuration.AsDictIff` | openhtf/util/configuration.py:579-595 | exactly the keys of the snapshot, and its agreement with reads |
| `Configuration.StrictExec` | openhtf/util/configuration.py:579-595 | without loads of undeclared keys, the snapshot has exactly the readable keys after any program |
| `RateLimiter.RateLimited.WindowCount` | openhtf/util/functions.py:82 | the number of recorded calls in the window |
| `RateLimiter.RateLimited.CallFunction` | openhtf/util/functions.py:79-91 | one call: recorded, any sleep positive, IndexError exactly for a count of 0, the limit kept under a steady clock, no sleep without need |
| `RateLimiter.LimitIff` | openhtf/util/functions.py:56-68 | at most count calls in every half-open window iff calls count apart are seconds apart |
| `RateLimiter.CallRepeatedly` | openhtf/util/functions.py:79-91 | a whole run keeps the documented limit |
| `Monitor.SleepIsPositiveIff` | openhtf/core/monitors.py:111-119 | with a positive interval it is too early exactly when the computed sleep is positive |
| `Monitor.NegativeIntervalNeverSleeps` | openhtf/core/monitors.py:111-119 | with a negative interval every sleep would be negative |
| `Monitor.OneSleepIsEnough` | openhtf/core/monitors.py:115-119 | from the end of one full sleep on, and not before, it is not too early |
| `Monitor.SlowSampleAdvances` | openhtf/core/monitors.py:102-127 | a sample at least as slow as the mean advances the sample number |
| `Monitor.NumberRepeatsIff` | openhtf/core/monitors.py:102-127 | in any run, a sample repeats the last number iff from decision to end it took less than the mean, shortened by the lateness of the decision; a read as slow as the mean never does |
| `Monitor.QuickSampleRepeats` | openhtf/core/monitors.py:102-127 | a run of two samples with the same number |
| `Monitor.MonitorThread.Turn` | openhtf/core/monitors.py:111-127 | one turn sleeps or samples, samples after a full sleep, and never decreases the sample number |
| `Monitor.MonitorThread.Run` | openhtf/core/monitors.py:91-127 | n turns take at least n / 2 further samples |
| `Monitor.MeanWithin` | openhtf/core/monitors.py:126-127 | the mean stays within the bounds of the observed durations |
| `Monitor.MeanApproaches` | openhtf/core/monitors.py:126-127 | while samples take equally long, the mean comes closer to that by a tenth of the difference each time |
| `Monitor.SampleNumberIff` | openhtf/core/monitors.py:102-106 | the sample number is the whole part of the intervals since the start, towards zero |
| `Monitor.NumbersNeverDecrease` | openhtf/core/monitors.py:102-106 | sample numbers and written times never decrease over a run |
| `PhaseTree.FilterIff` | openhtf/core/phase_collections.py:185-198 | filtering by a type finds exactly the nodes of that type that some path of children leads to |
| `PhaseTree.FilterSelects` | openhtf/core/phase_collections.py:185-198 | filtering goes through every node below once and picks those of the type in that order |
| `PhaseTree.ParentsFirst` | openhtf/core/phase_collections.py:185-198 | a node comes right before those below it, and those before the nodes behind it |
| `PhaseTree.ClassHierarchy` | openhtf/core/phase_collections.py:64-85 | which nodes are instances of which classes |
| `PhaseTree.FilterApply` | openhtf/core/phase_collections.py:175-198 | filtering by any type commutes with transforming all phases, in arbitrarily nested trees |
| `PhaseTree.AllPhasesMapped` | openhtf/core/phase_collections.py:69-71 | all phases of the transformed tree are the transformed phases |
| `PhaseTree.ApplyComposes` | openhtf/core/phase_group.py:183-193 | two transforms in turn are one transform by their composition |
| `PhaseTree.ApplyIdentity` | openhtf/core/phase_branches.py:179-183 | transforming changes nothing but phases |
| `PhaseTree.Combine` | openhtf/core/phase_collections.py:119-144 | all nodes in order, or None without nodes |
| `PhaseTree.CombineConcatenates` | openhtf/core/phase_group.py:131-140 | combining groups concatenates section by section, also in traversal order |
| `PhaseTree.CombineAssociative` | openhtf/core/phase_group.py:131-140 | combining groups is associative |
| `PhaseTree.ApplyCombined` | openhtf/core/phase_group.py:131-193 | combining commutes with transforming |
| `PhaseTree.CombineKeepsSectionIff` | openhtf/core/phase_group.py:135-140 | exactly which sections survive combining with nothing |
| `PhaseTree.WrapAddsMain` | openhtf/core/phase_group.py:50-147 | wrap succeeds iff what it is given flattens, and adds those nodes behind the main ones, between unchanged setup and teardown |
| `PhaseTree.FlattenIff` | openhtf/core/phase_collections.py:45-56 | flattening succeeds iff nothing inside is a non-empty string or no phase |
| `PhaseTree.FlattenMakesIff` | openhtf/core/phase_collections.py:45-56 | flattening answers exactly one node for each node or callable, however deep |
| `PhaseTree.FlattenErrorIsOf` | openhtf/core/phase_collections.py:45-56 | the error is that of something inside that is refused: ValueError for what is no phase, endless recursion for a non-empty string |
| `PhaseTree.FlattenIdempotent` | openhtf/core/phase_collections.py:45-61 | what flattening gives flattens to itself |
| `PhaseTree.FlattenConcat` | openhtf/core/phase_collections.py:45-56 | flattening a concatenation appends the results, or answers the first error |
| `PhaseTree.CheckForDuplicateSubtestNames` | openhtf/core/phase_collections.py:215-240 | the names that several subtests of the traversal share |
| `PhaseTree.CheckRaisesIff` | openhtf/core/phase_collections.py:215-240 | the check raises iff two subtests of the traversal share a name |
| `PhaseTree.ApplyKeepsSubtestNames` | openhtf/core/phase_collections.py:175-183 | transforming phases does not change that verdict |
| `PhaseTree.SeesAllSubtestsIff` | openhtf/core/phase_group.py:195-208 | the traversal sees every subtest iff no group section is itself one |
| `PhaseTree.CheckIsCompleteWithoutHidden` | openhtf/core/phase_collections.py:215-240 | if none is, the check raises iff two subtests anywhere in the tree share a name |
| `PhaseTree.HiddenDuplicateExample` | openhtf/core/phase_group.py:50-58 | two groups whose main sections are subtests of one name, which the check misses |

## Left out

- The delivery of asynchronous exceptions by the interpreter: a kill is a "posted" flag, which is never acted upon too early, but may be too late.
- KillProtocol: says that an exception was posted, not that it was delivered, because delivery is up to the interpreter.
- `stop_running_phase` at the end of `stop()`, profiling, and exceptions raised by `async_raise` itself.
- `PhaseExecutor.skip_phase` and the executor of whole tests (`openhtf/core/test_executor.py`); the thread that runs the tests is the executor of `StopProtocol`.
- ExecutePhase: takes the answers of phase, validators, diagnosers and of `_stopping` as a script, attempt by attempt; `StopProtocol` models their interleaving.
- Garbage collection beyond the weak set of events, and the comparison of plug states by anything but equality.
- OnlyTimeOutAnswersNone: a wait times out and answers in one step; `Event.wait` may also answer that it timed out when the event was set between the two.
- Torn snapshots: `_asdict()` of a plug's state is read in one step.
- convert_multidim_measurements, which moves dimensioned measurements to attachments before the re-keying: only the names it reserves are modelled.
- UniquizePhases: requires that no phase record is listed twice, as each running phase adds one of its own (`openhtf/core/test_record.py:220-222`); measurement objects that are shared keep the name they were given last, which is not stated.
- Paths of other operating systems in `splitext`, and `%d` of anything but natural numbers.
- JSON and protocol buffer encodings: a JSON value is the value itself, a row the list of its elements.
- RoundTrip: covers numbers (by their value, finite floats and bools included), texts and None as coordinates and values; JSON turns nested tuples into lists, which cannot be coordinates, and byte strings into texts.
- An outcome field that is missing from attachment data or is text that is neither a status nor a number.
- `Measurement._cached` outside of the rows of DimensionedValues, and that `basetype_value()` hands out its list itself.
- Deprecated ways to declare measurements, `with_args`, `from_dataframe`, and the times at which values are set.
- Diagnosers are modelled by what they return; their names, descriptions and serialization are not.
- DeclareKey: takes the letters a to z for lower case, where `islower()` knows those of other scripts.
- Flag parsing, YAML, byte strings as keys, and the lock of the configuration; `save_and_restore` itself takes no lock.
- ResetLoaded: takes the content of the configuration file as a parameter, because a file object is read only once.
- CallFunction: the times are those recorded before the call; the decorated function starts later by an amount that nothing bounds. Several callers at once, and a function decorated twice, which shares the history, are not modelled.
- A negative count, which `collections.deque` refuses when the function is decorated.
- Rounding: times and means are real numbers.
- The tight loop of a monitor with an interval of 0.
- `with_args`, `with_plugs` and `load_code_info` on phase trees: the same recursion with other leaves.
- Web and console servers, uploads, output files, plug placeholders, the units table and test helpers: glue around libraries, or data.
