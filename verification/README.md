# A verified model of the Monte Carlo collision simulator

The simulator runs one computation, `trials` independent vehicle trials whose risk buckets are counted,
under five execution structures: a sequential loop, threads, processes, processes of threads, and a
producer/worker/aggregator pipeline. Its central promise is that every normal mode gives the sequential
answer: the same seven counters and the same checksum. This project models each structure and proves that
promise, and what the repository says about the one mode that breaks it on purpose (`nosync`).

- **Specification.** `Tallies` holds the counters as a commutative monoid and the fold `RangeTally` over
  trial indices. Every mode is proved equal to `RangeTally(f, 0, trials)` for an arbitrary trial function
  `f`; `Simulation` supplies the repository's own, and `TrialLaws` says what it computes in terms of draws,
  positions and speeds. `Checksums` is the hash chain over 64-bit words.
- **Storage.** `Results.Result`, `Queues.RingBuffer`, `Ipc.Channel`, `Ipc.ShmTable`,
  `PipelineMachine.Machine`, `ThreadModeRun.Group` and `Simulation.VehicleState` are classes updated in
  place; each method's postcondition equates the new contents with a function of the old ones.
- **Concurrency.** `Pipeline` and `ThreadMode` are step systems in which any enabled step of any thread may
  come next. Pipeline steps are critical sections with explicit sleepers, signals, broadcasts and spurious
  wake-ups; thread-mode steps are single loads and stores of shared counters. `PipelineMachine.Machine` and
  `ThreadModeRun.Group` carry the same steps out in place and are proved to refine the step systems. The
  invariants are in `PipelineInvariants`, their preservation in `PipelineSafety`, deadlock freedom and
  termination in `PipelineProgress`, the conclusions in `PipelineResults`.
- **Lost updates.** `NosyncRuns` builds interleavings from runs of one thread at a time, and
  `NosyncExactness` derives from them exactly which results nosync can leave.
- **Processes.** `ProcessMode` runs the fork, reap and read loops against arbitrary failures of pipes,
  forks, writes, waits and children; `ReapThenRead` asks when that order of loops can block for ever.

Clocks, the operating system's choices and the scheduler are parameters: `Step` sequences, `Fate` values and
the nondeterministic results of `Ipc.Channel.Write` and `Read`. Positive thread, process, queue and batch
counts are what src/config.c:73-74 checks; the modes' own guards are modelled as return codes.

What the code does and a reader of its documentation may not expect:

- The simulator's own README (line 130) reports `valid=0` for `nosync`. The code does not ensure that: a run
  that loses only collisions is valid. Such runs exist exactly when two threads have colliding trials in their
  parts (`NosyncExactness.ValidityIsExactIff`), for instance with seed 3761 on two trials and two threads.
  What is always exact is `valid == 1` together with the sequential checksum, the check that
  scripts/test_modes.sh makes of each mode (`ThreadModeProofs.ModeCheckIsExact`; called the mode check below).
- The reap-before-read order of process and hybrid mode can block until a child is killed exactly when a pipe
  cannot hold one `Result` (`ReapThenRead.StuckIffNoRoom`).
- A living child ignores the return code of its pipe write (src/process_mode.c:96), so a lost hand-over shows
  only in the parent's short read; `ProcessMode.RunChildren` shows that this suffices.

## Model

| member | source | states |
|---|---|---|
| `PipelineResults.PipelineEqualsSequential` | src/pipeline_mode.c:48-112 | for every schedule, both merge modes and any positive thread count, queue size and batch size: a run that returns 0 has the counters and checksum of the sequential loop, and they are valid |
| `PipelineMachine.RunPipelineMode` | src/pipeline_mode.c:114-280 | pipeline mode on mutable storage under an arbitrary run: returns 0 exactly when there are batches, the queues can be made and no creation fails, and then `out` is the sequential result and the push, pop, lock and batch counts are fixed; on every return code `out` is the sequential tally of the trials of the first batches, as many as were processed, and the waits counted are the passes of woken threads |
| `PipelineMachine.Machine.Take` | src/pipeline_mode.c:48-275 | one step of any thread changes the ring buffers, workers, final partials and `out` exactly as the step system says |
| `PipelineMachine.RunSchedule` | src/pipeline_mode.c:183-275 | carrying out any schedule in place ends in the state the step system reaches |
| `PipelineMachine.Machine.constructor` | src/pipeline_mode.c:116-136 | the storage starts as the initial state of the step system |
| `PipelineMachine.Machine.PreprocessorPush` | src/pipeline_mode.c:51-54 | one pass of the preprocessor through `task_queue_push`: sleeps, drops the batch or appends it and signals |
| `PipelineMachine.Machine.PreprocessorClose` | src/pipeline_mode.c:55-56 | closing the task queue after the last push wakes every waiting worker |
| `PipelineMachine.Machine.WorkerTakesBatch` | src/pipeline_mode.c:70-76 | one pass of a worker through `task_queue_pop`: sleeps, exits or takes the oldest batch and wakes the preprocessor |
| `PipelineMachine.Machine.ComputePartial` | src/pipeline_mode.c:78 | the partial of a batch is the tally of its index range |
| `PipelineMachine.Machine.WorkerRunsBatch` | src/pipeline_mode.c:78-83 | after the batch the worker holds its partial and one more batch is processed |
| `PipelineMachine.Machine.WorkerSendsPartial` | src/pipeline_mode.c:81-85 | one pass of a worker through `merge_queue_push` |
| `PipelineMachine.Machine.WorkerAppendsPartial` | src/pipeline_mode.c:86-91 | the partial is appended to `final_partials` |
| `PipelineMachine.Machine.AggregatorTakesPartial` | src/pipeline_mode.c:101-102 | one pass of the aggregator through `merge_queue_pop` |
| `PipelineMachine.Machine.AggregatorMerges` | src/pipeline_mode.c:106 | the popped partial is added to `out` and nothing else changes |
| `PipelineMachine.Machine.MainCloses` | src/pipeline_mode.c:203-230 | the three closes of main and whom each wakes |
| `PipelineMachine.Machine.MainMerges` | src/pipeline_mode.c:267-269 | the final partials are merged one by one |
| `PipelineMachine.Machine.MainFinalizes` | src/pipeline_mode.c:275 | the checksum is stamped after all merges |
| `PipelineMachine.MakeBatches` | src/pipeline_mode.c:148-153 | there are batches exactly when trials and batch size are positive, and they are the ranges of `create_batches` |
| `PipelineResults.MaximalSchedulesEnd` | src/pipeline_mode.c:183-275 | a schedule that only spurious wake-ups could continue has returned, with 0 exactly when no creation failed |
| `PipelineResults.SuccessStaysPossible` | src/pipeline_mode.c:224-231 | every reachable state that has not failed can still reach a return with 0 |
| `PipelineResults.FailedIffCreationFailed` | src/pipeline_mode.c:218-222 | the run is marked failed exactly when some creation failed |
| `PipelineResults.DrainedAtReturn` | src/pipeline_mode.c:224-231 | at a successful return both queues are empty, every batch was pushed and popped and every thread has exited |
| `PipelineResults.MergedOnceAtReturn` | src/pipeline_mode.c:101-111 | at a successful return each batch has been merged exactly once, whatever the order |
| `PipelineResults.OutIsDistinctBatches` | src/pipeline_mode.c:101-111 | in every reachable state, failed or not, `out` is the merge of distinct batches |
| `PipelineResults.MetricsAtReturn` | src/task_queue.c:55-113 | with B batches and T workers a successful run processes B, pushes and pops B (final) or 2B (interactive) and enters the mutexes 2B+T or 4B+T+1 times on every schedule |
| `PipelineResults.CondWaitsAreWokenPasses` | src/task_queue.c:67-110 | along every schedule the waits counted are the queue passes made by a woken thread |
| `PipelineResults.OutAtEnd` | src/pipeline_mode.c:224-280 | when a run has ended, failed or not, `out` is the merge of the first batches, as many as were processed, stamped unless main aborted before there was a preprocessor |
| `PipelineResults.EachBatchInOnePlace` | src/pipeline_mode.c:70-92 | in every reachable state each batch is in exactly one place; it can be dropped only after a failed creation |
| `PipelineResults.NoLostWakeups` | src/task_queue.c:67-81 | while a queue is open, sleepers on `not_empty` imply no more items than woken threads still to run, and sleepers on `not_full` no more free slots; nobody sleeps on a closed queue |
| `PipelineResults.NoPushRefused` | src/pipeline_mode.c:224-231 | without a failed creation no push finds its queue closed, and the merge queue never refuses |
| `PipelineResults.AppendInBounds` | src/pipeline_mode.c:86-91 | every write to `final_partials` has an index below `batch_count` |
| `PipelineResults.HeldBatchExists` | src/pipeline_mode.c:73-78 | the batch a worker runs is one of the batches |
| `PipelineProgress.Progress` | src/task_queue.c:67-110 | no deadlock: unless main has returned, a step that is neither spurious nor a failing creation is enabled |
| `PipelineProgress.JoinNotStuck` | src/pipeline_mode.c:224-231 | when no worker, preprocessor or aggregator can run, the join main waits in can return |
| `PipelineProgress.EndedIsFinal` | src/pipeline_mode.c:224-231 | when main has returned every thread it created has exited and nothing can happen |
| `PipelineProgress.MeasureStep` | src/task_queue.c:67-81 | every step lowers a measure that charges each sleep to a prior signal; a spurious wake-up raises it by one |
| `PipelineProgress.SchedulesAreFinite` | src/pipeline_mode.c:183-275 | every schedule, with any failing creation, is shorter than a bound in the batch and thread counts plus two steps per spurious wake-up |
| `PipelineProgress.CanComplete` | src/pipeline_mode.c:183-275 | from every state that satisfies the invariants the run can be completed |
| `PipelineSafety.PhasesKept` | src/pipeline_mode.c:183-275 | every step keeps the creation, join and close order |
| `PipelineSafety.WakeupsKept` | src/merge_queue.c:65-119 | every step keeps the wake-up discipline of both queues |
| `PipelineSafety.PastTasksConserved` | src/pipeline_mode.c:70-111 | every step keeps the number of places past the task queue that hold a given batch, except the pop that takes it out |
| `PipelineSafety.PlacesKept` | src/pipeline_mode.c:70-111 | every step keeps each batch in one place and the task queue in batch order |
| `PipelineSafety.CountersKept` | src/task_queue.c:64-109 | every step keeps the exact relation between the metric counters and the places of the batches |
| `PipelineSafety.InvKept` | src/pipeline_mode.c:48-275 | every step keeps all invariants together |
| `PipelineSafety.ReachableInv` | src/pipeline_mode.c:183-275 | every reachable state satisfies all invariants |
| `Queues.RingBuffer.constructor` | src/task_queue.c:26-34 | an empty open queue of the given capacity |
| `Queues.RingBuffer.Push` | src/task_queue.c:67-83 | one pass: waits when full and open, is refused when closed, otherwise appends, across any wrap-around |
| `Queues.RingBuffer.Pop` | src/task_queue.c:96-112 | one pass: waits when empty and open, is refused when empty and closed, otherwise removes the oldest item |
| `Queues.RingBuffer.Close` | src/merge_queue.c:113-121 | sets the flag and keeps the items |
| `Queues.InitQueue` | src/merge_queue.c:21-43 | no queue exactly for a non-positive capacity |
| `Queues.FifoHistory` | src/merge_queue.c:55-111 | over any sequence of pushes, pops and closes the accepted items are the popped ones followed by the queued ones, within capacity |
| `Queues.DrainsAfterClose` | src/task_queue.c:102-112 | after a close the remaining items leave in order and then pop refuses |
| `ThreadModeProofs.NosyncNeverOvercounts` | src/thread_mode.c:44-47 | for every interleaving of loads and stores no counter exceeds its sequential value, and it is zero only if that value is |
| `ThreadModeProofs.ModeCheckIsExact` | scripts/test_modes.sh:17-30 | for every nosync run, valid with the sequential checksum holds exactly when all counters are sequential; valid alone exactly when all but the collision count are |
| `ThreadModeProofs.SharedNeverOvercounts` | src/thread_mode.c:130-134 | in every reachable state of every mode, with any number of threads created, no shared counter exceeds its sequential value |
| `NosyncExactness.ValidityIsExactIff` | src/result.c:63-70 | for every trial function, trial count and thread count: all valid nosync results are right if and only if all colliding trials lie in one thread's part |
| `NosyncExactness.ValidityAloneMissesALostCollision` | src/thread_mode.c:44-47 | with seed 3761, two trials on two threads and any time steps from eight on, some nosync run loses one of the two collisions and is valid |
| `NosyncExactness.NosyncRange` | src/thread_mode.c:44-47 | the final values of each counter lie between a least and the sequential value and both are reached; the least is the sequential value if one part makes all hits, else 1 if some part hits once, else 2 |
| `NosyncExactness.OnlyPartIsExact` | src/thread_mode.c:44-47 | a counter that only one part hits is exact in every nosync run |
| `NosyncExactness.SomeRunLosesOnly` | src/thread_mode.c:44-47 | if two parts hit a counter, some run loses updates of that counter and of no other |
| `NosyncRuns.LoseAllOthers` | src/thread_mode.c:44-47 | a run that keeps only one thread's hits on a counter and loses nothing else |
| `NosyncRuns.LoseAllButTwo` | src/thread_mode.c:44-47 | a run in which two threads with two or more hits each leave 2 in the counter, whatever the others do |
| `Simulation.BothTrialsCollide` | src/simulation.c:105-137 | the first two trials of seed 3761 collide within eight steps |
| `NosyncExactness.NosyncIsExactIff` | src/thread_mode.c:44-47 | every nosync run is right if and only if there is one thread or one trial |
| `ThreadModeProofs.MutexEqualsSequential` | src/thread_mode.c:30-43 | every mutex interleaving ends in the sequential result with one lock per trial |
| `ThreadModeProofs.MutexConsistentWhenFree` | src/thread_mode.c:34-41 | whenever the mutex is free the trial count is the histogram sum and the collisions are the last bucket |
| `ThreadModeProofs.SharedWhenFree` | src/thread_mode.c:34-41 | whenever the mutex is free the shared tally is the merge of the finished trials |
| `ThreadModeProofs.ReduceEqualsSequential` | src/thread_mode.c:139-144 | every reduce interleaving ends in the sequential result |
| `ThreadModeProofs.ReduceKeepsShared` | src/hybrid_mode.c:29-31 | in reduce mode the shared record is untouched until the merge |
| `ThreadModeProofs.NormalModesAreSequential` | src/thread_mode.c:24-49 | mutex and reduce have one outcome, the sequential tally |
| `ThreadModeProofs.ThreadSchedulesAreFinite` | src/thread_mode.c:60-64 | no interleaving takes more than eight steps per trial |
| `ThreadModeProofs.StuckMeansJoined` | src/thread_mode.c:130-134 | an interleaving that cannot be continued has joined all threads |
| `ThreadModeProofs.OutcomeExists` | src/thread_mode.c:116-134 | every mode has a complete interleaving on every input |
| `ThreadModeRun.Group.constructor` | src/thread_mode.c:116-129 | the threads start with the parts of the static partition |
| `ThreadModeRun.Group.Take` | src/thread_mode.c:24-66 | one load, store, lock or unlock on the shared record is the step of the step system |
| `ThreadModeRun.RunSchedule` | src/thread_mode.c:51-66 | carrying out any interleaving in place ends where the step system ends |
| `ThreadModeRun.FinishThreadMode` | src/thread_mode.c:138-158 | merges the locals in reduce mode unless a creation or join failed, stamps and returns |
| `ThreadModeRun.RunThreadMode` | src/thread_mode.c:78-159 | thread mode on mutable storage under an arbitrary interleaving: returns 0 exactly when all threads were created and joined, then the sequential result with mutex or reduce and exactness of the mode check (valid and same checksum, scripts/test_modes.sh:17-30); the lock count is the number of trials begun with mutex and 0 otherwise, on every return code; on failure no counter exceeds its sequential value, and with all created threads joined `out` is the tally of their parts (mutex) or zero (reduce) |
| `ThreadModeProofs.LockWaitsCountBegins` | src/thread_mode.c:26-47 | along every schedule the lock count grows by the trials begun in mutex mode and not at all in the other modes |
| `ThreadModeProofs.MutexOfCreated` | src/thread_mode.c:116-134 | with only some threads created, their joined mutex run leaves exactly their parts, one lock for each trial |
| `ThreadModeProofs.CountedBeforeBucket` | src/result.c:18-26 | in every reachable mutex state, inside a critical section too, a trial is counted before its bucket and a collision before the last bucket, each ahead by at most one |
| `ThreadModeRun.RunThreadGroup` | src/hybrid_mode.c:73-127 | the thread group of a hybrid child leaves, stamped, the merged locals or the shared record of its interleaving, and returns -1 exactly when a creation failed |
| `ProcessMode.RunProcessMode` | src/process_mode.c:25-175 | returns 0 only if every child's complete result was merged and then `out` is the sequential result, under any failures; returns 0 when nothing goes wrong; on failure no counter exceeds its sequential value |
| `ProcessMode.RunHybridMode` | src/hybrid_mode.c:129-277 | the same for processes of threads with reduce or mutex, where 0 also needs every child to create all its threads; with nosync a return of 0 means a result for which the mode check is exact |
| `ProcessMode.RunChildren` | src/process_mode.c:64-174 | whatever fails, `out` holds complete results of distinct children and nothing else, stamped, with 64 bytes read for each; with no broken pipe, exactly those of the children that were started and delivered, in order; 0 means all of them |
| `ProcessMode.ForkLoop` | src/process_mode.c:64-109 | stops at the first failing pipe or fork; exactly the earlier children exist and have handed over |
| `ProcessMode.ReapLoop` | src/process_mode.c:110-118 | fails exactly when some started child died or could not be waited for |
| `ProcessMode.ReadPipes` | src/process_mode.c:124-143 | merges only children whose whole result arrived; with no broken pipe exactly the started children that delivered, in order |
| `ProcessMode.ReadSlots` | src/process_mode.c:144-160 | merges exactly the done slots, in order; any slot that is not done fails the run |
| `ProcessMode.MergeFromPipe` | src/process_mode.c:128-139 | a child's result is merged completely or not at all |
| `ProcessMode.ChildWritesPipe` | src/process_mode.c:95-97 | a child leaves a prefix of its image in the pipe, all of it if it lives and the pipe is sound |
| `ProcessMode.ChildWritesSlot` | src/process_mode.c:98-103 | a child changes only its own slot, and a done slot holds its result |
| `ProcessMode.RunChildGroup` | src/hybrid_mode.c:190-196 | a hybrid child computes an outcome of its own part, or fails when a thread cannot be created |
| `ProcessMode.RunGroups` | src/hybrid_mode.c:190-196 | a child whose group fails ends without writing a byte; every other child ends as its fate says |
| `Ipc.WriteFull` | src/ipc_pipe.c:6-20 | for any partial transfers and interruptions: success appends the buffer, failure a proper prefix |
| `Ipc.ReadFull` | src/ipc_pipe.c:22-36 | success returns exactly the next `size` bytes; a stream that is too short always fails |
| `Ipc.WriteResult` | src/ipc_pipe.c:38-41 | the same for the image of a `Result` |
| `Ipc.ReadResult` | src/ipc_pipe.c:43-46 | success decodes the next image; fewer bytes than one image always fail |
| `Ipc.HandOver` | src/ipc_pipe.c:6-46 | a successful write followed by a successful read reproduces the record; a failed write makes the read fail; a sound pipe makes both succeed |
| `Ipc.RecordRoundTrip` | include/result.h:6-20 | decoding the byte image of a record gives the record |
| `Ipc.ImageLayout` | include/result.h:6-20 | the image is eight little-endian words in the order of the fields |
| `Ipc.ShmTable.WriteResult` | src/ipc_shm.c:65-72 | an in-range slot is stored and marked, nothing else changes, an out-of-range slot is ignored |
| `Ipc.ShmTable.ReadResult` | src/ipc_shm.c:74-84 | succeeds exactly for an in-range slot that is done |
| `ReapThenRead.StuckIffNoRoom` | src/process_mode.c:110-143 | some schedule reaches a state in which nothing can happen but the death of a child exactly when a pipe cannot hold one result |
| `ReapThenRead.RoomMeansNeverStuck` | src/process_mode.c:110-143 | with room for one result no schedule is ever stuck, whichever children die |
| `ReapThenRead.FinishedMeansAllDead` | src/process_mode.c:110-143 | without that room the parent finishes only if every child ended early |
| `ReapThenRead.DeathsFinish` | src/process_mode.c:110-143 | with any pipe size there is a schedule in which every child ends early and the parent finishes |
| `ReapThenRead.EveryStepCounts` | src/process_mode.c:110-143 | every step lowers a measure, so the loops end unless stuck |
| `Partitions.PartsTile` | src/thread_mode.c:68-76 | parts touch, start at 0, end at n and have size n/k or n/k+1, the longer ones being the first n % k |
| `Partitions.PartArithmeticFits` | src/process_mode.c:15-23 | no intermediate value of the partition leaves [0, n] |
| `Partitions.PartOwner` | src/hybrid_mode.c:63-71 | every index belongs to exactly one part |
| `Partitions.HybridTiles` | src/hybrid_mode.c:97-104 | thread ranges tile each process range, all P*T sizes lie in {a, a+1} with a = n/(P*T), and every value stays in [0, n] |
| `Partitions.PartsMergeToWhole` | src/thread_mode.c:139-144 | merging the tallies of all parts gives the tally of the whole range |
| `Batches.CreateBatches` | src/preprocess.c:26-58 | the batches are the clamped ranges with their seeds; none for a non-positive size or a negative count |
| `Batches.BatchCountIsCeiling` | src/preprocess.c:35 | the count is the ceiling of trials / batch_size |
| `Batches.TruncDivLaw` | src/preprocess.c:35 | the division truncates toward zero: the remainder is smaller than the divisor and has the sign of the dividend |
| `Batches.BatchShape` | src/preprocess.c:41-46 | batches are non-empty and consecutive, all but the last have full size, the last ends at trials, and no value exceeds trials + batch_size - 1 |
| `Batches.BatchFields` | src/preprocess.c:47-52 | the fields of a batch; undoing the exclusive-or of its base seed gives its number times 1103515245 with 32-bit wrap-around |
| `Batches.BatchSeedsDiffer` | src/preprocess.c:50 | two batches share a base seed exactly when their numbers agree modulo 2^32 |
| `Batches.BatchesMergeToPrefix` | src/preprocess.c:35-53 | merging the tallies of the first k batches gives the tally of the trials before batch k |
| `Batches.BatchesMergeToWhole` | src/preprocess.c:35-53 | merging the tallies of all batches gives the tally of all trials |
| `Results.Result.Init` | src/result.c:7-16 | all counters and the checksum are zero |
| `Results.Result.AddTrial` | src/result.c:18-26 | adds one trial; a risk outside the buckets changes nothing |
| `Results.Result.Merge` | src/result.c:28-36 | adds the counters of the source, also when source and destination are the same record |
| `Results.Result.HistSum` | src/result.c:38-46 | the sum of the five buckets |
| `Results.Result.ComputeChecksum` | src/result.c:48-61 | computes the checksum of the counters, whose meaning is in the following rows |
| `Checksums.ChecksumInSevenSteps` | src/result.c:50-60 | seven xor-and-multiply steps from 1469598103934665603 over the trial count, the collision count and the buckets plus their numbers lead to the checksum |
| `Checksums.ChainStartsAt` | src/result.c:50 | running the chain backwards over the words ends in the start value |
| `Checksums.ChecksumParity` | src/result.c:48-61 | when the buckets sum to the trial count, the checksum is odd exactly when the collision count is |
| `Results.Result.Validate` | src/result.c:63-70 | true exactly for a positive expected count that equals the trial count and the histogram sum, with collisions in range |
| `Results.RunBatch` | src/simulation.c:215-224 | leaves the tally of the range and its checksum |
| `Results.Finalize` | src/postprocess.c:24-45 | the checksum is of the counters as they are now; validity and exact ratios |
| `Results.RiskRatiosSumToOne` | src/postprocess.c:39-42 | the ratios of a valid result sum to one |
| `Results.RunSequential` | src/sequential.c:8-44 | the reference loop: return code, the fold over all trials, its checksum, and that it is valid |
| `Checksums.ChecksumDetectsOneCounter` | src/result.c:48-61 | two results that differ in exactly one counter have different checksums |
| `Checksums.ChecksumReachesEveryWord` | src/result.c:48-61 | with the other counters fixed every 64-bit checksum is reached, so the map of one counter is a bijection |
| `Checksums.ChainInjectiveInOneWord` | src/result.c:52-59 | the hash chain is injective in each single word |
| `Checksums.ChainInjectiveInHash` | src/result.c:52-59 | the hash chain is injective in the hash it starts from |
| `Checksums.UnmixMix` | src/result.c:52-53 | one xor-and-multiply step is undone in either argument |
| `Words.XorBit` | src/result.c:52 | bit k of the exclusive-or is set exactly when the bits of the operands differ |
| `Checksums.ValidityOfUndercount` | src/result.c:63-70 | a result that can only have lost updates is valid exactly when trial count and histogram are right |
| `Checksums.ModeCheckOfUndercount` | scripts/test_modes.sh:17-30 | such a result is valid with the expected checksum exactly when it is the expected result |
| `Tallies.AddCommutes` | src/result.c:28-36 | merging commutes |
| `Tallies.AddAssociates` | src/result.c:28-36 | merging is associative |
| `Tallies.RangeSplit` | src/sequential.c:28-33 | splitting an index range and merging the two tallies loses and adds nothing |
| `Tallies.CountersWithinTrials` | src/result.c:18-46 | every counter and the histogram sum stay within the number of trials |
| `Tallies.CountersCountTrials` | src/result.c:18-26 | each bucket is the number of trials with its risk and the collision count the number of trials that collided |
| `Tallies.ValidIffRealizable` | src/result.c:63-70 | a record without negative buckets is valid exactly when some outcomes of that many trials lead to it |
| `Tallies.SequentialIsValid` | src/result.c:63-70 | the sequential result is valid |
| `Tallies.CollisionsAreTheLastBucket` | src/simulation.c:96-103 | the collision count is the last bucket |
| `Tallies.MergeOrderIrrelevant` | src/pipeline_mode.c:101-107 | merging each part exactly once gives one result in any order |
| `Tallies.DistinctUndercount` | src/process_mode.c:124-160 | merging distinct parts gives no more than merging all of them |
| `Simulation.RunTrial` | src/simulation.c:110-137 | the loop with its early exit reports the outcome of the specification, whose meaning is in the rows of module TrialLaws, and advances the seed by seven draws |
| `TrialLaws.RiskMeaning` | src/simulation.c:96-137 | the risk is 4 exactly when the vehicles touch within the horizon, and at least 3, 2 or 1 exactly when they touch or the time to collision falls below 1.5, 3 or 5 s in some step |
| `TrialLaws.RiskFromMotion` | src/simulation.c:85-137 | the same in positions and speeds alone: touching, or on course to pass the contact within that time while closing faster than 1e-9 m/s |
| `Simulation.DriveMeaning` | src/simulation.c:119-131 | a collision is reported exactly when the undisturbed motion touches within the horizon; otherwise the least time to collision over all steps |
| `Simulation.VehicleState.AdvanceOneStep` | src/simulation.c:71-83 | one step of both vehicles as the motion of the trial iterates it |
| `TrialLaws.MotionInClosedForm` | src/simulation.c:61-83 | after n steps each speed is its start value less n (ego: n - r) times its loss per 0.1 s, not below zero, and each position its start value plus the sum of the speeds times 0.1 s, where r is the first step whose time reaches the reaction time |
| `TrialLaws.TrialMotion` | src/simulation.c:110-123 | every seed moves by this law, and brakes from step 25 at the latest |
| `Simulation.TtcIsTimeToContact` | src/simulation.c:85-94 | at constant speeds the gap of closing vehicles is zero exactly at the reported time and positive before it; a gap that is not closing shrinks by at most epsilon times the time |
| `Simulation.GenerateParams` | src/simulation.c:47-59 | returns the parameters of the seed and advances it by seven draws |
| `TrialLaws.ParametersFromDraws` | src/simulation.c:34-59 | undoing the ranges of the seven parameters in source order gives seven successive generator states, starting after the seed |
| `TrialLaws.ParametersInRanges` | src/simulation.c:47-59 | all seven parameters lie in their ranges |
| `TrialLaws.SeedFromIndex` | src/simulation.c:105-108 | undoing the exclusive-or with the base seed gives the index times 2654435761 with 32-bit wrap-around |
| `Simulation.SeedsCollideIff` | src/simulation.c:105-108 | under one base seed two trials share a seed exactly when their indices agree modulo 2^32 |
| `Simulation.DrawsDiffer` | src/simulation.c:34-38 | trials with different seeds differ in every draw |
| `Simulation.RiskMonotoneInHorizon` | src/simulation.c:96-137 | a longer horizon never reports a lower risk, and a collision persists |
| `Simulation.CollisionPersists` | src/simulation.c:127-130 | after a collision nothing changes |
| `Simulation.EgoSpeedBound` | src/simulation.c:71-83 | the ego speed starts below 33.34 m/s and loses 0.15 m/s a step from step 25 on |
| `Simulation.OutcomeSaturates` | src/simulation.c:110-137 | every horizon of at least 247 steps reports what 247 steps report |
| `Simulation.RunsSaturate` | src/simulation.c:215-224 | so does every counter of a whole run |
| `Simulation.TrialsAreCoherent` | src/simulation.c:96-103 | a trial reports a collision exactly when it lands in the collision bucket |

## Left out

- PipelineMachine.RunPipelineMode: in final mode the creation of the preprocessor, whose return value the source does not check (src/pipeline_mode.c:241), is assumed to succeed; a failed creation of a worker is assumed to leave its handle zero, as the joins at lines 226 and 260 rely on.
- PipelineMachine.Machine.PreprocessorPush: a batch travels as its index instead of a copy of the `TaskBatch`; the batch array is not written after it is made. Which thread gets the mutex next is the scheduler's choice, and blocking on a mutex is not a state of its own because critical sections are atomic steps.
- PipelineResults.MetricsAtReturn: says nothing about the measured times, which depend on the clock.
- PipelineProgress.SchedulesAreFinite: spurious wake-ups are not bounded, since the standard does not bound them.
- ThreadModeRun.RunThreadMode: what a thread that could not be joined does after main has stopped waiting for it is not modelled.
- ThreadModeProofs.NosyncNeverOvercounts: assumes that single loads and stores interleave (sequential consistency). C11 section 5.1.2.4 leaves the race undefined, so compiler and hardware effects beyond that are not covered.
- ThreadModeProofs.ModeCheckIsExact: rests on the same assumption.
- NosyncExactness.NosyncRange: rests on the same assumption.
- ProcessMode.RunHybridMode: a failing `pthread_join` inside a child, whose return value the source does not check (src/hybrid_mode.c:114), is assumed not to happen.
- ProcessMode.RunChildren: the parent code of process and hybrid mode is the same and is modelled once; closing of pipe descriptors, including those never opened, is not modelled.
- Ipc.RecordRoundTrip: uses little-endian two's complement words in declaration order; the native layout of the C structure is not examined.
- Simulation.RunTrial: computes in exact reals. IEEE rounding in the vehicle loop is not modelled, and so not in the saturation bound either.
- Results.Finalize: ratios are exact reals.
- Failing allocation and failing initialisation of mutexes and condition variables, and null-pointer guards.
- CPU-burning loops, extra pre- and post-work and CPU affinity: they do not feed the result; the trial seed is passed to the burn loops by value.
- Timing metrics, command line, configuration parsing, CSV output, analysis scripts and recorded measurements.
