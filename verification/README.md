# Verification of TeleFuser's small stateful systems

This project models seven scripts of the TeleFuser repository in Dafny 4.11 and proves what they
promise over whole runs. `dafny verify dfyconfig.toml` covers the whole project.

- **ABot interactive runtime** (`InteractiveRuntime`, `AbotProtocol`, `ControlRegister`,
  `BrowserRetention`). The runtime's state and operations are a class, one method per lock section or
  queue operation; each is equal to a function on a value `Core`. `AbotProtocol` lets producer
  threads, one start/stop caller and any number of other handlers interleave those steps arbitrarily
  and proves delivery, fencing, snapshots and the cache over all runs. `BrowserRetention` adds the
  browser's throttled pull loop and finds the exact bound within which it never asks for an evicted
  frame. With the defaults (capacity 4, throttle of two seconds of frames) that means blocks of at
  least a seventh of the throttle.
- **GPU pool and pipeline scheduler** (`GpuPool`, `Scheduler`, `SchedulerSafety`, `SchedulerLoop`).
  The two classes, the run loop, conservation of GPUs and names, greedy backfill, and a termination
  bound by a measure over pending and remaining running time. A child process may finish at any poll
  or never; the clock is an input.
- **Resumable latent index** (`LatentIndex`, `LatentBuilder`). A machine that may fail or crash
  between any two disk operations, the exact condition on the runs for a skip to be safe, and the script's own
  operations in place, each producing the run of the machine that it is.
- **Resume and report** (`ResumeReport`, `OutputNames`, `Classification`). Resumed runs on one
  directory, output file names and their lookup, and the two ways a child's result is classified.
- **Chunking and replay** (`Chunking`, `VideoReplay`) and the **Taylor residual predictors**
  (`TaylorResiduals`).

`Common` holds the shared vocabulary. Where a promise turned out to hold only under a condition, the
condition is proved in both directions:

- In verbose sequential mode a timed-out child is not reported as TIMEOUT:
  `_run_subprocess_with_tee` answers with the exit code of the killed process
  (`examples/run_examples.py:1746-1758`), and only -1 takes the timeout branch (lines 1854-1864).
  A child that exits after its timeout and within the grace period is a TIMEOUT on the sequential
  path in capture mode and a completed one on the parallel path (lines 447-464).
- The parallel path reads nothing from a child before it has exited
  (`examples/run_examples.py:411-418,452,514`), so a child that prints more than a pipe holds blocks
  and becomes a TIMEOUT, while both sequential modes read along and classify it.
- The order-2 predictor with the default window 1 reads the very sample it predicts
  (`benchmarks/feature_cache/analyze_residual_taylor_error.py:113-128`), although the docstring at
  lines 61-68 says it is out of sample.
- Skipping a record is unsafe as soon as the lists given to `--saved-steps` on one directory differ in
  their steps or in their last one, or repeat the last one
  (`scripts/build_latent_dataset.py:217-224,258-280`), and always if a crash can hit `--clean`
  (lines 326-334).
- Configured pipelines that share script, GPU count and output type share one output file, so a
  recorded PASS protects the file from being overwritten only if all of them have one
  (`examples/run_examples.py:1497-1515`).
- Frame URLs carry no session (`examples/abot_world/abot_world_interactive_web.py:127-128`), so a
  request that crosses a restart can be answered with a frame of the new session.
- The prefix lookup for an output file finds another script's file when a second `_<digits>gpu_` can
  be read in its name behind a stem (`examples/run_examples.py:1484-1492`).
- The report is overwritten in place, and one that does not parse counts as empty
  (`examples/run_examples.py:1523-1529`), so a run that dies while saving loses all records; with such runs a
  verified file is safe only when no configured pipeline is left to run.

## Model

| member | source | states |
|---|---|---|
| AbotProtocol.LosslessDelivery | examples/abot_world/abot_world_interactive_web.py:152-214 | Over every interleaving of producer threads, pulls, control updates and start/stop requests: what was pulled, then queued, then held is in chunk order without duplicates and comes from the session; the queue stays within its capacity; at most one payload is held. While no stop is signalled nothing is missing; once one is signalled, until draining begins, at most the newest payload is |
| AbotProtocol.SessionFencing | examples/abot_world/abot_world_interactive_web.py:235-277 | Whatever is pulled, queued or held belongs to the latest session, and nothing is queued or held when no session is active: a producer caught mid-generation or mid-put by a stop cannot reach the next session |
| AbotProtocol.OneProducer | examples/abot_world/abot_world_interactive_web.py:216-233 | In every reachable state at most the thread the runtime knows is alive; none is alive once a request has joined it; what a live thread generates is for the current session |
| AbotProtocol.SnapshotConsistency | examples/abot_world/abot_world_interactive_web.py:182-212 | Every chunk message carries non-empty controls and a pair from the register's history of its session, its version equals its chunk number, and `total_frames` is the sum of `new_frames` so far |
| AbotProtocol.ChunkLabel | examples/abot_world/abot_world_interactive_web.py:182-212 | The story of every chunk message over its run: one thread took a snapshot, generated a block and published it, with no other snapshot of its own in between; controls and revision on the message are what the register held at that snapshot, all in one session and after the previous chunk was published; and the video grew by exactly the block that was generated |
| AbotProtocol.StopCompletes | examples/abot_world/abot_world_interactive_web.py:163-172 | After a stop signal a producer takes at most four more steps of its own, under every interleaving and however full the queue; until it is done it never has to wait, and then the join goes through |
| AbotProtocol.ProducerGoesOn | examples/abot_world/abot_world_interactive_web.py:180-214 | Without a stop or start request, and with generation returning frames, the session's one producer keeps working over every run, whatever controls and clients do: it neither ends nor is replaced, and its next step is always possible |
| AbotProtocol.StopStays | examples/abot_world/abot_world_interactive_web.py:229-230 | Only a completed start clears the stop flag |
| AbotProtocol.CacheHoldsNewest | examples/abot_world/abot_world_interactive_web.py:114-128 | The block cache holds exactly the newest `min(12, version)` versions, each with the frames that this block occupies in the session's video |
| AbotProtocol.FetchAnswered | examples/abot_world/abot_world_interactive_web.py:352-357 | In every reachable state a frame request is answered exactly for a block among the newest twelve of the current session and an index within it, always with that frame of the current session's video |
| AbotProtocol.StaleFetchExactly | examples/abot_world/abot_world_interactive_web.py:127-128 | Frame URLs name no session: a request that belongs to a chunk of an earlier session is answered, with a frame of the current session, exactly when the current one has a block of the same number among its newest twelve that is long enough; otherwise it is refused |
| AbotProtocol.RevisionNeverDecreases | examples/abot_world/abot_world_interactive_web.py:293-303 | Within one session no sequence of events lowers the control revision |
| AbotProtocol.InvKept | examples/abot_world/abot_world_interactive_web.py:180-346 | The whole invariant (one producer, fencing, counters, cache, queue discipline) is kept by every run from any state that satisfies it |
| AbotProtocol.FifoStepKeeps | examples/abot_world/abot_world_interactive_web.py:152-178 | Each of the seven things that can happen to the line of payloads keeps order and the loss bound |
| AbotProtocol.StepIsFifoStep | examples/abot_world/abot_world_interactive_web.py:180-214 | Every lock section and queue operation of the runtime does one of those seven things to the line |
| AbotProtocol.PublishKeepsBooks | examples/abot_world/abot_world_interactive_web.py:199-212 | A published block keeps counters, running totals and cache consistent with the payloads produced |
| BrowserRetention.RetentionExactly | examples/abot_world/abot_world_interactive_web.py:606-629 | From one start to the next, stop requests and draining included, with queue capacity C, blocks of at least b frames and browser throttle M: every pulled, unfetched block is served with its own frames in all runs if and only if ceil(M/b) + C <= 11 (1 + C <= 11 for a client that fetches each block before its next pull) |
| BrowserRetention.BoundSuffices | examples/abot_world/abot_world_interactive_web.py:352-357 | Within the bound every version the browser may still fetch is cached |
| BrowserRetention.BoundNeeded | examples/abot_world/abot_world_interactive_web.py:120-125 | Beyond the bound there is a run that evicts a block the browser has received and not fetched |
| BrowserRetention.UnfetchedBounded | examples/abot_world/abot_world_interactive_web.py:546-565 | The throttle leaves at most ceil(M/b) blocks unfetched, counting the one in flight |
| BrowserRetention.RunOk | examples/abot_world/abot_world_interactive_web.py:525-565 | Over every run the browser's frame count equals unfetched plus unplayed frames, and what is unfetched is the newest part of what was pulled |
| BrowserRetention.StartReachesSession | examples/abot_world/abot_world_interactive_web.py:244-277 | Every completed start request leaves the state that the retention results begin from |
| ControlRegister.OrderOfArrivalIrrelevant | examples/abot_world/abot_world_interactive_web.py:279-306 | With distinct client revisions every order of arrival leaves the register in the same state |
| ControlRegister.FoldIsLatestHighest | examples/abot_world/abot_world_interactive_web.py:293-303 | For any arrivals the register ends with the last update among those with the highest revision, or unchanged when even that one is stale |
| ControlRegister.PairCommutes | examples/abot_world/abot_world_interactive_web.py:293-303 | Two updates commute if and only if their revisions differ, they say the same, or both are stale; two updates under one revision do not converge |
| ControlRegister.MixedRevision | examples/abot_world/abot_world_interactive_web.py:293-303 | For any mix of updates with and without a revision the register's revision is the highest that any of them, or its first one, has got to when every later update without a revision counts one step; nothing else changes but the controls |
| ControlRegister.MixedControls | examples/abot_world/abot_world_interactive_web.py:293-303 | For any mix the register's controls are those of the last update that takes effect, that is, has no revision or one that nothing before has got beyond; if none does, they stay |
| ControlRegister.FoldNeverDecreases | examples/abot_world/abot_world_interactive_web.py:279-306 | No mix of updates lowers the revision |
| InteractiveRuntime.UpdateEffect | examples/abot_world/abot_world_interactive_web.py:286-303 | One update: nothing without a session or with a stale revision; otherwise exactly its controls, and its revision or, without one, the next, after which the old revision is stale |
| InteractiveRuntime.Runtime.constructor | examples/abot_world/abot_world_interactive_web.py:58-79 | A new runtime is the initial state of the protocol |
| InteractiveRuntime.Runtime.Create | examples/abot_world/abot_world_interactive_web.py:52-55 | Construction fails exactly for a latent frame count outside {1, 2, 3} or a non-positive queue size |
| InteractiveRuntime.Runtime.ClearOutputQueue | examples/abot_world/abot_world_interactive_web.py:107-112 | Drains the queue |
| InteractiveRuntime.Runtime.EvictStale | examples/abot_world/abot_world_interactive_web.py:124-125 | Deleting all but the last twelve sorted keys keeps a version exactly when fewer than twelve cached versions are newer |
| InteractiveRuntime.CachingKeepsWindow | examples/abot_world/abot_world_interactive_web.py:114-125 | Adding a block keeps the cache the newest twelve versions and leaves surviving blocks unchanged |
| InteractiveRuntime.Runtime.CacheBlockFrames | examples/abot_world/abot_world_interactive_web.py:114-128 | Refuses an empty block, otherwise advances the version by one and caches the block under it |
| InteractiveRuntime.Runtime.PublishBlock | examples/abot_world/abot_world_interactive_web.py:199-212 | One lock section: video, counters, cache and payload move together; an empty block leaves only the chunk counter advanced |
| InteractiveRuntime.Runtime.SetControls | examples/abot_world/abot_world_interactive_web.py:279-306 | Refuses without a session and ignores a revision below the register's; otherwise the controls are exactly the update's and the revision is its own or, without one, one higher |
| InteractiveRuntime.Runtime.TakeOutput | examples/abot_world/abot_world_interactive_web.py:308-325 | Takes the oldest payload, or reports an empty queue |
| InteractiveRuntime.Runtime.TryPut | examples/abot_world/abot_world_interactive_web.py:163-166 | Appends at the back exactly when the queue has room |
| InteractiveRuntime.Runtime.SignalStop | examples/abot_world/abot_world_interactive_web.py:216-220 | Sets the stop flag and answers with the thread to join |
| InteractiveRuntime.Runtime.Detach | examples/abot_world/abot_world_interactive_web.py:225-227 | Forgets the joined thread, but not a newer one |
| InteractiveRuntime.Runtime.StartSession | examples/abot_world/abot_world_interactive_web.py:244-277 | Everything of the previous session is reset before the new producer starts |
| InteractiveRuntime.Runtime.EndSession | examples/abot_world/abot_world_interactive_web.py:333-338 | Session, controls and queue are cleared; video and cache stay |
| InteractiveRuntime.Runtime.BlockFrame | examples/abot_world/abot_world_interactive_web.py:352-357 | Answers exactly for cached versions and indices in range |
| GpuPool.PoolConservation | examples/run_examples.py:224-283 | Over every history of allocations and releases, including unknown ids and failed requests: free and allocated ids together are the initial ids with multiplicity, the free list is sorted, and job ids are never reused |
| GpuPool.NoSharing | examples/run_examples.py:246-283 | With distinct ids no GPU is held by two jobs or is both held and free |
| GpuPool.AllocateConserves | examples/run_examples.py:246-266 | Succeeds exactly when enough GPUs are free; hands out that many of the smallest, in ascending order, under a fresh id; nothing is lost |
| GpuPool.ReleaseConserves | examples/run_examples.py:268-283 | Gives back exactly the job's GPUs; other leases are unchanged; nothing is lost |
| GpuPool.ReleaseUndoesAllocate | examples/run_examples.py:246-283 | Releasing a fresh allocation restores the pool, order included, with one id spent |
| GpuPool.SortSorts | examples/run_examples.py:234-282 | Sorting orders the ids and keeps each of them |
| GpuPool.SortedUnique | examples/run_examples.py:280-282 | The sorted order of given ids is unique, so release restores one definite free list |
| GpuPool.GPUPool.constructor | examples/run_examples.py:227-236 | A new pool has all ids free |
| GpuPool.GPUPool.Allocate | examples/run_examples.py:246-266 | Performs in place the allocation that the conservation results are about |
| GpuPool.GPUPool.Release | examples/run_examples.py:268-283 | Performs in place the release that the conservation results are about |
| SchedulerLoop.TerminatesWithinBound | examples/run_examples.py:2251-2275 | If the clock advances by at least d per round, the loop is over within the sum of `(timeout + grace) / d + 2` over the pipelines that fit the pool, whatever each poll shows of the children |
| SchedulerLoop.ExactlyOnce | examples/run_examples.py:344-371 | In every state of every run, whatever the clock shows, each input name is in exactly one of results, running and pending, once; at the end every name, too large ones included, has exactly one result |
| SchedulerLoop.RunsConserveGpus | examples/run_examples.py:393-472 | In every state of every run, whatever the clock shows: the free ids and those the running jobs hold are together the initial ids, running jobs and leases match, the free list is sorted; with distinct ids no GPU is held twice or held and free, and each job has as many as it asks for; at the end the free list is the initial one |
| SchedulerLoop.RunsStaySafe | examples/run_examples.py:474-485 | The whole scheduler invariant holds after any number of rounds on any clock |
| SchedulerLoop.RoundProgress | examples/run_examples.py:474-485 | One unfinished round keeps the invariant and strictly lowers the remaining work |
| SchedulerLoop.CollectCost | examples/run_examples.py:447-464 | Polling lowers the remaining time by a round for every job that was running |
| SchedulerLoop.ScheduleCost | examples/run_examples.py:392-429 | Starting a pipeline trades its allowance for its running time exactly |
| SchedulerLoop.RoundsKeepFrom | examples/run_examples.py:474-485 | After any number of rounds the invariant holds and the rounds spent plus the work left are within the bound |
| SchedulerLoop.RunRound | examples/run_examples.py:481-483 | One pass of the loop on the scheduler object |
| SchedulerLoop.RunLoop | examples/run_examples.py:2255-2275 | The loop on the scheduler object ends, within the given number of rounds, in the finished state |
| SchedulerLoop.RunAll | examples/run_examples.py:2245-2277 | Pool, scheduler and loop together: within the bound, one result for every input pipeline, those that the results below explain |
| SchedulerResults.ResultsExplained | examples/run_examples.py:341-359 | Every result of every run is a SKIP of a configured pipeline that needs more GPUs than there are, or a round polled a running job of that name that it showed finished with that very status, or unfinished and older than timeout and grace, with status TIMEOUT |
| SchedulerResults.PollsAreReported | examples/run_examples.py:447-472 | Conversely: a job seen finished is reported with that status from then on, an overdue one as TIMEOUT, and any other goes on running |
| SchedulerResults.TooLargeAreSkipped | examples/run_examples.py:344-359 | Every configured pipeline that needs more GPUs than there are is reported as SKIP from the start |
| SchedulerResults.JobsWereStarted | examples/run_examples.py:392-429 | Every running job was started by an earlier round from the pending pipelines, when it fitted, on the first free GPUs, with the time the clock showed then |
| SchedulerSafety.GreedyBackfill | examples/run_examples.py:381-433 | A step starts the largest pending pipeline that fits, the earliest among equals, on the first free GPUs and at the time shown; it overtakes only pipelines that do not fit; it starts none exactly when none fits |
| SchedulerSafety.NeverStuck | examples/run_examples.py:381-433 | With nothing running and work pending, the first pending pipeline is started |
| SchedulerSafety.SortIsStable | examples/run_examples.py:363-369 | The initial order is largest demand first, equal demand in configuration order |
| SchedulerSafety.NewSchedulerOk | examples/run_examples.py:341-371 | A new scheduler satisfies the invariant; too large pipelines already have their result |
| SchedulerSafety.ScheduledKeeps | examples/run_examples.py:381-433 | A scheduling step keeps GPUs, names, queue order, and the match of running jobs with leases |
| SchedulerSafety.CollectedKeeps | examples/run_examples.py:435-472 | A collecting step keeps them too |
| SchedulerSafety.KeptOrEnded | examples/run_examples.py:447-469 | The ids of the jobs that stay are those that ran minus those that ended |
| Scheduler.PipelineScheduler.constructor | examples/run_examples.py:311-371 | Builds the scheduler the safety results start from |
| Scheduler.PipelineScheduler.ScheduleNext | examples/run_examples.py:381-433 | Performs the scheduling step in place and starts something exactly when some pending pipeline fits |
| Scheduler.PipelineScheduler.CollectFinished | examples/run_examples.py:435-472 | Performs the collecting step in place: appends the shown status for each finished job and TIMEOUT for each overdue one, keeps every other job running |
| Scheduler.FirstFit | examples/run_examples.py:392-393 | The first position whose demand fits, or none |
| LatentIndex.SkipSafeExactly | scripts/build_latent_dataset.py:213-288 | For every collection of `--saved-steps` lists that runs on one directory are started with, in any order: in all reachable states a skipped record has all its files, whole and from one attempt, if and only if the non-empty lists save the same steps, end in the same one and do not contain that one earlier. If a crash can also hit `--clean`: if and only if every list is empty |
| LatentIndex.OneListSafeExactly | scripts/build_latent_dataset.py:213-288 | For one list used by all runs, without a crash inside `--clean`: safe if and only if its last step does not occur earlier in it |
| LatentIndex.SkipIsSafe | scripts/build_latent_dataset.py:217-219 | The safe direction: over every run with such lists, failures anywhere and crashes outside `--clean`, a record is skipped only when complete and from one attempt |
| LatentIndex.RepeatedLastBreaks | scripts/build_latent_dataset.py:258-280 | For every list whose last step occurs earlier, a crash while it is saved again leads to a skip with a torn file |
| LatentIndex.FinishedIsSkipped | scripts/build_latent_dataset.py:258-288 | With such lists, a record saved to the end is skipped by this run and by every later one until a `--clean`, always with all its files |
| LatentIndex.InvKept | scripts/build_latent_dataset.py:213-280 | Every event but a crash inside `--clean` keeps, for a list like the running one: a record whose last row is in the index is complete in rows and files |
| LatentIndex.RowsOutliveFiles | scripts/build_latent_dataset.py:221-224 | The simpler invariant, every row has its file, is false for every list of two or more steps with a new last one: a retry deletes a file whose row remains |
| LatentIndex.MoreStepsBreak | scripts/build_latent_dataset.py:217-224 | For every list and every other list with a step that the first lacks: running the first, the second and the first again leads to a skip without files |
| LatentIndex.OtherLastBreaks | scripts/build_latent_dataset.py:258-280 | For every two lists with the same steps and different last ones, the rows of two unfinished runs add up to a complete index without all files |
| LatentIndex.CrashInCleanBreaks | scripts/build_latent_dataset.py:326-334 | For every non-empty list, a crash during `--clean` after a file and before the index leads to a skip without that file |
| LatentBuilder.Builder.ProcessRecord | scripts/build_latent_dataset.py:213-288 | Skips exactly a complete record and changes nothing then. Otherwise: with all steps in the payload and no failing save it answers "ok", every step's file is whole, its rows follow in step order, and the record counts as done; a save failing at step k is an error with exactly the first k steps in files, rows and done set, plus a torn file of step k if there is one; a pipeline error or a missing step leaves an empty directory and no row. It exhibits itself as a crash-free run of the crash model |
| LatentBuilder.Builder.Attempt | scripts/build_latent_dataset.py:226-288 | From a fresh directory: nothing saved on a pipeline error or a missing step, the prefix before a failing save with or without its torn file, or all steps |
| LatentBuilder.Builder.SaveSteps | scripts/build_latent_dataset.py:258-280 | The saving loop: after n steps exactly those are on disk, in the index in order, and in the done set |
| LatentBuilder.Builder.SaveStep | scripts/build_latent_dataset.py:262-280 | File, then row, then done entry of one step |
| LatentBuilder.Builder.FreshDirectory | scripts/build_latent_dataset.py:221-224 | The record's directory is emptied and created; rows and done set are untouched |
| LatentBuilder.Builder.constructor | scripts/build_latent_dataset.py:348-350 | A run begins with the rows of the index as its done set |
| LatentBuilder.LoadDoneSet | scripts/build_latent_dataset.py:183-198 | The done set is exactly the set of well-formed rows |
| Chunking.GetChunkIndices | examples/flashvsr/flashvsr_stream.py:52-68 | For every frame count the chunks tile the video, 25 frames first and 16 after, the last possibly shorter; no frames give the one empty chunk |
| Chunking.EachFrameOnce | examples/flashvsr/flashvsr_stream.py:52-68 | Every frame lies in exactly one chunk |
| Chunking.FlashChunksEqual | examples/flashvsr/flashvsr_stream.py:52-68 | Tiling and sizes determine the chunk list |
| Chunking.CallRunFlashVsrChunked | examples/run_examples.py:979-1001 | The runner's slices tile the video in the same sizes and concatenate to it |
| Chunking.PathsAgree | examples/run_examples.py:989-1001 | The runner's slices are those of the example's chunk list |
| Chunking.SwiftChunks | examples/swiftvr/swiftvr_restore_h100.py:126-131 | The session's slices concatenate to the video, and their sizes are exactly the computed set |
| Chunking.WarmupCoversSizes | examples/swiftvr/swiftvr_restore_h100.py:137-140 | The warm-up prefix produces exactly the chunk sizes of the full video if and only if at least one full chunk is warmed up or the video has none |
| Chunking.WarmupSuffices | examples/swiftvr/swiftvr_restore_h100.py:32-33 | With the example's 24 frames and two chunks it does for every video |
| VideoReplay.VideoReplayService.Serve | examples/stream_server/stream_video_replay.py:85-141 | Chunk frames concatenate to the looped video and audio slices to exactly the due prefix of the track; after every chunk the audio sent matches the video sent; chunks are numbered and full but for the last; it fails exactly when frames are asked of an empty video |
| VideoReplay.VideoReplayService.SendChunk | examples/stream_server/stream_video_replay.py:99-135 | One pass of the loop keeps all of that |
| VideoReplay.VideoReplayService.EncodeFrames | examples/stream_server/stream_video_replay.py:103-105 | The inner loop continues the looped video |
| VideoReplay.VideoReplayService.AudioSlice | examples/stream_server/stream_video_replay.py:120-126 | The slice continues the audio with no overlap or gap |
| VideoReplay.StepStaysIn | examples/stream_server/stream_video_replay.py:120-126 | Audio that is in step after every chunk stays so with one more |
| VideoReplay.AudioInStep | examples/stream_server/stream_video_replay.py:122-125 | Until the track runs out, audio is never ahead of the video and less than one sample behind; it has run out exactly when the video is at least as long |
| TaylorResiduals.PredictorsAgree | benchmarks/feature_cache/analyze_residual_taylor_error.py:61-130 | The two predictors agree on every residual sequence if and only if the order does not exceed the window |
| TaylorResiduals.NoLeakage | benchmarks/feature_cache/analyze_residual_taylor_error.py:61-130 | The first predictor is independent of the sample it predicts if and only if the order does not exceed the window; order 2 with the default window 1 reads it |
| TaylorResiduals.WhatLeaks | benchmarks/feature_cache/analyze_residual_taylor_error.py:61-130 | What the first predictor makes of samples it should not read: order 1 with window 0 returns the sample itself, order 2 with window 1 counts it twice, order 2 with window 0 reads beyond it |
| TaylorResiduals.ShortReference | benchmarks/feature_cache/analyze_residual_taylor_error.py:217-235 | With fewer samples than the order needs the second predictor falls back to the one sample or the line through two |
| TaylorResiduals.QuadraticErrors | benchmarks/feature_cache/analyze_residual_taylor_error.py:205-243 | On a + bk + ck^2, from any start: the closed-form error of each order; order 2 overshoots by c times the elapsed steps |
| TaylorResiduals.WhenExact | benchmarks/feature_cache/analyze_residual_taylor_error.py:205-243 | Those errors vanish exactly on constant (order 0, given c = 0) and affine (orders 1 and 2) sequences |
| TaylorResiduals.AffineExact | benchmarks/feature_cache/analyze_residual_taylor_error.py:205-243 | Order 1 is exact on affine sequences for every window from 1 |
| TaylorResiduals.ResidualAnalyzer.Store | benchmarks/feature_cache/analyze_residual_taylor_error.py:51-59 | Appends output minus input to the path's residuals; the other path is unchanged |
| TaylorResiduals.ResidualAnalyzer.ComputeApproximationErrors | benchmarks/feature_cache/analyze_residual_taylor_error.py:132-203 | A path is analysed exactly when it has at least window + 2 samples, with the errors below |
| TaylorResiduals.PathErrors | benchmarks/feature_cache/analyze_residual_taylor_error.py:149-199 | For every order: the error from the start, then one for each sliding window, every index in range |
| TaylorResiduals.StartsAt | benchmarks/feature_cache/analyze_residual_taylor_error.py:181-187 | The windows start every window + 1 positions from window + 2, as far as there is a sample to predict |
| TaylorResiduals.RelativeErrorIs | benchmarks/feature_cache/analyze_residual_taylor_error.py:175-176 | The error times the actual magnitude plus 1e-8 is the distance between prediction and actual |
| TaylorResiduals.ErrorsOnAffine | benchmarks/feature_cache/analyze_residual_taylor_error.py:149-199 | All orders collect equally many errors, and on affine sequences every first-order one is zero |
| OutputNames.LookupExact | examples/run_examples.py:67-75 | A script's output is found for no script of another stem and under no other GPU count if and only if no second `_<digits>gpu_` can be read in its name at a place where the text before it is a stem: inside the own stem after a "__", or after the own marker with no slash before it. Scripts of one stem, such as d/a.py and d__a.py, do share their files |
| OutputNames.StemsExactly | examples/run_examples.py:52-64 | The stems of script paths are exactly the texts that contain "__" and no slash |
| OutputNames.DocumentedPath | examples/run_examples.py:52-64 | dir/name.py is cut into dir and name, for every directory and name without slashes, whose "__" and ".py" are only these |
| OutputNames.DocumentedName | examples/run_examples.py:67-75 | Its output is dir__name_<count>gpu_<resolution or "unknown">.mp4 or .png |
| OutputNames.FindsOwn | examples/run_examples.py:1471-1494 | A generated name is always found by its own lookup, and by none for the other output type |
| OutputNames.PlainNamesExact | examples/run_examples.py:1542-1552 | The lookup is exact in that sense whenever the stem has no `_<digits>gpu` and the resolution no underscore |
| OutputNames.MisreadExample | examples/run_examples.py:1484-1492 | A two-GPU output of one script that the one-GPU lookup of another script finds |
| OutputNames.ParseRebuilds | examples/run_examples.py:52-64 | Directory, separator and name rebuild the slug exactly when it has a separator; otherwise the directory is "unknown" |
| OutputNames.JoinSplit | examples/run_examples.py:61-63 | Joining undoes splitting for every text |
| OutputNames.CheckOutputExists | examples/run_examples.py:1471-1494 | Answers yes exactly when some listed file matches prefix and extension |
| ResumeReport.NeverOverwrittenExactly | examples/run_examples.py:2190-2204 | Over every later sequence of complete and interrupted resumed runs, none of them dying while it writes the report, the file of a pipeline with a recorded PASS is never written again if and only if every configured pipeline that shares the file has a recorded PASS |
| ResumeReport.RecordedPassIsFinal | examples/run_examples.py:2190-2204 | A pipeline with a recorded PASS and an existing output keeps both over every later sequence of complete and interrupted resumed runs and is never run again, whoever else shares its file |
| ResumeReport.SkipNeedsSavedPass | examples/run_examples.py:1497-1515 | A resumed run leaves out only names with an existing output that had a recorded PASS to begin with, or for which a run that had computed a PASS was saved since: files left by interrupted runs never cause a skip |
| ResumeReport.PassWasSaved | examples/run_examples.py:2062-2067 | Over all runs a new PASS in the report goes back to a save by a run that had computed it |
| ResumeReport.SaveRecords | examples/run_examples.py:2062-2067 | Saving gives every name the run set out to run exactly the status computed, and leaves every other name as it was |
| ResumeReport.ResultsAreRecorded | examples/run_examples.py:2277-2316 | The statuses a run saves are the last ones recorded for each name in that run |
| ResumeReport.SavedPassIsSkipped | examples/run_examples.py:1497-1515 | A pipeline whose child wrote its file and for which a run saved a PASS is never run again by later resumed runs, until one dies while it writes the report |
| ResumeReport.NamesOnlyGrow | examples/run_examples.py:2062-2067 | Over runs that never die while writing the report its names only grow |
| ResumeReport.NeverOverwrittenTorn | examples/run_examples.py:1523-1529 | With runs that may also die while they overwrite the report: the file of a completed pipeline is never written again if and only if every configured pipeline is completed |
| ResumeReport.TornSaveForgets | examples/run_examples.py:2103-2106 | One pipeline left to run is enough: a run that dies while saving loses every record, and the next resumed run writes over a verified file |
| ResumeReport.GetCompletedPipelines | examples/run_examples.py:1497-1515 | Exactly the names with a recorded PASS and an existing output |
| ResumeReport.MergedTable | examples/run_examples.py:2325-2335 | The table keeps every recorded result not run now, followed by the new ones |
| ResumeReport.MergedReport | examples/run_examples.py:2062-2067 | Each name has the status of its last new result, or its recorded one if there is none; names with neither are absent |
| ResumeReport.SaveIsMerge | examples/run_examples.py:2337-2338 | Saving at the end of a run writes that merged report |
| ResumeReport.TableAndReport | examples/run_examples.py:2322-2338 | Table and report give the same status to the same names |
| ResumeReport.CountStatuses | examples/run_examples.py:2069-2073 | Each status is counted as often as it occurs, unknown ones included, and the counters add up to the number of results; on the runner's five statuses the counter "pass" is the number of PASS results, and so on |
| ResumeReport.LowerExactly | examples/run_examples.py:2071-2073 | The key of a counter is the status with each capital made small and nothing else changed |
| Classification.PathsAgreeExactly | examples/run_examples.py:435-472 | For one child, whatever it prints, after the first poll past timeout and grace the sequential path and the polling parallel path report the same result in every field if and only if: its output fits a pipe and it exits in time with a code other than -1, or it exceeds the pipe and exits in time with -1; or it exits later, fits and is seen by that poll, in verbose mode with the code of a killed process; or neither, and the mode is capture |
| Classification.PathsAgreeInTheEnd | examples/run_examples.py:435-472 | On every clock that advances from poll to poll there is such a poll, so the condition decides from then on |
| Classification.ChattyChildTimesOut | examples/run_examples.py:410-418 | A child that succeeds at once after printing one character more than a pipe holds is PASS on the sequential path in both modes and TIMEOUT on the parallel path, which reads nothing before the exit |
| Classification.ParallelEnding | examples/run_examples.py:447-464 | The parallel path classifies a child whose output fits the pipes and that has exited by the first poll after timeout and grace, even one that outlived its timeout, and reports any other as TIMEOUT |
| Classification.TimeoutReportedExactly | examples/run_examples.py:1740-1776 | The sequential path reports a child that outlives its timeout as TIMEOUT, whatever it had printed, if and only if it runs in capture mode; in verbose mode the exit code of the killed child is used |
| Classification.PassExactly | examples/run_examples.py:530-620 | PASS if and only if the child said PASS, the comparison passed and both enabled limits hold; a child that said PASS is otherwise FAIL; another status is kept |
| Classification.FieldsReported | examples/run_examples.py:516-527 | Error, memory and time are those reported and measured; the category is the reported one, or out of memory by stderr when none is; metrics are the comparison's, for a child that said PASS only |
| Classification.NoteExactly | examples/run_examples.py:585-620 | The note is the comparison's, marked as updated exactly when the baseline was replaced, followed by the one limit that failed; any other empty note of a failure names category and error |
| Classification.SilentCrashExplained | examples/run_examples.py:522-527 | A child that fails without a report is ERROR with its exit code, told apart as out of memory by its stderr |
| Classification.ProcessCompletedJob | examples/run_examples.py:512-620 | The parallel path classifies as the function these results are about |
| Classification.RunPipeline | examples/run_examples.py:1855-1961 | The sequential path, written out separately, computes the result that the agreement is about |

## Left out

ABot runtime:

- Overlapping start/stop requests: both could pass the join and leave two producers. One caller at a time is assumed; a join that times out is modelled, and that request ends there.
- The producer and enqueue loops as class methods: their steps are events of the transition system, since other threads run between any two of them. The class carries each step's effect.
- The control event: waiting on it returns after a quarter of a second whether it is set or not, so no step depends on it. Waiting on the queue is modelled as single attempts.
- Parsing and upper-casing of control names, queue metrics, backpressure counters, `worker_error`, status texts, image and video files, and HTTP.
- Exceptions inside session creation in `start`, after the reset and before the producer starts.
- Retention covers one browser from one start to the next; two clients pulling from one queue are not covered. The browser's own check that drops frames fetched before a reconnect is left out.

Scheduler:

- Negative GPU counts and timeouts, neither of which the source validates: both are natural numbers. GPU ids are distinct where a result says so.
- A killed child leaves nobody holding its pipes: reading its output after the kill waits for every holder, so a surviving grandchild could hold up a round. Each round takes the time the clock shows and no more.
- Spawning, environment variables, log files, reproduce commands, git and system information. An exception while spawning a child is not modelled.
- Time is in integer units of any size, so rounding of elapsed seconds is not modelled.
- Both paths are handed the same evidence about a child, elapsed time included; that the parallel path measures it up to one poll later, and what a killed child had printed by then, is not modelled. Sequential execution is modelled only as classification of one child; its filter for too large pipelines repeats the scheduler's.

Latent index:

- Rows are appended whole: a row cut off by a crash would join the next one on its line.
- Videos, the manifest and the failures file, which nothing reads back. Record ids name separate directories, none inside another.

Resume and report:

- A run that dies takes its children with it: after a kill of the runner alone an orphan child could still move its file into the directory later.
- Runs without `--resume`, which replace the report by their own results.
- The output directory holds one entry per script, GPU count and type here; how file names stand for these is the subject of `OutputNames`.
- Report details other than statuses: failed commands, hints, log tails, environment. A status spelled "total" would also collide with the summary's own key.
- Computing PSNR, SSIM, pixel and audio differences: a comparison is an outcome with metrics and a message. Formatting and rounding of notes and numbers are inputs.
- Log file names.

Chunking, replay, residuals:

- Chunking.SwiftChunks: the frame crop, the session and its flush, and the error for an empty video are not part of this model; the loop alone is.
- VideoReplay.VideoReplayService.Serve: frames per chunk and fps are positive, because with zero frames per chunk the source does not end, and with zero fps it divides by zero. Truncation of a float duration to a frame count, sleeps, encoding and message fields other than index, frames and audio are left out.
- TaylorResiduals.PredictorsAgree: residuals are real scalars, not float32 tensors, and the norm is the absolute value; float rounding is not modelled. Stored inputs and outputs, and the JSON output are left out.

Elsewhere in the repository: model loading, pipelines, attention, quantisation, the service layer and the other examples are not part of this model.
