# FlexPS in Dafny

FlexPS is a parameter server with a task scheduler on top. This project models its
logic that needs no network: the consistency protocols of the key-value servers, the
partitioned store and the client that scatters requests over it and gathers the
replies, the thread pool and the task schedulers, the search for the best parallelism,
two fast forms of simple computations (the sparse LDA sampler and the lazy SVRG
update), the monitors between the threads of one process, and the HDFS block assigner.

What changes fields in the original is a class with those fields here, or a method
with its loops. Every such class has a specification made of values beside it: a pure
step, a log, a flat array, a definition from scratch. The methods are proved against
that specification, and what the original promises is proved about it, for every run.

| file | what it holds |
|---|---|
| ServerLog, ClockCounts | the declarative meaning of a server's log of requests, and the clock counters |
| SspServer, BspServer | the two servers as classes, each step proved against the log |
| Exactness, ReplyCounts | exactly-once application and answering, what a reply contains, which store it reads, order independence, and how many replies a client gets |
| SspGuarantees, SspDrift, BspGuarantees | bounded staleness, the exact drift bound, snapshots, freedom from deadlock |
| RangeManager, KvHandles, KvSlicing, Sharding | partition, one server's reads and writes, cutting and gathering, and the refinement of one flat array |
| ReplyTracker, PullRun | counting replies and running callbacks, and a pull from request to returned wait |
| TopicTables, TopicWeights, TopicDraws, DocSampler | the LDA sampler's tables, the weights and where a draw lands, which topics the draws choose, and the sampler with its caches |
| LazySvrg | the sparse update against the dense one |
| AvailableWorkers, ThreadSelection, Tracking | the thread pool, thread selection, and who runs for what |
| GreedyTaskScheduler, TaskManager, PriorityTaskScheduler | the schedulers |
| AutoParallelism | the search for the best number of threads |
| LocalControllers | the BSP and SSP monitors of one process |
| HdfsAssigner | handing out blocks |

Assumptions that callers of the original must meet appear as preconditions: workers
are a fixed set of N ids, one worker's messages keep their order, BSP workers alternate
pushes and pulls (as the header of kvstore/handles/bsp_server.hpp asks), keys and chunk ids of a request are sorted,
pulled chunk ids are distinct, a sample names each feature once, a document's topic
counts are part of the summary row, tasks have distinct ids and at least one epoch. The
random draw of the sampler, the measured times, the listing of a directory and the
order of any set or hash table are parameters or arbitrary choices. Real numbers stand
for floating point.

Where the original's own words and its code disagree, the code is modelled:

- the drift bound in the comment of kvstore/handles/ssp_server.hpp holds only when
  N+1 <= 2s (`SspDrift.CommentBoundIff`); the bound that always holds, and is reached,
  is (N-1)(2s+1);
- a stage of the auto-parallelism scheduler whose length is not a multiple of the probe
  may never end (`AutoParallelism.AlwaysEndsIff`);
- the LDA sampler takes a token out of its word's row and then takes it off again in the
  q bucket, so its weights are those of collapsed Gibbs sampling except for the token's
  own topic while the row has more of it (`TopicWeights.GibbsIff`);
- a range begin is kept in a 32-bit int, which is right for begins below 2^31 only
  (`KvHandles.IndexExact`), so the handlers are proved for those.

## Model

| member | source | states |
|---|---|---|
| `SspServer.SspServer.Process` | kvstore/handles/ssp_server.hpp:54-130 | after any message the server is in step with its log, sends the replies of the requests that just became ready (spelled out by `Exactness.RepliesMatch`), and `min_clock_` is the slowest worker's push count |
| `SspServer.SspServer.ProcessPush` | kvstore/handles/ssp_server.hpp:100-113 | a push advances its worker and clock count, and is applied or filed under the clock it waits for |
| `SspServer.SspServer.ProcessPull` | kvstore/handles/ssp_server.hpp:114-128 | a pull is answered when the slowest clock is near enough and filed under the clock it waits for otherwise |
| `SspServer.SspServer.ApplyPush` | kvstore/handles/ssp_server.hpp:142-175 | applying a push, and when it completes the slowest clock, moving that clock on by one and releasing both buckets of the new clock |
| `SspServer.SspServer.InitEpoch` | kvstore/handles/ssp_server.hpp:61-80 | the first of N init messages clears clocks and buckets and starts a new log on the store as it is; the others change nothing but the counter |
| `SspServer.StepFits` | kvstore/handles/ssp_server.hpp:98-129 | every step keeps: the store is the epoch store with the ready pushes, the buckets hold exactly the requests that wait, the clocks count the workers, and the replies are those of the requests that just became ready |
| `ClockCounts.ClocksCount` | kvstore/handles/ssp_server.hpp:101-105 | after any push `clock_count_[c]` is still the number of workers past c and `min_clock_` the slowest worker's clock, which moves by at most one and never for a push ahead of it |
| `ServerLog.ReadyStays` | kvstore/handles/ssp_server.hpp:106-113 | a request that is ready stays ready in every longer log, under both protocols |
| `ServerLog.ReadyIff` | kvstore/handles/ssp_server.hpp:106-127 | what being ready means: under SSP no worker has pushed less than the sender had, less the staleness; under BSP all pulls before a push, or all pushes before a pull, are in from every worker; with consistency control off nothing waits |
| `ServerLog.PushesAre` | kvstore/handles/ssp_server.hpp:100-103 | a worker's progress is the number of pushes it has sent with consistency control on |
| `ServerLog.ReleasedIsBucket` | kvstore/handles/ssp_server.hpp:152-173 | the requests a clock advance makes ready are, in order, those in the bucket of the new clock |
| `Exactness.AppliedIff` | kvstore/handles/ssp_server.hpp:106-113 | in every run a push is in the store exactly when it is ready, and once |
| `Exactness.AnsweredExactlyOnce` | kvstore/handles/ssp_server.hpp:106-129 | in every run of either server a request has been answered exactly when it carries data and is ready, never twice, and an empty one never |
| `Exactness.RepliesMatch` | kvstore/handles/ssp_server.hpp:143-173 | the k-th reply of a step goes to the sender of the k-th newly answered request under that request's number; a pull's carries what its query finds in the store the request sees, and the slowest clock exactly when a controlled pull asked for it; a push's carries neither |
| `Exactness.OneReplyEach` | kvstore/handles/ssp_server.hpp:106-129 | over a whole run, of requests numbered differently each that carries data gets exactly one reply with its number once it is ready, and none before |
| `Exactness.StoreLaw` | kvstore/handles/basic.hpp:21-29 | a store is built up push by push: an update is applied to what the pushes before it left, and pulls and empty pushes leave it alone |
| `Exactness.AppliedOrder` | kvstore/handles/ssp_server.hpp:142-158 | the order in which pushes reach the store: the arriving one first, then those it releases, oldest first |
| `ReplyCounts.NeverTooMany` | kvstore/workercustomer.cpp:34-57 | all servers together never send more replies with a request's number than the client waits for, and exactly as many once every part of it is ready |
| `Exactness.SeenStoreIs` | kvstore/handles/ssp_server.hpp:117-123 | the store behind an answer is the epoch store with exactly the seen pushes applied |
| `Exactness.AnyOrder` | kvstore/handles/ssp_server.hpp:152-158 | when updates commute, the store depends on which pushes it holds and not on the order they were released in |
| `SspGuarantees.BoundedStaleness` | kvstore/handles/ssp_server.hpp:114-123 | an answer to a pull at clock p sees every worker's pushes before p-s, all earlier ones of the puller, and exactly the pushes up to s past the slowest clock, none later |
| `SspGuarantees.SeenExactly` | kvstore/handles/ssp_server.hpp:106-129 | the pushes seen by a pull are exactly those with clock at most the slowest clock plus s, each once |
| `SspGuarantees.NeverStuck` | kvstore/handles/ssp_server.hpp:106-127 | in every run some worker, the slowest, has no blocked request |
| `SspDrift.DriftBound` | kvstore/handles/ssp_server.hpp:20-23 | with unit pushes and clients that wait for their pulls, two answers given at the same clock differ by at most (N-1)(2s+1) |
| `SspDrift.DriftAttained` | kvstore/handles/ssp_server.hpp:20-23 | that bound is reached for every number of workers and every staleness |
| `SspDrift.CommentBoundIff` | kvstore/handles/ssp_server.hpp:20-23 | the bound in the header comment, 2sN-2, holds of all runs exactly when N+1 <= 2s |
| `SspDrift.CommentBoundFails` | kvstore/handles/ssp_server.hpp:20-23 | with two workers and staleness 1 the comment's bound fails: a drift of 3 is reached |
| `BspServer.BspServer.Process` | kvstore/handles/bsp_server.hpp:57-175 | after any message of a worker whose turn it is the server is in step with its log and sends the replies of the requests that just became ready (spelled out by `Exactness.RepliesMatch`) |
| `BspServer.BspServer.AcceptPush` | kvstore/handles/bsp_server.hpp:120-141 | a push of the current round is applied, and the last one releases the buffered pulls and switches to the reply phase |
| `BspServer.BspServer.AcceptPull` | kvstore/handles/bsp_server.hpp:154-173 | a pull of the current round is answered, and the last one applies the buffered pushes and switches back |
| `BspServer.BspServer.InitEpoch` | kvstore/handles/bsp_server.hpp:64-87 | the first of N init messages resets rounds, counts, buckets and phase and starts a new log |
| `BspServer.StepFits` | kvstore/handles/bsp_server.hpp:107-174 | every step by a worker whose turn it is keeps: phase and round numbers are those the log determines, buckets hold exactly the early requests, and the replies are those of the requests that just became ready |
| `BspGuarantees.Snapshot` | kvstore/handles/bsp_server.hpp:107-174 | the answer to a worker's k-th pull sees exactly the pushes of the rounds before it, one of every worker each, and none of a later round, whether given at once or released |
| `BspGuarantees.SnapshotStore` | kvstore/handles/bsp_server.hpp:122-132 | with commuting updates the store behind that answer is the epoch store with those pushes in any order |
| `BspGuarantees.RoundCount` | kvstore/handles/bsp_server.hpp:126-140 | a complete round holds exactly one push of every worker |
| `BspGuarantees.NeverStuckBsp` | kvstore/handles/bsp_server.hpp:113-172 | in every alternating run some worker has no blocked request |
| `RangeManager.RangeManager.SetMaxKeyAndChunkSize` | kvstore/range_manager.cpp:15-81 | the tables of a key-value store become the one partition the sizes determine, other stores keep theirs |
| `RangeManager.RangeManager.DealChunks` | kvstore/range_manager.cpp:34-54 | chunks are dealt in order, the larger shares first |
| `RangeManager.RangeManager.ScaleAndClip` | kvstore/range_manager.cpp:56-80 | the key ranges are the chunk ranges scaled by the chunk size and clipped to the key space, though the original multiplies in 64 bits and repairs the ranges from the end |
| `RangeManager.KeptProducts` | kvstore/range_manager.cpp:57-60 | no product that is kept wraps around |
| `RangeManager.ChunkShares` | kvstore/range_manager.cpp:34-54 | shares have no gaps and end with the last chunk; all have the same number of chunks, but for one more each for the first servers, as many as are over |
| `RangeManager.FirstKeyMono` | kvstore/range_manager.cpp:56-80 | key ranges start at 0, never step back and end at the end of the key space |
| `RangeManager.UniqueOwner` | kvstore/range_manager.hpp:77-89 | every key lies in exactly one server's range |
| `RangeManager.KeyChunk` | kvstore/range_manager.hpp:90-93 | a server holds the first key of a chunk exactly when it holds the chunk |
| `RangeManager.ChunkInside` | kvstore/range_manager.cpp:56-80 | a whole chunk lies inside its server's key range |
| `RangeManager.RangeManager.GetServerFromKey` | kvstore/range_manager.hpp:77-89 | the scan returns the server whose range contains the key |
| `RangeManager.RangeManager.GetServerFromChunk` | kvstore/range_manager.hpp:90-93 | the server whose chunk range contains the chunk |
| `RangeManager.RangeManager.GetLastChunkSize` | kvstore/range_manager.hpp:131-136 | the number of keys in the last chunk |
| `KvHandles.UpdateKeyed` | kvstore/handles/basic.hpp:17-29 | the store in place has the values written under the keys one after the other: each key named once holds its value, or the sum with what was there, and no other cell changes |
| `KvHandles.UpdateChunks` | kvstore/handles/basic.hpp:30-48 | cell j of each chunk ends up j places after the chunk's first key, assigned or added, and all other cells stay as they were |
| `KvHandles.WriteAt` | kvstore/handles/basic.hpp:21-29 | what a batch of writes leaves at a key: the last value assigned, or the value added for a key named once, and nothing elsewhere |
| `KvHandles.ChunksWritten` | kvstore/handles/basic.hpp:38-46 | what a batch of chunks leaves in the store, cell by cell |
| `KvHandles.RetrieveKeyed` | kvstore/handles/basic.hpp:96-106 | the reply holds the values under the keys, in order |
| `KvHandles.RetrieveChunks` | kvstore/handles/basic.hpp:107-127 | the reply holds the chunks one after the other, the last chunk of the key space with its own length |
| `KvHandles.IndexExact` | kvstore/handles/basic.hpp:20-28 | a 64-bit range begin kept in a 32-bit int still gives the right index exactly when it fits, or is within 2^31 of 2^64 |
| `KvHandles.RealChunkSize` | kvstore/handles/basic.hpp:119-122 | only the last chunk of the key space can be short |
| `KvSlicing.FindPositions` | kvstore/kvworker.hpp:514-531 | searching on from the previous boundary finds where each server's keys begin and end |
| `KvSlicing.SliceRequest` | kvstore/kvworker.hpp:511-550 | slice i of a request is its keys in range i with their values, or absent when there are none |
| `KvSlicing.SliceIs` | kvstore/kvworker.hpp:511-550 | a slice is one run of the request, all its keys in the range and no others, with as many values for each as the request has |
| `KvSlicing.CountPresent` | kvstore/kvworker.hpp:558-566 | the number of replies waited for is the number of servers that get keys |
| `KvSlicing.PartitionChunks` | kvstore/kvworker.hpp:623-645 | the boundaries between the servers' chunks, by first keys against range ends |
| `KvSlicing.Gather` | kvstore/kvworker.hpp:480-495 | the callback concatenates the replies sorted by first key |
| `KvSlicing.GatherChunks` | kvstore/kvworker.hpp:203-225 | the callback cuts the sorted replies into chunks |
| `KvSlicing.SortByFrontSorts` | kvstore/kvworker.hpp:486-488 | the sort orders by first key and permutes |
| `KvSlicing.SortRestores` | kvstore/kvworker.hpp:486-488 | whatever order the replies arrived in, sorting gives the server order |
| `Sharding.PushRefines` | kvstore/kvworker.hpp:511-550 | sliced and applied server by server, a keyed push does what it does to one flat array; keys past the key space are dropped |
| `Sharding.PullRefines` | kvstore/kvworker.hpp:462-505 | in every arrival order a keyed pull returns, key by key in request order, the flat array's values |
| `Sharding.PushChunksRefines` | kvstore/kvworker.hpp:164-178 | a chunked push does to the servers' stores what writing the chunks does to the flat array |
| `Sharding.PushCells` | kvstore/kvworker.hpp:511-550 | after a keyed push over the servers each cell of the flat array holds the value of its key, assigned or added, and every other cell what it held |
| `Sharding.PushChunksCells` | kvstore/kvworker.hpp:164-178 | after a chunked push over the servers cell j of each chunk is in its place in the flat array, and every other cell holds what it held |
| `Sharding.PushThenPull` | kvstore/kvworker.hpp:164-230 | a chunked pull after an assigning push of whole chunks returns the chunks pushed |
| `Sharding.PullChunksRefines` | kvstore/kvworker.hpp:189-230 | in every arrival order a chunked pull returns, cell by cell in request order, the flat array's chunks, the short last chunk included |
| `Sharding.CutShares` | kvstore/kvworker.hpp:623-645 | a server's share of the chunks are those that lie in its range, whole |
| `Sharding.ShareFits` | kvstore/handles/basic.hpp:116-126 | a server is never asked for a chunk outside its store |
| `Sharding.SliceFits` | kvstore/handles/basic.hpp:20-28 | a server is never handed a key outside its store |
| `PullRun.WaitReturnsFlat` | kvstore/workercustomer.cpp:22-27 | when the wait for a keyed pull returns, its callback has run once and gathered the flat array's values |
| `ReplyTracker.Client.NewRequest` | kvstore/workercustomer.cpp:15-21 | a new request number, waiting for the given number of replies |
| `ReplyTracker.Client.Receive` | kvstore/workercustomer.cpp:34-57 | one message: note whether it is the last, store it, run the callback, count it |
| `ReplyTracker.Client.RunCallback` | kvstore/kvworker.hpp:447-459 | the callback of a request runs on its stored replies and is erased with them |
| `ReplyTracker.CallbackOnce` | kvstore/kvworker.hpp:365-425 | in every interleaving a pull's callback runs exactly once, after the last reply is stored, on all replies that carry anything |
| `ReplyTracker.Client.WaitRequest` | kvstore/workercustomer.cpp:22-27 | a wait looks whether as many replies were counted as expected |
| `ReplyTracker.WaitIff` | kvstore/workercustomer.cpp:22-27 | in every interleaving a wait returns exactly when as many replies as expected have come in and the receiving thread is through with them |
| `ReplyTracker.WaitAfterCallback` | kvstore/workercustomer.cpp:22-27 | a wait that returns for a request with replies returns after its callback ran |
| `ReplyTracker.NoRepliesNoCallback` | kvstore/workercustomer.cpp:42-49 | a request that waits for no replies never runs its callback |
| `ReplyTracker.NeverMissing` | kvstore/kvworker.hpp:371-391 | the callback never runs without stored replies |
| `DocSampler.DocSampler.ComputeDocTopicVector` | examples/lda/doc_sampler.cpp:249-255 | `theta_` is the histogram of the document's topics |
| `DocSampler.DocSampler.ComputeAuxVariables` | examples/lda/doc_sampler.cpp:258-276 | both sums, the coefficients and the index list equal their definitions |
| `DocSampler.DocSampler.Correct` | examples/lda/doc_sampler.cpp:52-60 | the incremental correction of the sums and of one coefficient gives their definitions on the moved counts |
| `DocSampler.DocSampler.RemoveToken` | examples/lda/doc_sampler.cpp:52-75 | taking a token out keeps every cache equal to its definition, the index array being shifted in place |
| `DocSampler.DocSampler.AddToken` | examples/lda/doc_sampler.cpp:103-127 | putting a token in does too |
| `DocSampler.DocSampler.ComputeQ` | examples/lda/doc_sampler.cpp:82-97 | the q bucket holds, in order, exactly the topics with a positive count, each with its coefficient times the count (one less for the token's own topic), and their sum |
| `DocSampler.DocSampler.Sample` | examples/lda/doc_sampler.cpp:278-325 | the topic is the one on whose interval the dart `u * (q + r + s)` lands, the three buckets being laid side by side; in exact arithmetic the fallbacks for overflow are never reached |
| `DocSampler.DocSampler.Resample` | examples/lda/doc_sampler.cpp:52-127 | a token is taken out, its topic is the one the draw chooses on the counts without it, and it is put back |
| `DocSampler.DocSampler.SampleOneDoc` | examples/lda/doc_sampler.cpp:33-137 | on tables with a vector per word: every token's topic is the one its draw chooses, given the new topics of the tokens before it and the old ones of those after it; caches equal their definitions, and both tables moved exactly with the topics of the tokens |
| `DocSampler.DocSampler.SampleOneDocFlat` | examples/lda/doc_sampler.cpp:139-244 | the same on tables in one vector |
| `TopicDraws.DrawsDetermine` | examples/lda/doc_sampler.cpp:43-137 | the draws determine the topics of the whole document |
| `TopicDraws.ChosenNext` | examples/lda/doc_sampler.cpp:52-98 | the counts a token is drawn with are those of the other tokens' current topics |
| `TopicWeights.ChoosesOnce` | examples/lda/doc_sampler.cpp:278-325 | a draw lands on one topic only |
| `TopicWeights.HitsIff` | examples/lda/doc_sampler.cpp:285-322 | a dart past 0 lands on a topic exactly when it is past the weights before it, by no more than its own |
| `TopicWeights.SparseHits` | examples/lda/doc_sampler.cpp:299-312 | landing in the list of the topics that occur is landing among all topics |
| `TopicWeights.WeightsAt` | examples/lda/doc_sampler.cpp:88-94 | the three weights of a topic, written out |
| `TopicWeights.TopicMass` | examples/lda/doc_sampler.cpp:82-97 | the three weights of a topic add up to (alpha + theta)(beta + n) / (summary + beta_sum), n being the tokens of it the code counts in the word's row |
| `TopicWeights.GibbsIff` | examples/lda/doc_sampler.cpp:74-92 | n is what the row holds exactly unless the topic is the token's own and the row has more of it: the code takes the removed token off twice |
| `TopicWeights.NonZeroRemove` | examples/lda/doc_sampler.cpp:62-73 | removing at the lower bound gives the list of the topics that still occur |
| `TopicWeights.NonZeroInsert` | examples/lda/doc_sampler.cpp:115-124 | inserting at the lower bound gives the list with the new topic |
| `TopicWeights.NonZeroIncreases` | examples/lda/doc_sampler.cpp:258-276 | the index list is sorted |
| `TopicWeights.NonZeroHas` | examples/lda/doc_sampler.cpp:258-276 | a topic is in the index list exactly when its count is not zero |
| `TopicWeights.RFactored` | examples/lda/doc_sampler.cpp:296-312 | the r bucket's mass is that of the topics in the index list, times beta |
| `TopicWeights.SumUpdate` | examples/lda/doc_sampler.cpp:52-60 | changing one term changes a sum by the difference |
| `TopicTables.TracksStep` | examples/lda/doc_sampler.cpp:72-137 | one token's move keeps both tables in step with the topics |
| `TopicTables.CountMinusUpdate` | examples/lda/doc_sampler.cpp:74-77 | in every word row counts minus recorded updates stay constant |
| `TopicTables.SummaryIsColumnSum` | examples/lda/doc_sampler.cpp:74-77 | topic by topic the summary row of updates changes by the sum of the word rows |
| `TopicTables.CellsAddUp` | examples/lda/doc_sampler.cpp:74-77 | every token is counted in its word's row |
| `TopicTables.CellCountIs` | examples/lda/doc_sampler.cpp:72-77 | a cell counts the tokens of the word and topic |
| `TopicTables.ViewBump` | examples/lda/doc_sampler.cpp:178-181 | an entry of the one-vector layout is an entry of the row layout |
| `LazySvrg.Predict` | exp/logistic_regression_svrg.cpp:135-142 | the prediction that catches the sample's coordinates up on the way is the dense prediction |
| `LazySvrg.Process` | exp/logistic_regression_svrg.cpp:162-173 | the sample's coordinates are brought to the dense update, the others left alone |
| `LazySvrg.SampleStep` | exp/logistic_regression_svrg.cpp:120-178 | after each sample every coordinate, caught up, is the dense one |
| `LazySvrg.Sweep` | exp/logistic_regression_svrg.cpp:180-184 | the final sweep makes the recorded change the dense change |
| `LazySvrg.SgdUpdate` | exp/logistic_regression_svrg.cpp:84-195 | the pushed change equals what applying the full gradient to every coordinate at every step gives for exactly the first min(num_iters, samples) samples, and the shares of the processes add up to it |
| `LazySvrg.DenseLaw` | exp/logistic_regression_svrg.cpp:120-178 | the dense update: each sample moves each coordinate against the difference of its gradients at the new and the old weights plus the full gradient, a negative label counting as 0 |
| `LazySvrg.FieldLaw` | exp/logistic_regression_svrg.cpp:135-150 | the inner product and the value of a feature, field by field |
| `LazySvrg.CatchUp` | exp/logistic_regression_svrg.cpp:165-169 | the change made at once for all skipped steps is their dense updates together |
| `AvailableWorkers.AvailableWorkers.AddWorker` | cluster_manager/task_scheduler/available_workers.hpp:21-24 | both indexes gain the thread and agree |
| `AvailableWorkers.AvailableWorkers.GetWorkersExactProcess` | cluster_manager/task_scheduler/available_workers.cpp:115-148 | all or nothing from one process; the pool loses exactly the threads returned, and both indexes agree |
| `AvailableWorkers.AvailableWorkers.GetWorkers` | cluster_manager/task_scheduler/available_workers.cpp:47-63 | all or nothing from anywhere |
| `AvailableWorkers.AvailableWorkers.GetLocalWorkers` | cluster_manager/task_scheduler/available_workers.cpp:65-86 | all from some one process exactly when one has enough |
| `AvailableWorkers.AvailableWorkers.GetWorkersPerProcess` | cluster_manager/task_scheduler/available_workers.cpp:10-45 | the same number from each process, or nothing and the pool unchanged |
| `AvailableWorkers.LocalSize` | cluster_manager/task_scheduler/available_workers.hpp:60-62 | the size of a process's entry is the number of its threads in the other index |
| `AvailableWorkers.AvailableWorkers.GetMaxLocalWorkers` | cluster_manager/task_scheduler/available_workers.hpp:64-69 | the largest number of free threads on a process |
| `ThreadSelection.HistoryManager.UpdateHistory` | cluster_manager/task_scheduler/history_manager.cpp:16-35 | each process that gave threads is counted once |
| `ThreadSelection.GetPreferredProc` | cluster_manager/task_scheduler/task_scheduler_utils.cpp:128-144 | exactly the least visited processes |
| `ThreadSelection.SelectSpread` | cluster_manager/task_scheduler/task_scheduler_utils.cpp:187-226 | exactly the required number of free threads on candidate processes, or none exactly when they have too few; a candidate with threads to spare has given no less than any other, but for one |
| `ThreadSelection.RoundRobin` | cluster_manager/task_scheduler/task_scheduler_utils.cpp:207-224 | the round-robin loop ends, with the number required and evenly spread |
| `ThreadSelection.OneRound` | cluster_manager/task_scheduler/task_scheduler_utils.cpp:211-223 | a round brings at least one thread while threads are missing |
| `ThreadSelection.SelectLocal` | cluster_manager/task_scheduler/task_scheduler_utils.cpp:178-186 | all from one candidate process, exactly when one has enough |
| `ThreadSelection.SelectThreads` | cluster_manager/task_scheduler/task_scheduler_utils.cpp:145-226 | as many threads as required, or none: for a local task exactly when no candidate process has enough, for another exactly when all together have too few |
| `ThreadSelection.EvenShare` | cluster_manager/task_scheduler/task_scheduler_utils.cpp:188-206 | the first share taken from each candidate never exceeds what is required |
| `ThreadSelection.LeftAndTaken` | cluster_manager/task_scheduler/task_scheduler_utils.cpp:188-200 | what the candidates have left and what was taken make up what they had |
| `Tracking.LaunchConserves` | cluster_manager/task_scheduler/greedy_task_scheduler.cpp:79-84 | launching an instance keeps: every thread is free or runs for exactly one task |
| `Tracking.FinishConserves` | cluster_manager/task_scheduler/greedy_task_scheduler.cpp:22-26 | so does the end of a thread |
| `Tracking.UntrackThreads` | cluster_manager/task_scheduler/greedy_task_scheduler.cpp:23-31 | erasing threads and then empty processes leaves the other threads, and the row is empty exactly at the last thread |
| `GreedyTaskScheduler.GreedyTaskScheduler.InitTasks` | cluster_manager/task_scheduler/greedy_task_scheduler.cpp:15-20 | tasks are accepted exactly when none asks for more threads than the cluster has |
| `GreedyTaskScheduler.GreedyTaskScheduler.ExtractInstances` | cluster_manager/task_scheduler/greedy_task_scheduler.cpp:49-92 | only ready tasks are launched, each with as many threads as required; a task that is still ready afterwards finds too few among the threads left on its processes; when all threads are free and a ready task fits the cluster, something is launched |
| `GreedyTaskScheduler.GreedyTaskScheduler.TryLaunch` | cluster_manager/task_scheduler/greedy_task_scheduler.cpp:53-92 | a ready task is launched exactly unless the free threads on its processes are too few |
| `GreedyTaskScheduler.GreedyTaskScheduler.FinishThread` | cluster_manager/task_scheduler/greedy_task_scheduler.cpp:22-47 | a finished thread is free again; the last one of an instance ends the epoch, and the last epoch the task |
| `GreedyTaskScheduler.GreedyTaskScheduler.Run` | cluster_manager/task_scheduler/greedy_task_scheduler.cpp:15-100 | for tasks that fit the cluster every run ends, in any order of finishing threads, with all tasks done after exactly one instance per epoch |
| `GreedyTaskScheduler.LaunchedWithin` | cluster_manager/task_scheduler/greedy_task_scheduler.cpp:35-45 | instances launched never exceed the epochs asked for, and equal them when all tasks are done |
| `GreedyTaskScheduler.SomeoneReady` | cluster_manager/task_scheduler/greedy_task_scheduler.cpp:51-53 | when nothing runs and not all is done, a task is ready |
| `TaskManager.TaskManager.SucSched` | cluster_manager/task_scheduler/task_manager.cpp:87-100 | a scheduled task runs, has no rejections and leaves the angry list, whose others keep their order |
| `TaskManager.TaskManager.FailSched` | cluster_manager/task_scheduler/task_manager.cpp:107-121 | a rejected task gains one rejection and joins the end of the angry list exactly at the threshold |
| `TaskManager.TaskManager.OrderByPriority` | cluster_manager/task_scheduler/task_manager.cpp:49-62 | exactly the ready tasks, most rejected first |
| `TaskManager.TaskManager.FinishThread` | cluster_manager/task_scheduler/task_manager.cpp:31-46 | the last thread ends the epoch, and the last epoch the task |
| `TaskManager.SuccessKeeps` | cluster_manager/task_scheduler/task_manager.cpp:87-100 | keeps: one priority entry per task equal to its rejections, an angry list without duplicates naming exactly the tasks of that status, which are those at the threshold, no rejections for running and finished tasks |
| `TaskManager.FailureKeeps` | cluster_manager/task_scheduler/task_manager.cpp:107-121 | a rejection keeps that too |
| `TaskManager.PrioritisedPermutes` | cluster_manager/task_scheduler/task_manager.cpp:50-53 | sorting the priorities keeps one entry per task |
| `PriorityTaskScheduler.PriorityTaskScheduler.ExtractInstances` | cluster_manager/task_scheduler/priority_task_scheduler.cpp:27-149 | a round considers the angry tasks in order and then the ready ones, most rejected first. Each gets none exactly when the threads the tasks before it have left are too few, on the processes it prefers (written out) that no angry task before it has locked; otherwise as many as required, from there. What it does to each task follows from that, the free threads are those nobody took, visits are counted, angry tasks keep their order, and tasks with threads are exactly those that run |
| `PriorityTaskScheduler.PriorityTaskScheduler.FinishThread` | cluster_manager/task_scheduler/priority_task_scheduler.cpp:19-25 | threads stay conserved and the tasks with threads are those that run |
| `PriorityTaskScheduler.PriorityTaskScheduler.Consider` | cluster_manager/task_scheduler/priority_task_scheduler.cpp:61-106 | a task gets none exactly when the free threads on its preferred, unlocked processes are too few (for a local task: on each of them alone), and otherwise as many as required from there |
| `PriorityTaskScheduler.PriorityTaskScheduler.AngryProcesses` | cluster_manager/task_scheduler/priority_task_scheduler.cpp:48-59 | an angry task that may use any process prefers all, another the least visited |
| `PriorityTaskScheduler.PriorityTaskScheduler.Preferred` | cluster_manager/task_scheduler/priority_task_scheduler.cpp:122 | a ready task prefers exactly the processes it visited least |
| `PriorityTaskScheduler.LockedIs` | cluster_manager/task_scheduler/priority_task_scheduler.cpp:101-106 | the locked processes are exactly those preferred by an angry task that found no threads |
| `PriorityTaskScheduler.LockHolds` | cluster_manager/task_scheduler/priority_task_scheduler.cpp:57-106 | a task considered after an angry one that found no threads gets none on a process that one prefers |
| `PriorityTaskScheduler.CommitLinks` | cluster_manager/task_scheduler/priority_task_scheduler.cpp:82-111 | marking the successful angry tasks after the loop makes status and threads agree again |
| `AutoParallelism.AutoParallelismPolicy.GeneratePlan` | cluster_manager/task_scheduler/auto_parallelism_task_scheduler.hpp:139-151 | keeps the invariant and gives between 1 and 10 threads per process |
| `AutoParallelism.AutoParallelismPolicy.PruneSearch` | cluster_manager/task_scheduler/auto_parallelism_task_scheduler.hpp:233-243 | the bounds are those of the neighbouring batch sizes |
| `AutoParallelism.AutoParallelismPolicy.FinishSubepoch` | cluster_manager/task_scheduler/auto_parallelism_task_scheduler.hpp:112-124 | a sub-epoch adds its iterations; the stage is over exactly when they are all of them |
| `AutoParallelism.NarrowFits` | cluster_manager/task_scheduler/auto_parallelism_task_scheduler.hpp:234-243 | the search space left by the history is never empty, so the assertion min <= max holds |
| `AutoParallelism.InsertKeeps` | cluster_manager/task_scheduler/auto_parallelism_task_scheduler.hpp:162-165 | a result of the search keeps the history monotone with values in 1..10 |
| `AutoParallelism.LookupInsert` | cluster_manager/task_scheduler/auto_parallelism_task_scheduler.hpp:162-165 | a result is remembered for its batch size, if none was before, and changes no other |
| `AutoParallelism.PruneIs` | cluster_manager/task_scheduler/auto_parallelism_task_scheduler.hpp:233-243 | the bounds are the values of the next smaller and the next larger batch size |
| `AutoParallelism.SearchSettles` | cluster_manager/task_scheduler/auto_parallelism_task_scheduler.hpp:252-262 | while the times do not go up each sub-epoch uses one thread more, up to the bound; the first time they do, the number used just before is fixed, stays, and is what the history has for the batch size from then on |
| `AutoParallelism.KnownSettles` | cluster_manager/task_scheduler/auto_parallelism_task_scheduler.hpp:223-246 | a stage whose batch size the history knows uses what it has for it at once, and one whose neighbouring batch sizes agree uses theirs |
| `AutoParallelism.HistoryStaysMonotone` | cluster_manager/task_scheduler/auto_parallelism_task_scheduler.hpp:96-173 | after any stages with any batch sizes and times the history is monotone |
| `AutoParallelism.StageExact` | cluster_manager/task_scheduler/auto_parallelism_task_scheduler.cpp:35-57 | a stage of a positive multiple of 10 iterations runs exactly those, in at most a tenth as many sub-epochs, none of them empty |
| `AutoParallelism.AlwaysEndsIff` | cluster_manager/task_scheduler/auto_parallelism_task_scheduler.hpp:112-124 | a stage ends whatever the times are exactly when its total is a positive multiple of 10 or the parallelism is settled beforehand; otherwise equal times never end it |
| `LocalControllers.BspConsistencyController.BeginPush` | ml/consistency/bsp_consistency_controller.hpp:12-18 | when a push of a round is let through, all pulls of that round have ended and none of the next has begun |
| `LocalControllers.BspConsistencyController.BeginPull` | ml/consistency/bsp_consistency_controller.hpp:31-37 | when a pull is let through, all pushes of the rounds before have ended and none of its round has begun |
| `LocalControllers.BspConsistencyController.AfterPush` | ml/consistency/bsp_consistency_controller.hpp:19-30 | the phase changes exactly with the last push of the round |
| `LocalControllers.BspConsistencyController.AfterPull` | ml/consistency/bsp_consistency_controller.hpp:38-48 | the phase changes exactly with the last pull of the round |
| `LocalControllers.SomeoneMoves` | ml/consistency/bsp_consistency_controller.hpp:12-48 | some worker is always inside a call or let through |
| `LocalControllers.SspConsistencyController.AfterPush` | ml/consistency/ssp_consistency_controller.hpp:21-39 | the clock counts, the slowest clock and the bound on the lead are kept |
| `LocalControllers.Advance` | ml/consistency/ssp_consistency_controller.hpp:27-37 | the slowest clock moves by one exactly when the last worker at it pushes |
| `LocalControllers.SspConsistencyController.Drift` | ml/consistency/ssp_consistency_controller.hpp:52-60 | two workers' push counts never differ by more than the staleness and one |
| `LocalControllers.SspConsistencyController.LetThroughIff` | ml/consistency/ssp_consistency_controller.hpp:52-60 | a worker is let through exactly when it is at most one push ahead of every worker |
| `LocalControllers.SspConsistencyController.SlowestMoves` | ml/consistency/ssp_consistency_controller.hpp:52-60 | the slowest worker is always let through |
| `HdfsAssigner.HDFSBlockAssigner.Answer` | io/hdfs_assigner_ml.hpp:68-159 | an answer is a block not given since the directory was browsed, local to the host if it has any left; nothing is answered only when the host has none left and, loading globally, no block remains; the directory is dropped exactly at the refusal that makes them as many as the workers; other directories are untouched |
| `HdfsAssigner.HDFSBlockAssigner.Reject` | io/hdfs_assigner_ml.hpp:116-123 | a refusal is counted, and the directory dropped exactly when the count reaches the number of workers |
| `HdfsAssigner.HDFSBlockAssigner.Remove` | io/hdfs_assigner_ml.hpp:146-156 | a given block loses all its replicas and no other block any |
| `HdfsAssigner.RemovedRemains` | io/hdfs_assigner_ml.hpp:149-156 | after a removal what is left is every replica of the blocks not given |
| `HdfsAssigner.NothingLeft` | io/hdfs_assigner_ml.hpp:110-130 | when nothing is left every block of the directory has been given |
| `HdfsAssigner.ReplicasKept` | io/hdfs_assigner_ml.hpp:149-156 | a block that is left keeps all its replicas |

## Left out

- Sockets, mailboxes, byte streams and pointer passing: a message is a value, and a zero-copy request is the same message.
- The numbers that encode a request's kind: they are flags and constructors here. The variant of a chunked pull that also returns the minimum clock is not modelled; its replies are gathered as those of a chunked pull.
- Overflow of 32-bit counters and clocks, and floating-point rounding.
- Stores kept in a hash table instead of a vector: the refinement is proved for vector stores.
- Custom key ranges, which the range manager accepts without checking that they cover the key space.
- Several values per key: slicing is modelled with any number of values per key, the handlers with one, as they are written.
- KvHandles.UpdateKeyed: is stated for range begins below 2^31, because `KvHandles.IndexExact` shows that the original's index is wrong for nearly all others.
- DocSampler.DocSampler.Sample: says where the dart lands, nothing about distributions.
- HdfsAssigner.HDFSBlockAssigner.Answer: does not say which of the hosts with blocks left is chosen when the asking host has none, because the original calls that choice a default.
- LazySvrg.SgdUpdate: prints of the test error are left out; they change nothing.
- ThreadSelection.SelectSpread: tasks that configure their numbers of workers by strings are left out beyond the pool operations they call; locks do not bind them in the original either.
- Progress of the sequential and priority schedulers and of local tasks: the preferred processes can be too small for a task, so nothing unconditional holds.
- The traversing allocator and the policy that tries five sizes, which the original does not use by default.
- TaskManager.TaskManager.OrderByPriority: entries of equal priority come in the order of one particular sort; the original's sort leaves it open, and nothing proved depends on it.
- The queue and thread bookkeeping of the sequential and auto-parallelism schedulers, which repeat the greedy scheduler's; the policy is modelled with the order in which it is driven.
- Liveness under fair scheduling of threads and messages: freedom from deadlock is proved, not that a given thread is ever scheduled.
- The event loops around the schedulers, workers and engines, the datastores, readers and parsers, serialisation, logging and the programs in examples, exp and bench.
