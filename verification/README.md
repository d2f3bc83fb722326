# Two systems, verified: a MapReduce job runner and an inference engine

This project models the repository's two programs and proves what they are for.

**MapReduce** (`mapreduce/`, Go). A coordinator hands map and reduce tasks to workers, reclaims those of lost or
slow workers, duplicates stragglers, and takes reports that may be late, repeated or lost. Workers share a
directory. The central result is that *every* schedule of such a job leaves the same output files: those a
reference reduction of the input would give (`JobSystem.FinishedJobIsRight`, `JobSystem.FinishedJobAnswers`), and that
a job which has not been aborted can always still be finished (`JobProgress.JobCanFinish`).

- `Text`, `Records`, `StableSort`, `Heap`, `Merge`: the record format and its round trip, the binary heap, and the
  k-way merge, which delivers exactly the stable sort of its sources.
- `Pipeline`, `JobFiles`: the contents of every intermediate and output file as functions of the input, and the
  reference answer they amount to.
- `Storage`, `Mapper`, `Reducer`, `InputSplits`: the file system as a map from paths to texts, the two kinds of task as
  code that updates buffers and files, proved against those functions, and the dealing of input files.
- `CoordinatorSpec`, `CoordinatorRules`, `CoordinatorInvariants`, `Coordinator`, `Counters`: the task table as a
  value, the functions each call applies to it, what these amount to, the invariants of every run, and the coordinator
  object that refines it.
- `JobSystem`, `JobProgress`: coordinator, attempts and files together, interleaved one file operation at a time, and
  how such a job can always be brought to its end.

**Inference engine** (`inference-engine/engine/`, C++). A model is a graph of operators over named tensors. The
engine rewrites the graph when it is loaded, orders it, and runs it one node at a time or level by level. The
central result is that opening a model, optimizing it and running it succeeds and gives the value the model as loaded
has, whenever it has one and its operators are supported (`Sessions.Infer`).

- `Programs`: tensors, nodes, and the values a graph's names take; a graph that can be ordered has at most one
  solution and running the order finds it.
- `Rewrites`, `Passes`, `Optimizer`: the three rewrites, the passes that apply them, and the code that performs
  them on a graph in place.
- `Folding`, `Fixpoints`, `Cycles`: which nodes the passes leave, when a second run of the passes would change anything, and what the passes do to cyclic
  models.
- `Edges`, `Paths`, `Graph`: edges kept up to date as nodes come and go, the topological sort, the levels.
- `Schedules`, `Session`: interleavings inside a level, stale buffers, and the session object.
- `GemmSpec`, `Gemm`, `Products`, `CpuProvider`, `CpuNodes`: the matrix-multiply kernels, the order in which each
  adds its products, what the product is position by position, and what each operator of the CPU backend computes.
- `Sharding`, `ThreadPool`, `Allocator`, `ModelFormat`, `FormatLaws`, `ModelLoader`: the splitting of row ranges, the
  pool's protocol, the pooled allocator, and the binary model format, byte by byte.

## Reading the model

- Times are integers and every coordinator step is given the current time. The straggler threshold is a fraction.
- Worker names are the numbers the coordinator formats into them. Tasks are values in a sequence.
- Map, Reduce, Combine and the partition hash are functions of the job; the only thing asked of the hash is that it
  stays below the number of reducers. The laws asked of Reduce and Combine are `JobFiles.OrderFree` and
  `JobFiles.CombinerAgrees`.
- A text is a sequence of Unicode scalars, whose order is also the byte order of its UTF-8 form.
- The library sort of the mapper's buffer is modelled by `Pipeline.SortRecords`. It need not be stable: only one
  arrangement of the records is sorted by key and value (`Pipeline.SortedOnce`).
- A failed file operation, a crash and a stall are all covered: an attempt of `JobSystem` may break or stop at any
  point, and reports are delivered at any later time, any number of times.
- Attempts at one task share their spill files, as in the code. No attempt is given files of its own.
- Graphs are assumed well formed, which the engine relies on without checking it: node names do not repeat, every
  node has one output, outputs differ from one another, from initializers and from graph inputs, graph inputs are
  not initializers, and no node reads its own output (`Programs.WellFormed`). They are not assumed acyclic: the
  optimizer runs before anything looks for cycles, and so does its model. It can turn a well-formed cyclic model into
  one with a node that reads its own output (`Programs.Formed`).
- A node keeps its operator as text; the operator is what the text names, which is how the two fields of a node are
  always related.
- Floats are four opaque bytes and arithmetic is a parameter. The kernels are compared under the law
  `x + 0 * b = x`, and the unrolled dot product under exact addition.
- Numbers in a model file are written as the machine holds them, which is taken to be least significant byte first.
- A computation that throws has no value.

## Where the code and its comments differ

- `ReportTask` never looks at the attempt number. A superseded success is accepted while the task is not done, and a
  superseded failure sends a running task back to idle. `CoordinatorSpec.ReportTask` does the same.
- The combiner is not run again when spills are merged, so the same key may keep several combined values.
- The two laws above do not make the combiner invisible: a combiner that returns nothing for a key makes the key
  vanish. `JobFiles.CombinerCanDropKey` gives a job, and `JobFiles.ResultsAreAnswer` says exactly when results agree.
- The header of the optimizer says that its passes run to a fixpoint together. Each runs to its own, once.
  `Fixpoints.OneRunIsNotEnough` gives a model on which a second run changes something, and
  `Fixpoints.SecondRunChanges` says exactly when one does.
- A cycle of a Gemm and the Relu fused into it is gone from the graph's edges once it is fused, because the graph
  records no edge from a node to itself. `Cycles.OptimizedAcyclic` says exactly which cyclic models pass for acyclic
  once optimized, and `Sessions.HiddenCycleOpens` gives one that loads and cannot run.
- The `minChunk` argument of `parallelFor` bounds the number of shards (`Sharding.MinChunkBoundsShards`), not their
  length (`Sharding.MinChunkIsNoLowerBound`). `Sharding.MinChunkIsKept` says exactly when no shard is shorter.
- A tensor of rank zero is written without data and read with one element, so a model with such a tensor cannot be
  loaded again: `ModelLoader.LoadSaved` says exactly which models come back.

## Model

| member | source | states |
|---|---|---|
| Records.EscapeText | mapreduce/pkg/record/record.go:30-51 | the escaping loop computes the escaping function |
| Records.UnescapeText | mapreduce/pkg/record/record.go:53-82 | the unescaping loop computes the unescaping function, failing on the same malformed inputs |
| Records.UnescapeEscape | mapreduce/pkg/record/record.go:30-82 | unescaping an escaped text gives the text back, for every text |
| Records.EscapeHidesSeparators | mapreduce/pkg/record/record.go:30-51 | an escaped text holds no tab, newline or carriage return, so records cannot run together |
| Records.EscapedAs | mapreduce/pkg/record/record.go:30-51 | what each of the four special characters is written as; any other stands for itself |
| Records.StandsFor | mapreduce/pkg/record/record.go:53-82 | what each letter after a backslash stands for; any other letter, or none, is an error |
| Records.UnescapeAppend | mapreduce/pkg/record/record.go:53-82 | text after an unescaped part is unescaped for itself |
| Records.LineFields | mapreduce/pkg/record/record.go:117-138 | the first tab of a line parts its key from its value; without one the line is an error |
| Records.ReadLine | mapreduce/pkg/record/record.go:117-138 | a line ends with a line feed, with a carriage return before it or not; an empty one is passed over |
| Records.SampleLine | mapreduce/pkg/record/record.go:92-103 | the bytes of one written record |
| Records.DecodeEncode | mapreduce/pkg/record/record.go:92-138 | reading a written stream gives the same records, for every list of records |
| Records.Writer.Write | mapreduce/pkg/record/record.go:92-103 | the stream grows by the encoding of the record |
| Records.Reader.Next | mapreduce/pkg/record/record.go:117-138 | one record, the end, or an error for a malformed line, and what is left of the stream |
| Text.LessIsPrecedes | mapreduce/pkg/merge/merge.go:33-38 | the order of all keys is dictionary order: at the first place where two texts differ the lesser one ends or has the smaller character |
| Heaps.PopTakesLeast | mapreduce/pkg/merge/merge.go:27-50 | popping removes the root, which no item is below, and leaves a heap of the rest |
| Heaps.MinHeap.Push | mapreduce/pkg/merge/merge.go:41-41 | the item is added and the heap order holds again |
| Heaps.MinHeap.Pop | mapreduce/pkg/merge/merge.go:43-49 | a least item is taken out and the others stay |
| Heaps.MinHeap.Init | mapreduce/pkg/merge/merge.go:62-76 | any sequence is rearranged into a heap |
| Merge.Merger.Prime | mapreduce/pkg/merge/merge.go:62-76 | one entry per source that has a record enters the heap; an unreadable source is an error |
| Merge.Merger.Next | mapreduce/pkg/merge/merge.go:78-103 | delivers the first record, by key and source, of what the sources still hold; an unreadable source ends the merge |
| Merge.LeastHeadIsNext | mapreduce/pkg/merge/merge.go:33-38 | with one entry per source in the heap, its least is the next record of the merged stream |
| Merge.MergeSorted | mapreduce/pkg/merge/merge.go:58-103 | draining sorted sources gives exactly the stable sort by key of their concatenation: the keys rise in dictionary order and each key keeps its values in order |
| StableSorting.DrainIsStableSort | mapreduce/pkg/merge/merge.go:33-103 | repeatedly taking the least head by key and source sorts stably: nothing is lost or doubled, equal keys keep source order |
| StableSorting.StableSortRises | mapreduce/pkg/merge/merge.go:33-103 | a stable sort has its keys in dictionary order and the same values for each key, in the same order |
| Pipeline.SortedOnce | mapreduce/pkg/mapper/mapper.go:142-149 | two sorted arrangements of the same records are equal, so the unstable library sort is a function of the buffer |
| Pipeline.SortRecordsRises | mapreduce/pkg/mapper/mapper.go:142-149 | a sorted buffer holds the same records by key and, within a key, by value, in dictionary order |
| Pipeline.PartValues | mapreduce/pkg/mapper/mapper.go:151-158 | a partition holds all the values of its own keys, in order, and none of the others' |
| Pipeline.GroupedValues | mapreduce/pkg/mapper/mapper.go:160-188 | over a sorted stream a per-key function is applied once to each key, to all of its values |
| Pipeline.GroupsStrict | mapreduce/pkg/reducer/reducer.go:76-124 | grouping a sorted stream meets each key once, in strictly increasing order |
| JobFiles.FillKeepsAll | mapreduce/pkg/mapper/mapper.go:128-138 | every emitted record is in exactly one spilled run or in the buffer, in the order it was emitted |
| JobFiles.FillSpills | mapreduce/pkg/mapper/mapper.go:124-138 | the lines that first bring the buffer to the limit are spilled together, and filling starts over after them |
| JobFiles.FillBelow | mapreduce/pkg/mapper/mapper.go:124-138 | while no line brings the buffer to the limit nothing is spilled |
| JobFiles.RecordBytesAre | mapreduce/pkg/mapper/mapper.go:79-83 | a record counts towards the limit as the bytes of its key, a tab, its value and a line feed |
| JobFiles.MapFileValues | mapreduce/pkg/mapper/mapper.go:202-275 | a final map file is sorted and holds for each of its keys what the runs contribute, spilled or not |
| JobFiles.OutputResults | mapreduce/pkg/reducer/reducer.go:49-126 | an output file holds each of its keys' results, reduced once from everything contributed, and no other key |
| JobFiles.FilesRise | mapreduce/pkg/reducer/reducer.go:49-126 | map files and output files hold their keys in dictionary order, and keys are reduced in that order, each once |
| JobFiles.ResultsAreAnswer | mapreduce/pkg/mapper/mapper.go:119-275 | for every spill limit and number of mappers and reducers a key's results are the reference answer if and only if the combiner does not make the key vanish while Reduce makes something of nothing |
| JobFiles.SameResults | mapreduce/pkg/mapper/mapper.go:160-188 | two ways of running a job, with or without its combiner, give every key the same results |
| JobFiles.CombinerCanDropKey | mapreduce/pkg/mapper/mapper.go:168-175 | a job obeying the laws whose combiner loses a key the reference reports |
| Storage.SplitFiles | mapreduce/pkg/storage/storage.go:99-111 | deals the files out in turn to the wanted number of tasks, clamped to the number of files |
| Storage.DealKeepsAll | mapreduce/pkg/storage/storage.go:99-111 | every input file goes to exactly one map task |
| Storage.DealTakesTurns | mapreduce/pkg/storage/storage.go:99-111 | file `k` is the one in place `k / n` of task `k % n` |
| Storage.DealIsFair | mapreduce/pkg/storage/storage.go:99-111 | the tasks' shares differ by at most one file, the earlier tasks having more |
| InputSplits.SplitsHoldTheInput | mapreduce/pkg/storage/storage.go:99-111 | for any number of tasks asked for, the tasks together read the lines of the input files |
| InputSplits.SameResultsForAnySplit | mapreduce/pkg/storage/storage.go:99-111 | two ways of running a job on the same files, for any numbers of tasks asked for, give every key the same results |
| Storage.PartsWritten | mapreduce/pkg/storage/storage.go:113-137 | writing the files of a stage changes those paths and no other |
| Mapper.LineIsTaken | mapreduce/pkg/mapper/mapper.go:126-139 | an input line ends with a line feed, with a carriage return before it or not |
| Mapper.LastLineIsTaken | mapreduce/pkg/mapper/mapper.go:126-139 | the last line may end with the file |
| Mapper.Runner.PartitionBuffer | mapreduce/pkg/mapper/mapper.go:151-158 | the buffer is split by partition, keeping its order |
| Mapper.Runner.ApplyCombiner | mapreduce/pkg/mapper/mapper.go:160-188 | each run of equal keys is combined once |
| Mapper.Runner.Spill | mapreduce/pkg/mapper/mapper.go:202-225 | the buffer becomes the next run's files and is emptied |
| Mapper.Runner.ConsumeLine | mapreduce/pkg/mapper/mapper.go:124-138 | the emitted records join the buffer, which is spilled when it reaches the limit |
| Mapper.Runner.MergeSpills | mapreduce/pkg/mapper/mapper.go:240-275 | the final files are the stable merges of the runs, and no spill is left |
| Mapper.Run | mapreduce/pkg/mapper/mapper.go:59-117 | succeeds exactly when every input exists, and then leaves exactly the reference final files and no spills, whatever spills an earlier attempt left |
| Reducer.ReduceGroups | mapreduce/pkg/reducer/reducer.go:76-124 | the grouping loop reduces each run of equal keys once |
| Reducer.Run | mapreduce/pkg/reducer/reducer.go:49-126 | writes the reduction of the merged map files of its partition, a missing one counting as empty; writes nothing when a file cannot be read |
| Reducer.RunWritesOutput | mapreduce/pkg/reducer/reducer.go:49-126 | given the reference map files, what it writes is the reference output |
| Counters.Tally.Inc | mapreduce/pkg/counters/counters.go:29-36 | one counter grows by the given amount |
| Counters.Tally.Merge | mapreduce/pkg/counters/counters.go:54-66 | every counter grows by the other set's, in whatever order they are visited |
| Counters.Tally.Snapshot | mapreduce/pkg/counters/counters.go:44-52 | a copy of the counters |
| Counters.Tally.Reset | mapreduce/pkg/counters/counters.go:68-72 | no counter is left |
| Coordinator.JobCoordinator.constructor | mapreduce/pkg/coordinator/coordinator.go:98-127 | a fresh table of idle tasks |
| Coordinator.JobCoordinator.Register | mapreduce/pkg/coordinator/coordinator.go:208-225 | a new worker with the next number |
| Coordinator.JobCoordinator.Heartbeat | mapreduce/pkg/coordinator/coordinator.go:227-238 | the worker was heard from, if it is known |
| Coordinator.JobCoordinator.RequestTask | mapreduce/pkg/coordinator/coordinator.go:240-293 | refines the request step, reclaiming, picking and assigning in place |
| Coordinator.JobCoordinator.ReportTask | mapreduce/pkg/coordinator/coordinator.go:295-342 | refines the report step |
| Coordinator.JobCoordinator.LongestStragglerLocked | mapreduce/pkg/coordinator/coordinator.go:417-431 | the first of the longest-running tasks over the limit that the worker is not already on |
| Coordinator.JobCoordinator.PickLocked | mapreduce/pkg/coordinator/coordinator.go:398-439 | the first idle task, else the straggler to back up, else nothing |
| Coordinator.JobCoordinator.AssignLocked | mapreduce/pkg/coordinator/coordinator.go:451-465 | a new attempt, numbered one higher |
| Coordinator.JobCoordinator.ReclaimLocked | mapreduce/pkg/coordinator/coordinator.go:467-510 | silent workers are presumed lost and tasks without a live or timely attempt become idle, whatever order the maps are visited in |
| CoordinatorRules.RegisterExactly | mapreduce/pkg/coordinator/coordinator.go:208-225 | the new worker is live, has the next number, and nothing else changes |
| CoordinatorRules.TouchExactly | mapreduce/pkg/coordinator/coordinator.go:227-238 | a call by a registered worker is a sign of life of that worker and of no other |
| CoordinatorRules.ReclaimExactly | mapreduce/pkg/coordinator/coordinator.go:478-498 | a running task stays running if and only if a worker heard from within the timeout is at it and it started recently enough; it then keeps its start, its backup mark and the attempts of all such workers, and otherwise becomes idle with no attempts and no backup |
| CoordinatorRules.ReclaimCounts | mapreduce/pkg/coordinator/coordinator.go:467-510 | reassignments grow by the number of running tasks nobody is working on, lost workers by the number of live workers not heard from, and nothing else changes |
| CoordinatorRules.MedianCounts | mapreduce/pkg/coordinator/coordinator.go:441-449 | no more than half of the durations are below the median and more than half are not above it |
| CoordinatorRules.MedianUnique | mapreduce/pkg/coordinator/coordinator.go:441-449 | there is only one such duration |
| CoordinatorRules.OverLimit | mapreduce/pkg/coordinator/coordinator.go:410-431 | running longer than the limit is running longer than the fraction of the median |
| CoordinatorRules.TryAssignExactly | mapreduce/pkg/coordinator/coordinator.go:398-465 | the first idle task goes out; with none idle, the task without a backup that has run longest beyond the fraction of the median; with none such, nothing; nobody else's attempts change |
| CoordinatorRules.RequestExactly | mapreduce/pkg/coordinator/coordinator.go:240-293 | a map task while one can be handed out, a reduce task only once all maps are done, the word to wait while something is unfinished, the word to exit otherwise, and the state after each |
| CoordinatorRules.ReportExactly | mapreduce/pkg/coordinator/coordinator.go:295-342 | a report changes the one task it is for, and only while that is not done: a failure makes it idle, drops the reporter and counts, a success finishes it and adds its duration and its counters |
| CoordinatorRules.AbortsExactly | mapreduce/pkg/coordinator/coordinator.go:316-327 | a report aborts an open job if and only if it is a failure of an unfinished task, attempts are limited, and the task has by then failed that often |
| CoordinatorRules.EndsExactly | mapreduce/pkg/coordinator/coordinator.go:316-342 | a report ends a job if and only if it aborts it or finishes its last task, and a job that has ended stays as it is |
| CoordinatorInvariants.RequestSound | mapreduce/pkg/coordinator/coordinator.go:240-293 | answering a request keeps every invariant: phases, budgets, the log of accepted reports, durations and counters |
| CoordinatorInvariants.ReportSound | mapreduce/pkg/coordinator/coordinator.go:295-342 | taking a report keeps every invariant and extends the log exactly when it is accepted |
| CoordinatorInvariants.ReclaimSound | mapreduce/pkg/coordinator/coordinator.go:467-510 | reclaiming keeps every invariant |
| CoordinatorInvariants.AttemptBounds | mapreduce/pkg/coordinator/coordinator.go:316-327 | attempts <= tasks + failures + reassignments + backups; backups <= tasks + reassignments; while not aborted attempts <= tasks * (limit + 1) + 2 * reassignments |
| CoordinatorInvariants.WaitIsHonest | mapreduce/pkg/coordinator/coordinator.go:257-283 | a worker is told to wait only while a task of the current phase has a timely attempt by a worker heard from within the timeout |
| CoordinatorInvariants.ExitIsFinal | mapreduce/pkg/coordinator/coordinator.go:249-293 | a worker is told to exit only when the job is aborted or every task is done |
| CoordinatorInvariants.AssignmentIsDue | mapreduce/pkg/coordinator/coordinator.go:259-279 | only unfinished tasks are handed out, as a new attempt, and reduce tasks only once every map task is done |
| CoordinatorInvariants.BackupsMeetTheMedian | mapreduce/pkg/coordinator/coordinator.go:410-449 | a backup goes out only for a task running longer than the threshold times the median of the accepted results of its own phase |
| CoordinatorInvariants.SortedAscending | mapreduce/pkg/coordinator/coordinator.go:441-449 | the durations the median is taken from are all of them, in order |
| JobSystem.ReachableInv | mapreduce/pkg/coordinator/coordinator.go:208-342 | every state of every run of coordinator, attempts and files keeps the whole invariant |
| JobSystem.MapStepRight | mapreduce/pkg/mapper/mapper.go:202-275 | every file a map attempt writes has its reference content, whatever other attempts at the same task do to the shared spills |
| JobSystem.ReduceStepRight | mapreduce/pkg/reducer/reducer.go:57-126 | a reduce attempt gathers every map file and writes the reference output |
| JobSystem.MapFilesComplete | mapreduce/pkg/coordinator/coordinator.go:257-341 | a done map task's files are all present with their reference content, and stay so for ever |
| JobSystem.NoMissingFile | mapreduce/pkg/reducer/reducer.go:57-72 | the branch that skips a missing map file is never taken |
| JobSystem.FinishedJobIsRight | mapreduce/pkg/coordinator/coordinator.go:295-342 | once the phase is "done" it stays so and every output file is the reference reduction of its partition |
| JobSystem.FinishedOutputRises | mapreduce/pkg/reducer/reducer.go:74-126 | every output file of a finished job reads as records whose keys are in dictionary order |
| JobSystem.FinishedJobAnswers | mapreduce/pkg/coordinator/coordinator.go:295-342 | a finished job gives every key the reference answer under the exact condition on the combiner |
| JobSystem.OutcomeIsFinal | mapreduce/pkg/coordinator/coordinator.go:521-537 | "done" if and only if all tasks are done and the job was not aborted; the outcome never changes and done tasks stay done |
| JobSystem.ReduceWaitsForMaps | mapreduce/pkg/coordinator/coordinator.go:264-279 | no reduce attempt exists while a map task is unfinished |
| JobSystem.CountersAreAccepted | mapreduce/pkg/coordinator/coordinator.go:331-335 | the job counters are the sums over the accepted reports, one for each done task and none besides |
| JobSystem.RunBounds | mapreduce/pkg/coordinator/coordinator.go:398-509 | the bounds on attempts and backups in every reachable state |
| JobProgress.AbortIsEarned | mapreduce/pkg/coordinator/coordinator.go:316-327 | in every reachable state an aborted job has a limit on attempts and a task that has failed that often |
| JobProgress.MapTaskAlone | mapreduce/pkg/mapper/mapper.go:59-117 | an attempt that nobody interferes with finishes and leaves the final files that `Mapper.Run` leaves |
| JobProgress.JobCanFinish | mapreduce/pkg/coordinator/coordinator.go:208-342 | from every reachable state of a job that was not aborted some continuation reaches the phase "done" |
| Programs.ExecuteSolves | inference-engine/engine/src/runtime/inference_session.cpp:109-166 | running a topological order gives values that satisfy every node's equation |
| Programs.SolutionIsExecution | inference-engine/engine/src/runtime/inference_session.cpp:109-166 | a graph that can be ordered has at most one solution, and running the order finds it exactly when there is one |
| Rewrites.FoldRefines | inference-engine/engine/src/graph/graph_optimizer.cpp:72-112 | replacing a constant node by its value keeps well-formedness, acyclicity and every value |
| Rewrites.FuseRefines | inference-engine/engine/src/graph/graph_optimizer.cpp:30-70 | fusing a Relu into its producer keeps well-formedness, acyclicity and every other value |
| Rewrites.DropRefines | inference-engine/engine/src/graph/graph_optimizer.cpp:114-147 | removing a node nothing reads keeps well-formedness, acyclicity and every other value |
| Passes.FoldAllRefines | inference-engine/engine/src/graph/graph_optimizer.cpp:72-112 | folding refines the model and leaves no constant node |
| Passes.FoldAllSucceeds | inference-engine/engine/src/graph/graph_optimizer.cpp:72-112 | folding fails only for a model that has no value on any input |
| Folding.FoldAllKeepsVarying | inference-engine/engine/src/graph/graph_optimizer.cpp:72-112 | folding leaves exactly the nodes that depend, through any chain of nodes, on a graph input, an unsupported operator or a node without inputs |
| Passes.FuseAllRefines | inference-engine/engine/src/graph/graph_optimizer.cpp:30-70 | fusing refines the model and leaves no fusible pair |
| Folding.FusionIsComplete | inference-engine/engine/src/graph/graph_optimizer.cpp:30-70 | after fusing, no "Gemm" is left whose result is no graph output and has one reader, a "Relu" |
| Passes.DropAllKeepsLive | inference-engine/engine/src/graph/graph_optimizer.cpp:114-147 | the surviving nodes are exactly those some graph output depends on, whatever the insertion order |
| Passes.OptimizeRefines | inference-engine/engine/src/graph/graph_optimizer.cpp:149-165 | the optimized model is well formed, acyclic, and evaluates every graph output to the same value, for all options |
| Folding.EachOption | inference-engine/engine/src/graph/graph_optimizer.cpp:149-165 | each option turns its pass on, without it the pass does nothing, and with all three the passes run in order |
| Fixpoints.RunAgain | inference-engine/engine/src/graph/graph_optimizer.cpp:149-165 | a program without dead nodes is left alone by a run if and only if it has nothing to fold and nothing to fuse |
| Fixpoints.SecondRunChanges | inference-engine/engine/src/graph/graph_optimizer.cpp:149-165 | a second run changes something if and only if the folded and fused program holds a live constant node, or a live Relu whose Gemm is otherwise read only by nodes no graph output depends on |
| Fixpoints.OneRunFolds | inference-engine/engine/src/graph/graph_optimizer.cpp:72-112 | the first of the two cannot happen when the provider supports Gemm if it supports the fused operator |
| Fixpoints.OneRunIsNotEnough | inference-engine/engine/src/graph/graph_optimizer.cpp:3-5 | a model on which a second run changes something |
| Cycles.FuseUntangled | inference-engine/engine/src/graph/graph_optimizer.cpp:30-70 | fusing one pair keeps the order of all nodes but the pair, in both directions |
| Cycles.OptimizedAcyclic | inference-engine/engine/src/graph/graph_optimizer.cpp:149-165 | the optimized model is acyclic if and only if the model was, or, with fusing on, if its every cycle leads through a Relu and the Gemm it is fused into |
| Cycles.AcyclicIsUntangled | inference-engine/engine/src/graph/graph.cpp:30-70 | such a model is acyclic if and only if no Gemm reads the output of the Relu it is fused with |
| Cycles.FusingHidesCycle | inference-engine/engine/src/graph/graph_optimizer.cpp:30-70 | a well-formed model with a cycle of two nodes that becomes one node reading its own output |
| Optimizer.FoldConstants | inference-engine/engine/src/graph/graph_optimizer.cpp:72-112 | the in-place pass computes the folded model, counts the folded nodes, and fails exactly when a computation does |
| Optimizer.FindFusible | inference-engine/engine/src/graph/graph_optimizer.cpp:38-60 | the checks on parent and child lists find exactly the first fusible pair |
| Optimizer.FuseActivations | inference-engine/engine/src/graph/graph_optimizer.cpp:30-70 | the in-place pass computes the fused model and counts the fused nodes, on cyclic models too |
| Optimizer.EliminateDeadNodes | inference-engine/engine/src/graph/graph_optimizer.cpp:114-147 | the in-place pass computes the pruned model and counts the eliminated nodes |
| Optimizer.Run | inference-engine/engine/src/graph/graph_optimizer.cpp:149-165 | fold, fuse, eliminate, once each, on cyclic models too; the report holds the nodes before and after and what each pass removed |
| Edges.LinkPairRight | inference-engine/engine/src/graph/graph.cpp:30-69 | recording one pair's edges completes that pair, with one entry per matching tensor at both ends, and no other |
| Edges.EdgesAreRebuilt | inference-engine/engine/src/graph/graph.cpp:14-69 | incrementally kept edges equal rebuilt ones as multisets |
| Edges.LinksCount | inference-engine/engine/src/graph/graph.cpp:30-49 | there is an edge for every output of a node that another reads, each time it is read, and none from a node to itself |
| Graphs.Graph.AddNode | inference-engine/engine/src/graph/graph.cpp:14-20 | the node is added last with all its edges, whatever order the table is visited in |
| Graphs.Graph.RemoveNode | inference-engine/engine/src/graph/graph.cpp:22-28 | the node is gone, the order of the others is kept, and every edge is right again |
| Graphs.Graph.RebuildEdges | inference-engine/engine/src/graph/graph.cpp:30-49 | every edge is recorded and no other |
| Graphs.Graph.UpdateEdges | inference-engine/engine/src/graph/graph.cpp:51-70 | the edges of one new node complete the table |
| Graphs.Graph.Visit | inference-engine/engine/src/graph/graph.cpp:130-144 | depth-first visit: every settled node comes after its children, or a cycle is found |
| Graphs.Graph.TopologicalSort | inference-engine/engine/src/graph/graph.cpp:146-160 | throws if and only if there is a cycle; otherwise a permutation with every producer before its consumers |
| Graphs.Graph.ExecutionLevels | inference-engine/engine/src/graph/graph.cpp:105-128 | the levels partition the nodes, none is empty, and each keeps topological order |
| Paths.OrderedHasNoCycle | inference-engine/engine/src/graph/graph.cpp:146-160 | a graph with a topological order has no cycle |
| Paths.LevelBoundsPaths | inference-engine/engine/src/graph/graph.cpp:105-121 | no path into a node is longer than its level |
| Paths.LevelHasPath | inference-engine/engine/src/graph/graph.cpp:105-121 | some path into a node is as long as its level |
| Schedules.LevelIsSequential | inference-engine/engine/src/runtime/inference_session.cpp:143-157 | every interleaving of the reads and partial writes of a level's tasks leaves the store of running them one by one |
| Schedules.StaleIndependent | inference-engine/engine/src/runtime/inference_session.cpp:109-126 | a run computes the same values whatever stale tensors the store held |
| Schedules.WavefrontEqualsSequential | inference-engine/engine/src/runtime/inference_session.cpp:143-162 | the wavefront run leaves the same store as the sequential run, for every schedule of every level |
| Schedules.LevelCanFinish | inference-engine/engine/src/runtime/inference_session.cpp:143-157 | when the sequential run of a level succeeds, every interleaving of its tasks, however begun, can be completed |
| Schedules.WavefrontCanFinish | inference-engine/engine/src/runtime/inference_session.cpp:143-157 | when the sequential run succeeds, a level-by-level run can be completed from any beginnings of its levels |
| Sessions.GraphSchedules | inference-engine/engine/src/graph/graph.cpp:105-160 | the graph's order runs every node after what it reads, and the nodes of a level are independent |
| Sessions.Prepare | inference-engine/engine/src/runtime/inference_session.cpp:47-107 | a session is prepared if and only if the model is loadable: inputs and outputs, no cycle, supported operators, one output each, known tensors |
| Sessions.Session.ExecuteNode | inference-engine/engine/src/runtime/inference_session.cpp:109-126 | the node's slot gets its operator's value on the stored inputs and no other slot changes |
| Sessions.Session.Run | inference-engine/engine/src/runtime/inference_session.cpp:128-166 | the result is what running the nodes in order on the store gives; for a well-formed model it depends only on the input and the initializers |
| Sessions.Session.RunParallel | inference-engine/engine/src/runtime/inference_session.cpp:143-157 | succeeds if and only if every single node of a level and every other level's schedule does; then it returns what the sequential run returns |
| Sessions.ParallelCanSucceed | inference-engine/engine/src/runtime/inference_session.cpp:143-157 | when the sequential run of a session succeeds so can the parallel one, however its levels begin |
| Sessions.SessionComputesModel | inference-engine/engine/src/runtime/inference_session.cpp:47-166 | a session for an optimized model computes the original model's first output |
| Sessions.ValuedIsLoadable | inference-engine/engine/src/runtime/inference_session.cpp:47-107 | an acyclic model with a value on its one input and supported operators can be optimized and loaded |
| Sessions.Open | inference-engine/engine/src/runtime/inference_session.cpp:47-107 | succeeds if and only if optimizing does and leaves a loadable model; the session is for that model |
| Sessions.Infer | inference-engine/engine/src/runtime/inference_session.cpp:47-166 | loading, optimizing and running succeeds, and gives the value of the model as loaded, whenever that is acyclic, has a value and its operators are supported |
| Sessions.HiddenCycleOpens | inference-engine/engine/src/runtime/inference_session.cpp:55-70 | a cyclic model that cannot be loaded as it is, can be loaded optimized, and then fails at its only node |
| Sessions.RunKeepsSizes | inference-engine/engine/src/runtime/inference_session.cpp:128-166 | no operator of a run meets a tensor whose data does not fill its shape |
| GemmSpec.SkippingIsNaive | inference-engine/engine/src/kernels/gemm.cpp:40-125 | adding only the products of non-zero multipliers in order gives the textbook sum under `x + 0 * b = x` |
| GemmSpec.UnrolledIsNaive | inference-engine/engine/src/kernels/gemm.cpp:55-74 | the four-way unrolled dot product equals the textbook sum in exact arithmetic |
| GemmSpec.RowProgress | inference-engine/engine/src/kernels/gemm.cpp:85-95 | adding a row of products takes exactly those elements one product further |
| Gemm.NaiveDot | inference-engine/engine/src/kernels/gemm.cpp:40-53 | the inner loop adds the products in order |
| Gemm.UnrolledDot | inference-engine/engine/src/kernels/gemm.cpp:55-74 | four partial sums, joined pairwise, then the rest |
| Gemm.AccumulateReordered | inference-engine/engine/src/kernels/gemm.cpp:76-96 | the rows of the shard hold their sums and no other row changes |
| Gemm.AccumulateTiled | inference-engine/engine/src/kernels/gemm.cpp:98-125 | every element of the shard has taken in all its products in order, and no other row changes |
| Gemm.PackedInside | inference-engine/engine/src/kernels/gemm.cpp:147-175 | every index used in packing lies inside the 64 by 64 buffer |
| Gemm.PackA | inference-engine/engine/src/kernels/gemm.cpp:159-164 | the packed block holds the block of op(A), whatever the buffer held |
| Gemm.PackB | inference-engine/engine/src/kernels/gemm.cpp:170-175 | the packed block holds the block of op(B), whatever the buffer held |
| Gemm.MicroKernel | inference-engine/engine/src/kernels/gemm.cpp:127-139 | a tile of the output takes in the products of two packed tiles, in order |
| Gemm.AccumulatePacked | inference-engine/engine/src/kernels/gemm.cpp:141-181 | as the tiled kernel |
| Gemm.Finalize | inference-engine/engine/src/kernels/gemm.cpp:183-199 | each element of the shard becomes alpha times itself plus beta times its bias, through the activation |
| Gemm.RunRows | inference-engine/engine/src/kernels/gemm.cpp:270-289 | a shard makes its own rows final and changes no other |
| Gemm.RunShards | inference-engine/engine/src/kernels/gemm.cpp:270-298 | shards that cover the rows, in any order, make every row final |
| Gemm.Compute | inference-engine/engine/src/kernels/gemm.cpp:253-299 | fails exactly on mismatched operands; the result does not depend on the output buffer, the workers or the caller, and every element has its final value |
| Gemm.StrategiesAgree | inference-engine/engine/src/kernels/gemm.cpp:40-181 | naive, reordered, tiled and packed agree element by element under `x + 0 * b = x` |
| Gemm.ExactStrategiesAgree | inference-engine/engine/src/kernels/gemm.cpp:40-181 | in exact arithmetic all strategies agree |
| Products.NaiveIsTextbook | inference-engine/engine/src/kernels/gemm.cpp:40-53 | the plain sum of an untransposed product adds `a[i * K + k] * b[k * M + j]` in order of `k` |
| Products.TransposedBProduct | inference-engine/engine/src/kernels/gemm.cpp:253-299 | asking for B transposed gives the product with the transpose of B, bit for bit where the additions have the same order, in exact arithmetic always |
| Products.TransposedAProduct | inference-engine/engine/src/kernels/gemm.cpp:253-299 | the same for A |
| Products.ProductEntry | inference-engine/engine/src/kernels/gemm.cpp:183-199 | every element is the textbook sum over the operands as plain matrices, times alpha, plus beta times its bias, through the activation |
| CpuProvider.ComputeFlatten | inference-engine/engine/src/providers/cpu_execution_provider.cpp:44-63 | the result does not depend on the output buffer; an axis out of range fails |
| CpuProvider.FlattenKeepsSize | inference-engine/engine/src/providers/cpu_execution_provider.cpp:44-63 | the flattened shape has room for exactly the elements |
| CpuProvider.ComputeRelu | inference-engine/engine/src/providers/cpu_execution_provider.cpp:65-74 | element-wise, whatever the output buffer held |
| CpuProvider.ComputeAdd | inference-engine/engine/src/providers/cpu_execution_provider.cpp:76-90 | element-wise on matching shapes, whatever the output buffer held; other shapes fail |
| CpuProvider.ComputeGemm | inference-engine/engine/src/providers/cpu_execution_provider.cpp:92-106 | the product of the operands under the node's attributes, for every number of workers |
| CpuProvider.ComputeNode | inference-engine/engine/src/providers/cpu_execution_provider.cpp:108-136 | dispatch: the value is a function of operator, attributes and inputs |
| CpuProvider.CpuFuses | inference-engine/engine/src/providers/cpu_execution_provider.cpp:108-136 | on this backend the fused operator is Relu after Gemm, bit for bit |
| CpuProvider.CpuKeepsSizes | inference-engine/engine/src/providers/cpu_execution_provider.cpp:108-136 | every operator gives a tensor whose data fills its shape, if its operands do |
| CpuProvider.SizedOperands | inference-engine/engine/src/providers/cpu_execution_provider.cpp:76-106 | on such operands addition and multiplication fail only where the source throws |
| CpuProvider.EmptyOperandFails | inference-engine/engine/src/providers/cpu_execution_provider.cpp:92-106 | the fused operator fails on an operand that was never computed |
| CpuNodes.FlattenNode | inference-engine/engine/src/providers/cpu_execution_provider.cpp:44-63 | a node named "Flatten" keeps its data and has as many rows as the dimensions before its axis multiply to, one if that is zero; it fails exactly for an axis out of range |
| CpuNodes.ReluNode | inference-engine/engine/src/providers/cpu_execution_provider.cpp:65-74 | a node named "Relu" applies the activation at every place |
| CpuNodes.AddNode | inference-engine/engine/src/providers/cpu_execution_provider.cpp:76-90 | a node named "Add" adds place by place and fails exactly on different shapes |
| CpuNodes.GemmNodeFits | inference-engine/engine/src/providers/cpu_execution_provider.cpp:92-106 | a node named "Gemm" or "GemmRelu" multiplies exactly when its operands are matrices that match and the bias has room for each column or each element |
| CpuNodes.GemmNode | inference-engine/engine/src/providers/cpu_execution_provider.cpp:92-106 | every number of the result is the textbook sum over the operands, transposed as asked, scaled, with its bias, and for "GemmRelu" through the activation |
| CpuNodes.SupportedNames | inference-engine/engine/src/graph/node.cpp:9-16 | the backend supports the operators of five names and computes nothing for others |
| CpuNodes.TooFewInputs | inference-engine/engine/src/providers/cpu_execution_provider.cpp:108-136 | a node with fewer inputs than its operator takes fails |
| CpuNodes.WrongAttribute | inference-engine/engine/src/graph/node.cpp:58-68 | a node fails when an attribute its operator reads is of another kind |
| Sharding.ParallelFor | inference-engine/engine/src/core/thread_pool.cpp:113-138 | the ranges are non-empty and tile the rows |
| Sharding.TilesCover | inference-engine/engine/src/core/thread_pool.cpp:113-138 | every row is in exactly one range |
| Sharding.ShardsExactly | inference-engine/engine/src/core/thread_pool.cpp:113-138 | where each range begins and ends, and when the whole range is run at once |
| Sharding.MinChunkIsNoLowerBound | inference-engine/engine/src/core/thread_pool.cpp:113-138 | nine rows with a minimum of four go out in threes |
| Sharding.MinChunkIsKept | inference-engine/engine/src/core/thread_pool.cpp:113-138 | no range is shorter than the minimum if and only if the chunk is not and what the chunks leave over is nothing or not shorter either; inline, if and only if there are that many rows |
| Sharding.MinChunkBoundsShards | inference-engine/engine/src/core/thread_pool.cpp:113-138 | there are no more ranges than chunks of the minimum length |
| ThreadPool.StepRight | inference-engine/engine/src/core/thread_pool.cpp:53-111 | every step of workers and callers keeps the pool's invariant |
| ThreadPool.RemainingIsOutstanding | inference-engine/engine/src/core/thread_pool.cpp:76-93 | a group's count is its tasks still queued or in some worker's hands |
| ThreadPool.ReturnMeansDone | inference-engine/engine/src/core/thread_pool.cpp:69-111 | a call returns only after each of its tasks ran exactly once, nothing in the pool refers to its group any more, and it throws if and only if some task did |
| ThreadPool.NeverStuck | inference-engine/engine/src/core/thread_pool.cpp:53-111 | while any call has not returned, nested or not, some step is possible |
| ThreadPool.CallsReturn | inference-engine/engine/src/core/thread_pool.cpp:53-111 | without new calls the pool takes a bounded number of steps, in whatever order, and when none is left every call has returned |
| Allocator.SizeClassFits | inference-engine/engine/src/core/allocator.cpp:46-51 | a class is aligned, holds the bytes asked for, and beyond 64 bytes is less than twice as many |
| Allocator.SizeClassExactly | inference-engine/engine/src/core/allocator.cpp:46-51 | a class is the smallest power of two times 64 bytes that holds what was asked for |
| Allocator.ComputeSizeClass | inference-engine/engine/src/core/allocator.cpp:46-51 | the doubling loop computes the class |
| Allocator.NewChunkRight | inference-engine/engine/src/core/allocator.cpp:53-60 | a fresh chunk keeps every block inside one chunk and apart from the rest |
| Allocator.CarvePlaces | inference-engine/engine/src/core/allocator.cpp:76-87 | a carved block is aligned, inside the chunk and apart from every other block |
| Allocator.CarveCounts | inference-engine/engine/src/core/allocator.cpp:76-87 | carving makes a new peak of its class, so the blocks carved in a class are its peak use |
| Allocator.PoolAllocator.Allocate | inference-engine/engine/src/core/allocator.cpp:62-87 | hands out the block of the class freed last, or a new one from the current chunk, or from a new chunk when that has no room; hits, misses, arena, live and peak bytes |
| Allocator.PoolAllocator.Deallocate | inference-engine/engine/src/core/allocator.cpp:89-96 | the block goes last on its class's free list; live bytes shrink by the class and nothing else is counted |
| ModelFormat.TensorBack | inference-engine/engine/src/model/model_loader.cpp:98-114 | a written tensor reads back if and only if its rank is at least one |
| ModelFormat.NodeBack | inference-engine/engine/src/model/model_loader.cpp:116-152 | a written node reads back |
| ModelFormat.ImageReads | inference-engine/engine/src/model/model_loader.cpp:84-225 | a written file, whatever follows it, reads back if and only if no tensor in it has rank zero |
| FormatLaws.ReadExactly | inference-engine/engine/src/model/model_loader.cpp:84-169 | a file is read as a model if and only if it begins with what is written for that model, so a file cut short or of another form is refused |
| FormatLaws.LittleDigits | inference-engine/engine/src/model/model_loader.cpp:23-63 | byte `j` of a number is its digit of weight 256 to the power of `j` |
| FormatLaws.SampleBytes | inference-engine/engine/src/model/model_loader.cpp:171-225 | the bytes of a small file that holds everything a file can hold |
| ModelLoader.LastTensorCounts | inference-engine/engine/src/model/model_loader.cpp:102-117 | of several initializers of one name the last counts |
| ModelLoader.FirstAttributeCounts | inference-engine/engine/src/model/model_loader.cpp:132-152 | of several attributes of one name the first counts |
| ModelLoader.Save | inference-engine/engine/src/model/model_loader.cpp:171-225 | the file holds the model, its maps in whatever order they are visited, and loads back as that model if and only if no tensor has rank zero |
| ModelLoader.Load | inference-engine/engine/src/model/model_loader.cpp:84-169 | builds the graph and initializers the file describes, or fails when it cannot be read |
| ModelLoader.LoadSaved | inference-engine/engine/src/model/model_loader.cpp:84-225 | loading a saved model gives the model back, for any order of its maps, if and only if none of its tensors has rank zero |

## Left out

- HTTP and RPC transport, the command line, process launching, configuration parsing, logging and status reports. Calls to the coordinator are steps that may be delayed or lost.
- `DrainWorkers`, `Wait` and `Status` of the coordinator: they read the table and change nothing.
- Real directories, temporary files and their cleaning up: a file appears whole or not at all, which is what the atomic rename gives.
- Reading a record file lazily: a source holds the records it will yield, because an open file keeps its contents when its path is replaced.
- Counters of a task: a report carries whatever counters it carries.
- Updating a task through a shared pointer: tasks are values in the coordinator's two sequences, so aliasing between them is not expressed.
- Counters.Tally.Merge: does not model 64-bit wrap-around of a counter, because the totals are far below it.
- Graphs.Graph.AddNode: does not model adding a node under a name that is taken, because the engine's graph then keeps one node and two entries of its order, which its other operations do not expect.
- ModelLoader.Load: does not model files whose node names repeat, for the same reason.
- Allocator.PoolAllocator.Deallocate: does not model a block given back twice or with another size, because the source leaves that to the caller.
- Gemm.Compute: does not model two shards writing at the same instant, because shards write disjoint rows and the result of a shard is shown not to depend on the other rows.
- Sessions.Prepare: does not model nodes that share an output, or that write an initializer or a graph input, because neither the engine nor its sessions give those a meaning.
- Sessions.Session.Run: gives a node that reads its own output the tensor an earlier run left in its slot, and does not model that tensor being overwritten while it is read.
- Sessions.Session.RunParallel: says nothing of the store after a run in which a task throws, because the pool then rethrows and the store is left as it is.
- ThreadPool.StepRight: does not model calls that run inline (one task, no workers, or a caller that is itself a worker) or shutting the pool down.
- IEEE rounding, not-a-number, infinities and signed zero: arithmetic is a parameter with named laws.
- Overflow of sizes and running out of memory.
- The hash behind the partition, and the scanner's limit on line length.
- The batcher, which groups requests by size and age; the profiler, which adds up times per node; the provider factory and the names of strategies, which map strings to choices; and the printing of tensors.
