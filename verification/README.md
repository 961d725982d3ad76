# Coded recovery: a verified model

A Dafny 4.11 model of a system that recovers missing data shards from XOR parity instead of waiting for them. It
covers the path from planning a recovery, through executing it on the CPU or a GPU, to deciding when it is worth doing
and running it concurrently with the arrivals it competes with. `dafny verify dfyconfig.toml` checks everything.

## What is modelled

**Erasure code.** `Shards` holds words (`bv32`), shards and slots, and the XOR algebra; `BitParity` says what an XOR
of shards is, bit by bit. `Graphs` holds code graphs and plans with their validity checks. `Peeling` specifies the
multi-pass peeling planner and proves what it computes without reference to its passes; `Planner` is the planner
itself, loops and all. `Codec` encodes parity and executes plans in place; `RoundTrip` proves bit-exact recovery;
`DependencyOrder` proves that a plan's dependency lists are all that its execution order has to respect.

**Device execution.** `Kernel` models the grid-stride kernels thread by thread: four-word vector stores, scalar tail,
one writer per word, any interleaving. `Admission` is the up-front symbolic check, `Device` the prepared plan that can
be launched repeatedly, `Staging` the context that receives shards one by one and runs once.

**Serving protocol.** `Executor` and `Coordinator` are the two lock-protected objects: each locked section is a
function on states, and the classes' methods are proved equal to those functions; `ExecutorSafety` proves the
executor's own invariants for arbitrary clients, `ExecutorOrder` that it serves first come, first served, `ExecutorCancellation` that cancelling is final. `Protocol`
interleaves arrival handlers, the coordinator's lock and the executor's workers in one state machine. A handler that
stores a shard keeps the coordinator's lock from its first check to its decision, but executor steps may come between.
`ProtocolProfiles`, `ProtocolBooks` and `ProtocolSafety` prove the invariant and what follows from it.
`RecoveryDecisions` proves who submits and when, and that a refusal is final. `ServingCorrectness` proves what is
delivered, `AcceptedRecovery` exactly when an accepted recovery fails, and `StaleSubmission` gives a run in which one
does.

**Simulation.** `Queueing` is the bounded multi-server queue with its cost quote and the schedule it produces.
`Events`, `ClusterSimulator` and `NaturalCompletion` are the discrete-event simulator; `Sweep` holds the baseline, the
exact wait oracle and the percentiles; `RequestSimulation` is the single-request simulator and `SimulatorEquivalence`
compares the two. `ClusterFinish` says when a simulation finishes, `RecoverySchedule` that what it admits is a valid schedule of its queue,
`DecisionTrace` that a run is a list of justified decisions, and `RequestOutcome` what a single-request result means.
`Replicas` and `Replication` are the capacity-normalised replica selection and the replicated workload.

## Main results

- Peeling is exact: the planner reports a set of erasures unrecoverable if and only if it contains a non-empty
  stopping set, whatever the order of the equations, and it gets stuck on the greatest one. Encoding, erasing,
  planning and executing restores every data shard bit for bit exactly when there is no stopping set.
- Any execution order that respects a produced plan's dependency lists gives the same shards, for arbitrary contents.
- The device executor accepts what the CPU executor accepts and computes the same shards, for any launch geometry with
  enough threads for the tail, any interleaving of threads and any number of launches.
- Under every interleaving: at most one submission per request, terminal statuses are final, no queued task or staged
  context outlives the handlers of a finished request, and finished requests hold the original data.
- On every run each recorded shard completes, submits, rejects or leaves its request exactly as arrivals, executor
  load and costs demand; a request refused for lack of room is never submitted again; tasks start in the order they
  were accepted.
- "An accepted recovery does not fail" is false under concurrent delivery. A submission is stale when its request has
  received a shard that the submitted snapshot lacks. A task succeeds if and only if its submission is not stale; a
  request without a stale submission never fails, one with a stale submission is never recovered, and delivering a
  request's shards one handler at a time rules staleness out.
- The queue produces a valid schedule on every call sequence, and the executor's cost estimate bounds its quotes. The
  recoveries a simulation admits are jobs of such a schedule, so never more than the queue's slots are served at once.
- A finished simulation is explained decision by decision, and every win, flag and latency in its metrics follows from
  arrivals and schedule. With the exact wait oracle exactly the requests that can still gain are admitted.
- The simulation outcome depends only on the multiset of events and never loses to waiting in latency or in any
  percentile.
- On one request the cluster simulator agrees with the single-request simulator, except exactly on two kinds of input:
  no events, which only the cluster simulator accepts, and a shard outside the code that comes after completion, which
  only the cluster simulator still looks at.
- Replica selection is balanced on every stretch of requests.

Recursive specifications work on the last element of a sequence, so that a loop invariant about a prefix extends by
one unfolding. Sums and quotients of equal amounts are written `Work(n, s)` (n times s) and `Waves(n, c)` (n divided
by c), both defined by recursion; `Queueing.WorkIsProduct` and `Queueing.WavesIsQuotient` say what they are, and
`Queueing.WaveTime(n, c, s)` is `(n / c + 1) * s`.

## Model

| member | source | states |
|---|---|---|
| Graphs.ValidateGraph | src/coding/planner.cpp:14-53 | accepts exactly the graphs with k, m > 0 within 32-bit ids and one non-empty, in-range, duplicate-free equation per parity id |
| Graphs.ValidateCodeGraph | src/coding/graph.cpp:19-56 | accepts exactly the code graphs with distinct in-range outputs and non-empty duplicate-free sources |
| Graphs.EveryParityHasAnEquation | src/coding/graph.cpp:30-46 | a valid code graph has an equation for every parity id, by pigeonhole |
| Graphs.ValidatePlanShape | src/coding/codec.cpp:23-40 | accepts exactly recoverable plans with one dependency list per operation, all pointing backwards |
| Graphs.GenerateRegularGraph | src/coding/graph_generator.cpp:12-42 | whatever the shuffles, the result is a valid graph in which every parity reads the first `degree` shuffled shards, all distinct |
| Planner.CreatePlan | src/coding/planner.cpp:67-145 | the nested loops compute exactly the specified plan, and refuse exactly the invalid requests |
| Planner.CreatePlanAllParity | src/coding/planner.cpp:57-65 | the overload without a parity set plans with every parity |
| Planner.BuildOperation | src/coding/planner.cpp:108-125 | the operation reads its parity first; its dependency list is the sorted duplicate-free list of earlier producers |
| Peeling.PlannerIsExact | src/coding/planner.cpp:86-142 | the shards left when peeling stops are the greatest stopping set; the plan is unrecoverable iff a non-empty stopping set exists |
| Peeling.MaximalPeelingLeavesCore | src/coding/planner.cpp:90-137 | every maximal sequence of peel steps, in any order, leaves the same shards |
| Peeling.StoppingCoreIsGreatest | src/coding/planner.cpp:98-106 | the union of all stopping sets is one |
| Peeling.EquationOrderIsIrrelevant | src/coding/planner.cpp:92-137 | any maximal peeling in any equation order succeeds exactly when the planner does |
| Peeling.RecoverabilityIsMonotone | src/coding/planner.cpp:86-144 | fewer erasures or more parity never makes a recoverable set unrecoverable |
| Peeling.RecoverablePlanShape | src/coding/planner.cpp:108-131 | a recoverable plan passes the executors' shape check |
| Peeling.RecoverablePlanSize | src/coding/planner.cpp:127-131 | a recoverable plan has one operation per missing shard, with pairwise distinct parities and outputs |
| Peeling.TooManyErasures | src/coding/planner.cpp:104-141 | more erasures than available parities are always reported unrecoverable |
| Peeling.RecoverablePlanPeels | src/coding/planner.cpp:96-131 | a recoverable plan is a peeling sequence of the missing shards with exact dependency lists |
| Codec.AccumulateXor | src/coding/codec.cpp:64-67 | the word loop leaves the word-by-word XOR of buffer and input in the buffer |
| Codec.EncodeParity | src/coding/codec.cpp:44-72 | succeeds exactly on non-empty equal-sized data of the right count with systematic sources only; each bit of each parity word is set iff an odd number of the equation's source words have it set |
| BitParity.XorIsUnique | src/coding/codec.cpp:61-68 | the word-by-word XOR of listed shards is the only shard whose every bit is set iff an odd number of them have it set |
| Codec.EncodingIsCodeword | src/coding/codec.cpp:55-69 | the encoder's parity for an id is the codeword shard of that id |
| Codec.ExecuteDecodePlan | src/coding/codec.cpp:74-111 | accepts exactly what the step-by-step specification accepts, and then holds its result |
| DependencyOrder.RunIsExact | src/coding/codec.cpp:74-111 | a plan is accepted and leaves `final` iff every output is written once into a free slot and is the XOR of final, equal-sized, non-empty sources, each present from the start or written earlier, and all other slots are as they were |
| RoundTrip.PeelingRestores | src/coding/codec.cpp:77-110 | running any peeling sequence on codeword slots is never refused and fills exactly its outputs with the original data |
| RoundTrip.ErasureRoundTrip | src/coding/planner.cpp:86-144 | a recoverable plan runs on the erased codeword, leaves every systematic slot bit-equal to the original and every other slot as it was |
| RoundTrip.RecoverErased | src/coding/codec.cpp:44-111 | encode, erase, plan, execute returns the original data iff the erased set holds no non-empty stopping set |
| DependencyOrder.RunSettles | src/coding/codec.cpp:77-110 | after an accepted run every output is written once and equals the XOR of its sources' final values |
| DependencyOrder.AnyDependencyOrderAgrees | src/coding/planner.cpp:108-131 | every order that respects exact dependency lists runs whenever plan order does, to the same shards |
| DependencyOrder.ProducedPlanRuns | src/coding/planner.cpp:86-144 | a recoverable plan runs on any equal-sized contents, codeword or not |
| DependencyOrder.ProducedPlanRunsInAnyOrder | src/coding/planner.cpp:118-129 | and does so in every dependency-respecting order, with one result |
| Kernel.OneWriter | kernels/sparse_decoder.cu:93-128 | no two stores of any threads touch the same word |
| Kernel.EveryWordWritten | kernels/sparse_decoder.cu:99-128 | a launch writes every word iff a block has at least word_count mod 4 threads |
| Kernel.AnyInterleavingIsXor | kernels/sparse_decoder.cu:89-169 | all stores in any order leave the scalar XOR, whatever the buffer held |
| Kernel.RunThread | kernels/sparse_decoder.cu:131-169 | one thread writes the XOR to exactly the words assigned to it |
| Kernel.LaunchKernel | kernels/sparse_decoder.cu:89-129 | the whole grid computes the word-by-word XOR of the sources |
| Kernel.LaunchXorOperation | kernels/sparse_decoder.cu:190-270 | one operation at its offset in the flattened sources, with the clamped grid, computes that operation's XOR: each bit is set iff an odd number of sources have it set |
| Kernel.GridIsSmallest | kernels/sparse_decoder.cu:63-74 | the grid is the smallest whose threads reach all words in one round, clamped to the device limit, and at least one block |
| Admission.AdmitsWhatRuns | kernels/sparse_decoder.cu:315-364 | with no empty shard present, the symbolic pass accepts a plan iff the step-by-step executor does, and predicts every word count |
| Admission.FlattenedSources | kernels/sparse_decoder.cu:344-358 | the flattened list at an operation's offset is that operation's source list |
| Admission.CheckOperations | kernels/sparse_decoder.cu:331-364 | the checking loop computes the specified counts, offsets, flattened sources and required shards |
| Device.PrepareDecodePlan | kernels/sparse_decoder.cu:303-401 | prepares exactly the plans the CPU executor would accept on slots without empty shards |
| Device.DeviceDecodeContext.Launch | kernels/sparse_decoder.cu:403-416 | every launch, the first or a later one, leaves each output the XOR of its sources' final values |
| Device.DeviceDecodeContext.DownloadResults | kernels/sparse_decoder.cu:437-463 | writes the output buffers into slots of the prepared size and keeps all others; after a launch these are exactly the CPU executor's outputs |
| Device.DownloadedIsRun | kernels/sparse_decoder.cu:448-462 | what a launched plan leaves in device memory, laid over the host slots, is the CPU executor's result |
| Device.RunDecodePlan | kernels/sparse_decoder.cu:748-983 | accepts what the CPU executor accepts when no shard is empty, with its result; a refused plan leaves the slots untouched |
| Staging.DeviceShardStagingContext.Stage | kernels/sparse_decoder.cu:517-550 | accepts a non-empty shard for a free slot of an open context, and refuses without effect otherwise |
| Staging.DeviceShardStagingContext.RunPlan | kernels/sparse_decoder.cu:558-718 | runs iff open, host slots equal staged slots and the CPU executor accepts; then closed for good with its result; a refusal changes nothing |
| Staging.StageThenRun | kernels/sparse_decoder.cu:517-718 | staging in any order and running once equals the CPU executor on those shards |
| Executor.CudaRecoveryExecutor.EstimateCost | src/runtime/cuda_recovery_executor.cpp:72-81 | none when full, else the completion wave of a new job times the service estimate |
| Executor.CudaRecoveryExecutor.Stage | src/runtime/cuda_recovery_executor.cpp:83-104 | ignored for queued or running requests; otherwise stages into the request's context or throws |
| Executor.CudaRecoveryExecutor.SubmitTask | src/runtime/cuda_recovery_executor.cpp:106-145 | refuses at capacity or for a live request, dropping the context; throws on a mismatch; otherwise appends the task, with the staged or a new context, behind all queued ones |
| Executor.CudaRecoveryExecutor.CancelRequest | src/runtime/cuda_recovery_executor.cpp:147-163 | drops the context and the first queued task, or marks a running request; reports whether anything was cancelled |
| Executor.CudaRecoveryExecutor.PopTask | src/runtime/cuda_recovery_executor.cpp:175-183 | moves the oldest task to a worker and its id to the running set |
| Executor.CudaRecoveryExecutor.CheckCancellation | src/runtime/cuda_recovery_executor.cpp:206-213 | a cancelled request's completion is suppressed |
| Executor.CudaRecoveryExecutor.FinishTask | src/runtime/cuda_recovery_executor.cpp:214-218 | forgets the id as running and as cancelled |
| ExecutorSafety.ExecutorIsSafe | src/runtime/cuda_recovery_executor.cpp:83-221 | on every run: queued ids distinct and apart from running ids, staged ids apart from both, cancelled ids running, at most workers plus places outstanding; drained workers leave no accepted task without a fate |
| ExecutorSafety.FatesAreFinal | src/runtime/cuda_recovery_executor.cpp:206-213 | in one step: a task's fate never changes, and completion is called only for a task that has met none |
| ExecutorSafety.FatesForever | src/runtime/cuda_recovery_executor.cpp:206-218 | over whole runs every fate met stays as it was met |
| ExecutorSafety.CompletedAtMostOnce | src/runtime/cuda_recovery_executor.cpp:147-221 | on every run no accepted task has its completion called twice, and none withdrawn or suppressed by a cancellation has it called at all |
| ExecutorOrder.TasksStartInOrder | src/runtime/cuda_recovery_executor.cpp:140-182 | on every run, whatever is cancelled in between: tickets are given in order of acceptance, and tasks are started in order of their tickets |
| ExecutorOrder.OldestIsNext | src/runtime/cuda_recovery_executor.cpp:175-183 | in every reachable state the task a worker takes is the oldest accepted one in the queue |
| ExecutorCancellation.CancelledNeverCompletes | src/runtime/cuda_recovery_executor.cpp:147-213 | on every run, a task whose request is cancelled while it is queued or not yet checked for cancellation never has its completion called |
| Policy.ShardArrivalTracker.MarkArrived | src/runtime/policy.cpp:32-42 | refuses out-of-range ids; otherwise keeps the earliest time |
| Policy.EarliestIsKept | src/runtime/policy.cpp:38-41 | in whatever order shards are marked, each has the earliest of its times, and none if it was never marked |
| Policy.ShardArrivalTracker.GetMissingSystematic | src/runtime/policy.cpp:53-61 | exactly the systematic ids without an arrival |
| Policy.CreatePlan | src/runtime/policy.cpp:76-91 | refuses a tracker of other dimensions; otherwise the plan for the missing data and the arrived parities |
| Policy.EvaluateTracker | src/runtime/policy.cpp:93-109 | waits once complete, whatever the dimensions; otherwise refuses other dimensions, cannot recover iff the missing data holds a non-empty stopping set for the arrived parity, and recovers iff it does not and recovering is strictly cheaper |
| Coordinator.RecoveryCoordinator.StartRequest | src/runtime/coordinator.cpp:71-92 | opens a fresh request, unless there is no wait oracle, no transport is attached or the id is taken |
| Coordinator.RecoveryCoordinator.ReceiveShard | src/runtime/coordinator.cpp:104-127 | late, malformed and duplicate arrivals are counted, refused or ignored; others go on to be staged |
| Coordinator.RecoveryCoordinator.RecordShard | src/runtime/coordinator.cpp:130-168 | records the shard and completes iff all data is there; an open, unsubmitted request that no stopping set blocks is submitted iff there is room and recovery is strictly cheaper, and rejected and closed iff there is no room |
| Coordinator.RecoveryCoordinator.SubmissionRefused | src/runtime/coordinator.cpp:200-205 | a refusal closes recovery of a pending request |
| Coordinator.RecoveryCoordinator.OnRecoveryComplete | src/runtime/coordinator.cpp:208-230 | a pending request fails or takes the recovered shards; terminal requests ignore the callback |
| RecoveryDecisions.DecisionIsExact | src/runtime/coordinator.cpp:128-168 | on every run of the protocol each recorded shard is decided so, told from the calls made, the handlers in flight, the executor's load and the stopping sets of what is there |
| RecoveryDecisions.FullMeansNever | src/runtime/coordinator.cpp:151-156 | a request that could recover but finds the executor full is rejected, stays so however the run goes on, and Submit is never called for it |
| RecoveryDecisions.RefusalMeansNever | src/runtime/coordinator.cpp:200-205 | a request whose Submit call finds the executor full is never accepted nor submitted again, and once no handler of it is in flight it is rejected or complete |
| RecoveryDecisions.LateArrivalsAreCounted | src/runtime/coordinator.cpp:110-113 | on every run a request's late arrivals are exactly the deliveries after it became terminal |
| ProtocolSafety.NextKeepsInv | src/runtime/coordinator.cpp:103-230 | every step of every handler and worker keeps the protocol invariant |
| ProtocolSafety.NoResidue | src/runtime/coordinator.cpp:171-197 | at most one Submit per request; a terminal request without a handler in flight has no queued task and no staged context |
| ProtocolSafety.TerminalForever | src/runtime/coordinator.cpp:110-113 | a terminal status and its shards never change again |
| ServingCorrectness.DeliveredDataIsOriginal | src/runtime/coordinator.cpp:94-230 | with codeword payloads, every filled slot of every reachable state holds its codeword shard, and completed requests hold all the original data |
| ServingCorrectness.SystematicStaysFilled | src/runtime/coordinator.cpp:226-227 | on every run, whatever the payloads: a systematic slot, once filled, stays filled, although recovery replaces all slots by the submitted snapshot |
| AcceptedRecovery.TaskSucceedsUnlessStale | kernels/sparse_decoder.cu:573-579 | in every reachable state, the task submitted for a pending request yields a result iff no shard has been received since its snapshot |
| AcceptedRecovery.UnstaleRequestNeverFails | src/runtime/coordinator.cpp:208-230 | a request without a stale submission never fails, under any interleaving |
| AcceptedRecovery.StaleSubmissionNeverRecovers | src/runtime/coordinator.cpp:169-182 | a run with a stale submission at any step ends with the request not recovered |
| AcceptedRecovery.SerialDeliveryNeverFails | src/runtime/coordinator.cpp:94-206 | when no arrival is delivered while a handler of its request is in flight, no request ever fails |
| StaleSubmission.AcceptedRecoveryCanFail | src/runtime/coordinator.cpp:169-182 | a run of two handlers on a two-parity code in which an accepted, recoverable recovery fails |
| Queueing.RecoveryQueue.AdvanceTime | src/simulation/recovery_queue.cpp:26-37 | retires exactly the jobs completed by then; refuses to go back in time |
| Queueing.RecoveryQueue.GetExpectedRecoveryCost | src/simulation/recovery_queue.cpp:39-55 | none at full depth, else the wait for the first free slot plus the service time |
| Queueing.RecoveryQueue.SubmitJob | src/simulation/recovery_queue.cpp:57-76 | occupies the first earliest slot until the completion time, or refuses without effect |
| Queueing.SubmitBooksSlot | src/simulation/recovery_queue.cpp:63-75 | an accepted job works on the first of the slots free earliest, from then or from now, for its service time, and no other slot changes |
| Queueing.ScheduleIsValid | src/simulation/recovery_queue.cpp:26-76 | over all call sequences: slots run one job at a time, at most c jobs run at any instant, depth is the number of jobs completing later and within the maximum |
| Queueing.QuoteIsHonest | src/simulation/recovery_queue.cpp:50-74 | an immediate submission is accepted iff there is a quote, and completes after exactly that time |
| Queueing.DelayedOnlyWhileBusy | src/simulation/recovery_queue.cpp:67-71 | with submissions in order of time, a job is delayed only while every slot is busy |
| Queueing.QuoteIsBounded | src/simulation/recovery_queue.cpp:50-54 | n unfinished jobs of at most s each: a quote for such a job is at most (n / c + 1) * s |
| Queueing.EstimateCoversQuote | src/runtime/cuda_recovery_executor.cpp:72-81 | an executor with c workers and d places is full exactly when the queue with c slots and depth c + d is, and otherwise estimates at least its quote |
| Queueing.EqualJobsQuote | src/simulation/recovery_queue.cpp:39-74 | equal jobs submitted together to an idle queue: the i-th quote is (i / c + 1) * s |
| Queueing.EstimateIsAttained | src/runtime/cuda_recovery_executor.cpp:72-81 | with equal jobs outstanding the executor's estimate is exactly the quote of the queue it stands for |
| Events.SortedPermutationIsUnique | src/simulation/cluster_simulator.cpp:32-36 | with consistent start times the sort order leaves no choice |
| ClusterSimulator.ClusterSimulator.Register | src/simulation/cluster_simulator.cpp:38-52 | opens one tracker per request and refuses inconsistent or late starts |
| ClusterSimulator.ClusterSimulator.DecideRequest | src/simulation/cluster_simulator.cpp:79-121 | completion, earlier admission, unrecoverable, rejected, admitted or waiting, in the code's order |
| ClusterSimulator.ClusterSimulator.Run | src/simulation/cluster_simulator.cpp:25-152 | the three nested loops compute exactly the specified metrics, or throw, and leave exactly the specified queue behind, also when they throw |
| ClusterSimulator.OrderIsIrrelevant | src/simulation/cluster_simulator.cpp:32-123 | permuted event lists give the same metrics, or both throw, and leave the same queue |
| ClusterFinish.FinishesIff | src/simulation/cluster_simulator.cpp:38-133 | with positive service estimates and non-negative wait costs a run finishes iff starts are consistent, no time is negative or before the queue's, all shards belong to the code and every request receives all its data |
| RecoverySchedule.RunIsScheduled | src/simulation/cluster_simulator.cpp:86-149 | on a queue reached by any calls: every run leaves a queue reached by calls; in a finished run the admitted requests own distinct jobs of that schedule, one each and none left over; a request wins iff its job ends before its first complete time t, its latency is the end of that job, or else t, minus its start; and at no time are more than c requests being recovered |
| DecisionTrace.RunHasTrace | src/simulation/cluster_simulator.cpp:60-149 | a finished run is a list of decisions, one per request and time with arrivals in order, each on the earliest arrivals by then and the queue the earlier calls leave, admitting, rejecting, waiting or giving up exactly when the rules say; every flag, win and latency of the metrics follows from the list |
| NaturalCompletion.NaturalIsFirstComplete | src/simulation/cluster_simulator.cpp:72-82 | a finished request's natural completion is the first time by which all its systematic shards have arrived |
| Sweep.GetNaturalCompletionTimes | experiments/phase7_parameter_sweep.cpp:299-313 | the loop computes the latest systematic arrival of each request |
| Sweep.CompletionIsLatest | experiments/phase7_parameter_sweep.cpp:299-313 | the recorded time is attained by a systematic arrival and bounds all of them |
| Sweep.RunBaseline | experiments/phase7_parameter_sweep.cpp:315-338 | waiting latency per request, or an exception for inconsistent starts or a request without systematic arrivals |
| Sweep.BaselineIsExact | experiments/phase7_parameter_sweep.cpp:315-338 | the baseline exists iff starts are shared and every request has a systematic arrival, and a request then waits exactly from its start to its last systematic arrival |
| Sweep.RecoveryNeverLoses | src/simulation/cluster_simulator.cpp:126-148 | whenever the simulation finishes, so does the baseline, on the same requests, and no latency exceeds the baseline's |
| Sweep.AdmittedIffWon | experiments/phase7_parameter_sweep.cpp:361-367 | with the exact wait oracle and one arrival per shard, a request is admitted iff its recovery wins |
| DecisionTrace.AdmittedIffInTime | experiments/phase7_parameter_sweep.cpp:361-367 | with the exact wait oracle a request is admitted iff at some decision before any admission it is incomplete, recoverable and quoted to end before its last systematic arrival |
| Sweep.Percentile | experiments/phase7_parameter_sweep.cpp:370-378 | the nearest-rank element of the sorted values for a percentage, or an exception when there is none |
| Sweep.PercentileIsSmallest | experiments/phase7_parameter_sweep.cpp:370-378 | the percentile is the smallest value that at least that share of all values do not exceed; there is one iff there are values and the percentage is at most 1 |
| Sweep.PercentilesNeverLose | experiments/phase7_parameter_sweep.cpp:380-402 | at every percentage the coded percentile is at most the baseline percentile |
| RequestSimulation.RequestSimulation.Run | src/simulation/simulator.cpp:22-79 | the loop computes exactly the specified metrics, or throws |
| RequestOutcome.SimulationIsExact | src/simulation/simulator.cpp:22-79 | natural completion is the first time all data has arrived; recovery starts at the first arrival time before it at which the arrived shards are recoverable and recovery is strictly cheaper, and takes its expected cost; it wins iff it ends strictly first, and the latency is the sooner of the two |
| SimulatorEquivalence.SimulatorsAgree | src/simulation/simulator.cpp:22-79 | one request, start 0, idle queue, constant service: on every event list both simulators throw or agree on latency, win and admission, except exactly on the empty list, which only the cluster simulator accepts, and on lists with a shard outside the code that comes after completion, which only the cluster simulator refuses |
| SimulatorEquivalence.AloneFinishes | src/simulation/simulator.cpp:29-79 | the single-request simulator finishes iff no time is negative and at some time all systematic shards and no shard outside the code have arrived |
| Replicas.SelectCapacityNormalizedReplicas | src/simulation/workload_generator.cpp:140-163 | the next r shards on the shuffled circle; refuses shard counts that are zero or beyond the id range, and more replicas than shards |
| Replicas.SelectionIsDistinct | src/simulation/workload_generator.cpp:155-162 | a selection names r distinct systematic shards |
| Replicas.EveryStretchIsBalanced | src/simulation/workload_generator.cpp:157-162 | over any n consecutive requests each shard is protected floor(n r / k) or ceil(n r / k) times |
| Replicas.FullRoundIsExact | src/simulation/workload_generator.cpp:157-162 | over k consecutive requests each shard is protected exactly r times |
| Replication.Apply | src/simulation/workload_generator.cpp:165-215 | chosen events arrive at the sooner of their own and the replica's arrival, drawing delays in event order; invalid configurations, shard counts, replica counts and mismatched events are refused |
| Replication.ReplicatedIsExact | src/simulation/workload_generator.cpp:165-215 | a systematic shard that is selected takes the sooner of its own arrival and start plus the next sampled delay; every other event stays as it is |
| Replication.ReplicationNeverDelays | src/simulation/workload_generator.cpp:176-185 | replication never makes a request's baseline latency worse |

## Left out

- Foreign API: CUDA runtime calls, streams, events, allocation failures, occupancy tuning and its cache. One stream
  runs launches in order, and device buffers are disjoint values without addresses.
- Device.RunDecodePlan: the one-shot path repeats the preparation, launch and download code inline in the repository and is modelled as their composition.
- Kernel.LaunchKernel: runs the threads one after the other; that their order is immaterial is `Kernel.AnyInterleavingIsXor`.
- Replicas.SelectCapacityNormalizedReplicas: the shuffle is an arbitrary permutation given as an argument, as it is in `Graphs.GenerateRegularGraph`.
- Replication.Apply: sampled delays are an arbitrary function of the draw count, and the request schedule is an argument of the configured length; one method stands for both strategies, and microsecond parameters are integers.
- Sweep.Percentile: the product of percentage and count is a real number; the rounding of the floating-point product is not modelled.
- Coordinator.RecoveryCoordinator.RecordShard: the wait-cost oracle is a value given to the step; the estimate is the one the executor gives in the same step, after any executor steps that came between staging and the decision.
- ClusterSimulator.ClusterSimulator.Run: trackers are values in a map, oracles and estimators are pure functions. The trackers an exception leaves behind are not stated: the next run starts with none.
- Timings and metrics fields, condition variables, timeouts, destructors and the stopping flag. Of the transport only
  whether one is attached is modelled, and of the wait oracle whether one is supplied and what it answers; the
  completion handler is assumed to be supplied.
- Exception messages and which of several errors is reported first: an operation accepts or refuses.
- The 32-bit word arithmetic is exact; sizes and times are unbounded integers, so overflow of `size_t` and of
  microsecond counts is not modelled, except where the code checks shard-id ranges.
- Delay sampling, request arrival sampling, CSV and option parsing, the sweep's printed tables, and the Python
  analysis.
- Benchmarks, `ShardLayout`, device information and the two-shard demonstration decoder, which would add only easy
  members.

Nothing was executed: every statement above is a theorem about the model.
