# Distributed-system labs: a Dafny model

This project models the non-stub algorithms and protocols of a set of distributed-system labs written
in Go, and proves what their code and comments promise.  It has four parts.

**Shard rebalancing** (`ShardSpec`, `ShardTheorems`, `ShardRun`, `ShardMixedRun`, `ShardConfig`).  A configuration assigns
a fixed array of shards to groups.  `Rebalance` hands out the shards of absent groups to the least loaded
group, then moves shards one by one from the most to the least loaded one.  The model is a class with the
array in place, specified by the function `ShardSpec.Rebalanced`.  Proved for every configuration: it
terminates (the sum of squared loads falls), every load ends at the floor or ceiling of the average, no
shard is written twice, no group both gives and receives, and no balanced assignment to the same groups
takes fewer shards from groups that are present.  Runs of joins and leaves keep what the configuration
checker tests, and move only what they must; after refused calls the next successful one restores it.

**MapReduce** (`KeyOrder`, `GroupReduce`, `Coordinator`, `MapReduce`, `MapReduceProgress`,
`MapReduceTiming`).  The coordinator
is a class over its task tables; the whole system is a state machine with any number of workers whose
steps are: start, crash, ask for work (the reply may be lost), rename one intermediate file, load one
intermediate file, sort and reduce, rename the output, send a completion, deliver a completion (late,
repeatedly or never), and let time pass.  Proved for every run: once `Done()` holds, the lines of all
output files are, as a multiset, the lines the sequential program writes.  And whatever has happened so
far, a run of a job with input files and reduce tasks can be continued until `Done()` holds.

**Versioned key/value model and clients** (`KvModel`, `KvSemantics`, `OpLog`, `Clients`, `AppendClients`, `PutClients`,
`RecordedPuts`).  Linearizability
is local: checking the per-key parts of a history is checking the history.  The client loops are state
machines over the model's own step function; the counting laws behind their checkers hold in every
interleaving.  What any clients record, with calls, effects and returns interleaved in any way, is
linearizable, so the check of each part passes.

**Network and restart** (`Network`, `NetworkRestart`, `NetworkObjects`, `Topology`).  Requests in flight, `DeleteServer` and
the hand-over of persisted state as a state machine.  Proved for every interleaving: what the handler of a
call answered `true` has saved is what the next instance starts from, or was superseded by a later save of
the same instance.  A start keeps that promise if and only if the server was shut down before.

To verify the whole project: `dafny verify dfyconfig.toml`.

## Conventions

- The number of shards is any number up to 256 (the source has 12; the sentinel 257 in `analyze` bounds it).
- A fatal exit of the process is an outcome (`Fatal`, or `false` where a method says so).
- `mapf` may emit its pairs in another order on every execution, and a sort may break ties in any way, so
  `reducef` must not depend on the order of its values (`OrderInsensitive`).  `ihash` is an arbitrary
  function to natural numbers.  Each intermediate and output file is renamed into place atomically.
- The clock is a parameter: one reading per inspected task and one for the stamp, never decreasing.
- A get returns the stored value with its stored version, as the server's comment says; the model's `Step`
  itself does not look at the version a get returns.
- The keys the clients put to are distinct, as `MakeKeys` makes them.
- A history is a list of operations with call and return times, `call <= ret`.  An order respects time when
  no operation is placed before one that returned before it was called.
- Ends are named by the pair of servers they join; the source names them by random strings and refuses a
  repeated name.

## Findings

- `MakePartition` lists every server exactly once when the number of servers is odd, and only then; with an
  even number one server is listed twice (`Topology.ServerGroup.MakePartition`, `Topology.EvenOverlaps`).
  `Partition` takes such lists too and counts a server in both as one of the second.  The leader then is
  cut off from a majority exactly when the number of servers is odd, or when the leader is server 0 of more
  than two (`Topology.LeaderIsInMinority`): with four servers and leader 1 the cut is two against two.
- A refused `Leave` of several groups has already removed the groups before the offending id and does not
  rebalance.  Every shard is then on a present group exactly when none of the removed groups owned one
  (`ShardRun.RefusedLeaveStrandsShards`).  With no more groups than shards, that is exactly when the very
  first id was the offending one (`ShardRun.RefusedLeaveStrandsUnlessFirst`); `ShardRun.StrandedRun` is a
  run that strands shards.
- A MapReduce job can become done exactly when it has an input file and a reduce task
  (`MapReduceProgress.DoneExactlyWithTasks`).  Two inputs of `MakeCoordinator` fail: an empty list of files,
  where the map flag is never raised (`MapReduce.NoFilesNeverDone`), and `nReduce` 0, where the last flag is
  not (`MapReduceProgress.NoReducesNeverDone`).  The main program refuses an empty list and asks for 10
  reduce tasks (src/main/mrcoordinator.go:21-26), so only a direct call can pass either.
- A refused `Join` of several groups may have added some of them without rebalancing.  Whatever the order
  in which the map is traversed, the loads are still within one exactly when there were at least as many
  groups as shards or none of the ids could be added (`ShardMixedRun.RefusedJoinKeepsLoadsExactly`).
- The order of `ShutdownServer` matters: a start keeps the promise of the restart protocol in every
  continuation exactly when the server was down (`NetworkRestart.StartIsSafeExactlyWhenDown`).  Otherwise a
  call on the old instance can still be answered `true` and its save be lost
  (`NetworkRestart.RestartWithoutShutdownLosesSave`, and `NetworkRestart.LosingRun` from the initial state).
- The check in `OnePut` that reports a wrong value only when both fields differ would pass in its strict
  form too: both fields are always right (`PutClients.ReadBackIsOwn`).
- The comment above `OneClientAppend` shows a client's numbers starting at 1; the code starts at 0, and so
  does the model.

## Model

| member | source | states |
|---|---|---|
| ShardConfiguration.CountShards | src/shardkv1/shardcfg/shardcfg.go:81-84 | the counts map gives, for every group id whatsoever, the number of shards it owns |
| ShardConfiguration.SortedIds | src/shardkv1/shardcfg/shardcfg.go:90-98 | the ids of the map, each once, in strictly increasing order |
| ShardConfiguration.ShardConfig.constructor | src/shardkv1/shardcfg/shardcfg.go:44-49 | the first configuration: number 0, all shards on 0, no groups |
| ShardConfiguration.ShardConfig.Analyze | src/shardkv1/shardcfg/shardcfg.go:80-118 | the most and the least loaded group, smallest id first among equals, with their loads; the sentinels if there is no group |
| ShardConfiguration.ShardConfig.AssignShard | src/shardkv1/shardcfg/shardcfg.go:132-138 | one shard of an absent group goes to the least loaded group; no present group has given anything up |
| ShardConfiguration.ShardConfig.AssignUnassigned | src/shardkv1/shardcfg/shardcfg.go:131-138 | the first phase computes `Fill`, writing every shard at most once |
| ShardConfiguration.ShardConfig.FindShard | src/shardkv1/shardcfg/shardcfg.go:147-152 | the first shard owned by the group |
| ShardConfiguration.ShardConfig.MoveShard | src/shardkv1/shardcfg/shardcfg.go:146-152 | one move of the second phase, of a shard not yet touched |
| ShardConfiguration.ShardConfig.Rebalance | src/shardkv1/shardcfg/shardcfg.go:122-154 | terminates with the function `Rebalanced` of the old shards; the log of writes replays to the result and names no shard twice |
| ShardConfiguration.ShardConfig.InUse | src/shardkv1/shardcfg/shardcfg.go:164-172 | whether one of the servers is already listed by some group |
| ShardConfiguration.ShardConfig.Join | src/shardkv1/shardcfg/shardcfg.go:156-183 | succeeds exactly when something joins, all ids are new and no server is shared; otherwise some of the new groups may have been added in any order, and the number is unchanged |
| ShardConfiguration.ShardConfig.Leave | src/shardkv1/shardcfg/shardcfg.go:185-205 | succeeds exactly when something leaves, all ids are present and distinct; otherwise exactly the leavable prefix is gone |
| ShardConfiguration.ShardConfig.JoinBalance | src/shardkv1/shardcfg/shardcfg.go:207-213 | the effect of a successful call on the whole configuration; a failed one leaves number and shards alone and may have added some of the new groups, in any order, and nothing else |
| ShardConfiguration.ShardConfig.LeaveBalance | src/shardkv1/shardcfg/shardcfg.go:215-221 | the effect of a successful call on the whole configuration; a failed one has removed exactly the leavable prefix and changed nothing else |
| ShardConfiguration.ShardConfig.IsMember | src/shardkv1/shardcfg/shardcfg.go:229-236 | whether the group owns a shard |
| ShardConfiguration.ShardConfig.CheckConfig | src/shardkv1/shardcfg/shardcfg.go:238-279 | accepts exactly the configurations with the expected groups, all shards placed, and loads within one of each other |
| ShardSpec.MoveLowersEnergy | src/shardkv1/shardcfg/shardcfg.go:140-153 | every move lowers the sum of squared loads: the move loop terminates |
| ShardSpec.FillKeeps | src/shardkv1/shardcfg/shardcfg.go:131-138 | after the first phase every shard is on a present group and no present group has lost one |
| ShardSpec.MoveTakesUntouched | src/shardkv1/shardcfg/shardcfg.go:142-152 | the shard a move takes still has its original owner, so no shard changes owner twice |
| ShardSpec.MoveStaysWithin | src/shardkv1/shardcfg/shardcfg.go:142-152 | a group within one of the minimum or maximum stays so across a move; giver and receiver land between them |
| ShardSpec.MoveKeepsFrugal | src/shardkv1/shardcfg/shardcfg.go:140-153 | the move loop keeps: receivers near the minimum, givers near the maximum, no group both, no giver below a receiver |
| ShardSpec.RebalancedIsBalanced | src/shardkv1/shardcfg/shardcfg.go:120-154 | the result places every shard on a present group with loads within one of each other, and no group both gives and receives |
| ShardSpec.BalancedIsFixed | src/shardkv1/shardcfg/shardcfg.go:120-154 | a balanced configuration is left as it is |
| ShardTheorems.LoadIsFloorOrCeiling | src/shardkv1/shardcfg/shardcfg.go:261-278 | in any balanced configuration every load is the floor of the average, or the ceiling if the average is no whole number |
| ShardTheorems.RebalancedLoads | src/shardkv1/shardcfg/shardcfg.go:122-154 | so it is after rebalancing any configuration with at least one group |
| ShardTheorems.TakenBounds | src/shardkv1/shardcfg/shardcfg.go:122-154 | any reassignment takes at least the load decreases from present groups, and a frugal one exactly those |
| ShardTheorems.RebalancedTakesLeast | src/shardkv1/shardcfg/shardcfg.go:122-154 | no balanced assignment to the same groups takes fewer shards from present groups than rebalancing |
| ShardTheorems.JoinMovesOnlyToJoining | src/shardkv1/shardcfg/shardcfg.go:207-213 | on a balanced configuration a join moves shards only to joining groups |
| ShardTheorems.LeaveMovesOnlyLeavers | src/shardkv1/shardcfg/shardcfg.go:215-221 | on a balanced configuration a leave changes only the shards of leaving groups |
| ShardTheorems.EveryGroupIsUsed | src/shardkv1/shardcfg/shardcfg.go:229-236 | with no more groups than shards, a group owns a shard exactly when it is present |
| ShardRun.ApplyKeepsSound | src/shardkv1/shardcfg/shardcfg.go:156-221 | every successful call, from any configuration with disjoint server lists, leaves them disjoint and the configuration balanced |
| ShardRun.EveryRunIsAccepted | src/shardkv1/shardcfg/shardcfg.go:156-279 | after any run of successful calls: the checker accepts the current groups in any order, servers are disjoint, the number is the number of calls, membership is presence |
| ShardRun.AcceptedExactly | src/shardkv1/shardcfg/shardcfg.go:238-278 | the checker accepts a listing without repetition if and only if it names the present groups and, if there are any, the configuration is balanced |
| ShardRun.EveryStepIsLocal | src/shardkv1/shardcfg/shardcfg.go:207-221 | at every call of a run, a join moves shards only to joiners and a leave only those of leavers |
| ShardRun.LeavePrefixIsExact | src/shardkv1/shardcfg/shardcfg.go:187-197 | a leave removes a leavable prefix of the ids, and the id after it is no longer there |
| ShardRun.RefusedLeaveStrandsShards | src/shardkv1/shardcfg/shardcfg.go:187-192 | after a refused leave, from any sound configuration with a group, every shard is on a present group if and only if no removed id owned a shard |
| ShardRun.RefusedLeaveStrandsUnlessFirst | src/shardkv1/shardcfg/shardcfg.go:187-192 | with no more groups than shards: if and only if the first id was already absent |
| ShardRun.StrandedRun | src/shardkv1/shardcfg/shardcfg.go:185-221 | a run: groups 1 and 2 join, a leave of 1 and 3 is refused, and shards are left on no group |
| ShardMixedRun.RefusedKeepsDisjoint | src/shardkv1/shardcfg/shardcfg.go:156-205 | a refused join or leave keeps server lists disjoint |
| ShardMixedRun.EverySuccessRestores | src/shardkv1/shardcfg/shardcfg.go:156-279 | in runs with refused calls, after every successful one the checker accepts, servers are disjoint, the number counts the successes, membership is presence |
| ShardMixedRun.RefusedJoinLoads | src/shardkv1/shardcfg/shardcfg.go:158-163 | after a refused join all shards are placed, and the loads are within one if and only if nothing was added or there are at least as many groups as shards |
| ShardMixedRun.RefusedJoinKeepsLoadsExactly | src/shardkv1/shardcfg/shardcfg.go:158-177 | for every order of traversal they are, if and only if there are at least as many groups as shards or no id can be added |
| ShardMixedRun.RestoredRun | src/shardkv1/shardcfg/shardcfg.go:185-221 | a run in which a refused leave strands shards and the next join puts everything right |
| GroupReduce.WriteBuckets | src/mr/worker.go:138-145 | bucket r holds exactly the pairs whose key hashes to r, in order |
| GroupReduce.BucketCounted | src/mr/worker.go:142-145 | bucketing loses, invents and misplaces no pair |
| GroupReduce.BucketValues | src/mr/worker.go:142-145 | a key's bucket has all its values in order |
| GroupReduce.BucketKeys | src/mr/worker.go:142-145 | a key occurs in its own bucket only |
| GroupReduce.WorkerReduce | src/mr/worker.go:95-108 | one line per distinct key, in key order, each reduced from exactly that key's values |
| GroupReduce.SequentialReduce | src/main/mrsequential.go:71-87 | the same for the sequential program's loop |
| GroupReduce.OutputHasExactlyTheLines | src/mr/worker.go:95-108 | a line is in the output if and only if its key occurs and its text is the reduction of that key's values |
| GroupReduce.OutputIgnoresOrder | src/mr/worker.go:83-108 | permuted inputs, however ties are sorted, produce the same sequence of lines |
| KeyOrder.KeyLessIsLexicographic | src/mr/worker.go:83-86 | one key is before another if and only if, where they first differ, it ends or has the smaller character |
| Coordination.FirstFree | src/mr/coordinator.go:57-58 | the first task that is todo, or assigned more than ten seconds ago when its turn comes |
| Coordination.Coordinator.constructor | src/mr/coordinator.go:162-191 | all tasks start as todo, although the zero value of a status is success |
| Coordination.Coordinator.Scan | src/mr/coordinator.go:57-67 | the scan hands out the first free task and stamps it, or changes nothing |
| Coordination.Coordinator.AssignTask | src/mr/coordinator.go:52-100 | the reply and the new tables are those of the function `Assign` |
| Coordination.RepliesExactly | src/mr/coordinator.go:52-100 | in a consistent state the reply is Exit if and only if everything is done, Wait if and only if it is not and no task of the current kind is todo or assigned more than ten seconds ago, and a reduce task if and only if all maps are done, with the input file or the intermediate files that belong to it |
| Coordination.Coordinator.NotifyComplete | src/mr/coordinator.go:102-132 | a completion counts once per task; a task number out of range is fatal |
| Coordination.FreshIsConsistent | src/mr/coordinator.go:162-191 | the new coordinator is consistent |
| Coordination.AssignKeepsConsistent | src/mr/coordinator.go:52-100 | counters equal the number of successes, a flag is up exactly when its table is complete, no reduce task starts before the last map task is done |
| Coordination.CompleteKeepsConsistent | src/mr/coordinator.go:102-132 | the same for completions |
| MapReduce.InputsComplete | src/mr/worker.go:147-159 | once all maps are done every intermediate file exists with the right pairs |
| MapReduce.NextKeeps | src/mr/worker.go:59-161 | every step of every worker and of the coordinator keeps the invariant |
| MapReduce.RunKeeps | src/mr/coordinator.go:52-157 | the invariant holds in every reachable state |
| MapReduce.NoMissingInput | src/mr/worker.go:63-68 | no reduce worker ever fails to open an input |
| MapReduce.ReduceIsReady | src/mr/coordinator.go:74-84 | a reduce task is handed out only when all its input files are complete |
| MapReduce.NoFatalCompletion | src/mr/coordinator.go:108-121 | no completion message names a task out of range |
| MapReduce.DoneMeansWritten | src/mr/coordinator.go:126-129 | once done, every output file exists with its final content |
| MapReduce.ExitMeansWritten | src/mr/coordinator.go:91-92 | exit is sent only when every output file is final |
| MapReduce.ExitExactlyWhenDone | src/mr/coordinator.go:91-92 | in every run a request is answered Exit if and only if the job is done, and a worker ends on that answer only |
| MapReduce.OutputIsFinal | src/mr/worker.go:110-111 | no step changes the content of an output file that exists |
| MapReduce.RunUndoesNothing | src/mr/coordinator.go:102-132 | along a run no success, flag or output file is ever undone |
| MapReduceProgress.OneMapMore | src/mr/coordinator.go:53-72 | while map tasks are missing, a new worker that asks after the timeouts can finish one more |
| MapReduceProgress.OneReduceMore | src/mr/coordinator.go:74-90 | the same for reduce tasks once all maps are done |
| MapReduceProgress.EveryRunCanFinish | src/mr/coordinator.go:52-132 | every run of a job with input files and reduce tasks, whatever crashed or was lost in it, can be continued until done |
| MapReduceProgress.NoReducesNeverDone | src/mr/coordinator.go:118-130 | a job without reduce tasks never becomes done, whatever its functions |
| MapReduceProgress.DoneExactlyWithTasks | src/mr/coordinator.go:102-132 | a job becomes done in some run if and only if it has an input file and a reduce task |
| MapReduceProgress.EveryRunCanFinishRight | src/mr/coordinator.go:148-157 | and can be continued to output files that together hold the lines of the sequential program |
| MapReduceProgress.SilentTaskIsReassigned | src/mr/coordinator.go:57-66 | a task whose worker has fallen silent is handed out again at any time more than ten seconds later |
| MapReduceProgress.DoneRunCanEnd | src/mr/worker.go:59-161 | a done run can be continued, by workers going on with their work alone, until every worker has been sent away |
| MapReduceProgress.CountingIsOrderInsensitive | src/mrapps/wc.go:37-40 | a reduction that looks only at the number of values, as word count does, does not depend on their order |
| MapReduce.RunSequential | src/main/mrsequential.go:41-87 | the sequential program produces a sequential output, whatever its sort does with ties |
| MapReduce.LineInOneOutput | src/mr/worker.go:142-145 | a line of the job is once in the output of its key's task and in no other |
| MapReduce.DoneRefinesSequential | src/mr/coordinator.go:148-157 | in every run, once done, the lines of all output files are as a multiset those of the sequential program |
| MapReduce.PairsAreEmitted | src/main/mrsequential.go:41-54 | each pair occurs as often as the map function emits it, called with each file's name and contents |
| MapReduce.JobLineMeans | src/mr/worker.go:121-145 | a line belongs to the job if and only if some file's map emits its key and its text is the reduction of all values emitted for that key |
| MapReduce.SequentialMeans | src/main/mrsequential.go:41-87 | the sequential program writes each line of the job once and nothing else |
| MapReduce.DoneMeans | src/mr/worker.go:59-161 | in every run, once done, output file r has each line of the job whose key hashes to r once and nothing else |
| MapReduceTiming.RunIsTimely | src/mr/coordinator.go:58-64 | in every run two assignments of one task are more than ten seconds apart |
| MapReduceTiming.SpanOfAssignments | src/mr/coordinator.go:58-64 | k assignments of one task span at least k - 1 timeouts |
| MapReduceTiming.PromptWorkersGetEachTaskOnce | src/mr/coordinator.go:58-64 | if no assigned task is left for more than ten seconds, none is assigned twice |
| KvModel.GroupByKey | src/models1/kv.go:28-32 | the map holds, for each key that occurs, its operations in order |
| KvModel.SortKeys | src/models1/kv.go:33-37 | the keys of the map, each once, in increasing order |
| KvModel.Partition | src/models1/kv.go:27-43 | the parts are the projections of the history on its keys, in key order |
| KvModel.PartitionKeepsAll | src/models1/kv.go:27-43 | the parts together have exactly the operations of the history |
| KvModel.StoreLegalByKey | src/models1/kv.go:44-67 | an order is legal for the whole store if and only if each key's part of it is legal for that key |
| KvModel.MergeRespectsTime | src/models1/kv.go:45-47 | merging two time-respecting orders by call time respects time |
| KvModel.Locality | src/models1/kv.go:27-67 | a history is linearizable for the whole store if and only if every part is linearizable for its key |
| KvStep.PutStepExactly | src/models1/kv.go:57-63 | a put at the stored version is answered OK or ErrMaybe and takes effect, any other is answered ErrVersion or ErrMaybe and does not |
| KvStep.GetStepExactly | src/models1/kv.go:54-56 | a get returns the stored value, here with its version |
| KvSemantics.NoStaleRead | src/models1/kv.go:44-67 | in a linearizable history a get called after a put had returned OK sees that put or one at a later version |
| KvSemantics.NoReadFromNowhere | src/models1/kv.go:44-67 | a get sees the empty value or that of a put that was called before it returned and may have taken effect |
| KvSemantics.RefusedPutHadRival | src/models1/kv.go:61-63 | a put at version 0 that was told ErrVersion had a rival that may have taken effect |
| KvSemantics.OneWinnerPerVersion | src/models1/kv.go:57-63 | of the puts that name one version at most one is told OK |
| KvSemantics.OnlyKnownOperations | src/models1/kv.go:53-67 | a linearizable history has only gets, and puts answered OK, ErrVersion or ErrMaybe |
| OpLog.NextKeeps | src/kvtest1/porcupine.go:30-84 | calls, effects and returns of any clients keep: the order of effects is legal and within the calls, and the log has exactly the returned operations |
| OpLog.EveryLogPasses | src/kvtest1/porcupine.go:50-99 | in every run of any clients, whenever no operation is between effect and return, the log is linearizable and so is every part for its key |
| OpLog.LoggedAsItHappened | src/kvtest1/porcupine.go:50-84 | every logged operation was called, took effect and returned in this order, and the log has the times of its call and its return |
| RecordedPuts.RecordingIsFree | src/kvtest1/porcupine.go:67-84 | recording holds no put client back |
| RecordedPuts.EveryRecordedRunPasses | src/kvtest1/kvtest.go:208-284 | the history put clients record in any run is linearizable, every part passes, and the versions lie between certain and possible puts |
| RecordedPuts.LostReplyRun | src/models1/kv.go:57-60 | a run in which a put takes effect and is answered ErrMaybe, the client reads its own value, and the history passes |
| AppendClients.StepKeeps | src/kvtest1/kvtest.go:327-352 | every client step keeps: entries + 1 = version, numbers increase per client, each client's entries and numbers match its counts |
| AppendClients.CheckAppends | src/kvtest1/kvtest.go:361-390 | accepts exactly when numbers increase per client, entries + 1 = version, skips are at most the uncertain puts and numbers at most all puts |
| AppendClients.EveryMomentIsAccepted | src/kvtest1/kvtest.go:316-390 | in every interleaving of any number of clients, at every moment, every entry names a client and the check accepts against the counts with the answers on their way |
| AppendClients.EveryRunIsAccepted | src/kvtest1/kvtest.go:316-390 | whenever no answer is on its way, in particular at the end, every entry names a client and the check accepts against the clients' own counts |
| AppendClients.CheckRun | src/kvtest1/kvtest.go:361-390 | the checker, called at such a moment of any run, says yes |
| AppendClients.AcceptedExactly | src/kvtest1/kvtest.go:361-390 | acceptance in terms of the list: length, increasing numbers, at most as many missing numbers as uncertain puts, no number beyond the client's puts |
| AppendClients.CountsAreAnswers | src/kvtest1/kvtest.go:340-347 | in every run a client's counts are the numbers of OK and ErrMaybe answers it has got |
| AppendClients.AppendsUntilAnswered | src/kvtest1/kvtest.go:335-349 | after ErrVersion a client neither looks at the done signal nor ends before a put is answered OK or ErrMaybe |
| AppendClients.EveryClientCanSucceed | src/kvtest1/kvtest.go:327-352 | from every moment of every run a client that has not ended can get an append answered OK |
| PutClients.StepKeeps | src/kvtest1/kvtest.go:208-284 | every client step, on any key, keeps the sum of the versions between certain and possible puts |
| PutClients.ReadBackIsOwn | src/kvtest1/kvtest.go:214-220 | after an OK put, a read at version ver + 1 returns exactly (me, ver), and no such read finds the key missing |
| PutClients.CheckPutConcurrent | src/kvtest1/kvtest.go:126-140 | adds the results to the totals of earlier rounds, and accepts exactly when the version equals the OK puts (reliable) or is at most OK plus maybe (unreliable) |
| PutClients.VersionCountsPuts | src/kvtest1/kvtest.go:259-284 | with any choice of keys and between puts, the sum of all versions has risen by at least the OK puts and at most the OK plus maybe puts |
| PutClients.EveryRoundIsExplained | src/kvraft1/kvraft_test.go:49-60 | on one key, totals that explain the version at the start of a round explain it at the end, exactly so without uncertain puts |
| PutClients.CountsAreAnswers | src/kvtest1/kvtest.go:222-223 | in every run a client's counts are the numbers of OK and ErrMaybe answers it has got |
| PutClients.CertainPutsAreExact | src/kvtest1/kvtest.go:133-136 | if no put was ever answered ErrMaybe, the versions have risen by exactly the OK puts |
| PutClients.CheckRound | src/kvtest1/kvtest.go:126-140 | the checker, called between puts of any run, says yes: always if lenient, and if strict when no put was answered ErrMaybe |
| PutClients.PutsUntilAnswered | src/kvtest1/kvtest.go:208-226 | after ErrVersion a client puts again until answered OK or ErrMaybe |
| PutClients.EveryClientCanSucceed | src/kvtest1/kvtest.go:208-284 | from every moment of every run a client that has not ended can get a put answered OK |
| PutClients.PutAtLeastOnce | src/kvtest1/kvtest.go:81-102 | never returns if it starts above the stored version; otherwise returns at the first certain answer from the attempt that has caught up, and the stored value and version are those of that attempt |
| Network.MoveKeeps | src/labrpc/labrpc.go:238-311 | what every step of a request keeps, with the final check as the decisive one |
| Network.RegisteredHasNoHeir | src/tester1/group.go:259-267 | while an instance is registered no copy of its persister exists |
| Network.ReplaceKeepsLab | src/tester1/srv.go:75-94 | replacing the persister at shutdown keeps the invariant |
| Network.PrepareKeepsLab | src/tester1/srv.go:34-47 | preparing the fresh persister at start keeps the invariant |
| Network.NextKeeps | src/tester1/group.go:235-268 | every step of requests, handlers, instances and the tester keeps the invariant |
| Network.AnsweredSavesSurvive | src/labrpc/labrpc.go:284-290 | what the handler of a call answered true saved is what the next instance started from, or an earlier save of the same instance than that |
| Network.OnlyTheOwnerWrites | src/tester1/srv.go:36-40 | a persister is written by its own instance only, and what an instance started from never changes |
| Network.AtMostOnce | src/labrpc/labrpc.go:254-311 | the handler runs at most once, at most one reply is sent, a true reply means it ran once and returned |
| Network.TrueReplyWasRegistered | src/labrpc/labrpc.go:290-311 | a true reply goes back to a moment when the handler had returned, its end was enabled and its instance was still the registered one |
| Network.DispatchIsExact | src/labrpc/labrpc.go:212-241 | a request is passed on to exactly the instance its end, enabled and connected, leads to, and fails if there is none |
| Network.HandlerWasReachable | src/labrpc/labrpc.go:238-262 | a started handler goes back to a moment when the end was enabled and connected to that server and that instance was registered |
| Network.FirstInstanceStartsEmpty | src/tester1/srv.go:41-45 | the first instance of a server starts from an empty persister |
| NetworkRestart.CallSucceeds | src/labrpc/labrpc.go:238-311 | at any moment, a new call to a registered server can save anything and be answered true |
| NetworkRestart.RequestMayBeLost | src/labrpc/labrpc.go:248-252 | a request whose handler has not been started may be answered false without it ever running |
| NetworkRestart.CutOffCallFails | src/labrpc/labrpc.go:264-290 | once its end is disabled or its server gone, a call can be answered false while its handler still runs |
| NetworkRestart.EveryCallCanFail | src/labrpc/labrpc.go:238-327 | at every moment every open call can still be answered, if only without success |
| NetworkRestart.AnyInstanceMaySave | src/tester1/srv.go:79-81 | an instance may save at any time, even after it was shut down |
| NetworkRestart.RestartWithoutShutdownLosesSave | src/tester1/group.go:234-246 | from any invariant state, after a start without shutdown a call can be answered true, saving any content but the copied one, and the next instance has started from neither that save nor a later one |
| NetworkRestart.StartIsSafeExactlyWhenDown | src/tester1/group.go:234-268 | beginning a start keeps every answered save in every continuation if and only if the server was down |
| NetworkRestart.LosingRun | src/tester1/group.go:254-268 | a run from the initial state, a start without shutdown and a continuation that loses a save |
| NetworkRestart.SurvivingRun | src/tester1/group.go:235-268 | a run in which a call is answered true, the server is shut down and started again, and the new instance is up |
| NetworkObjects.NetworkMaps.ReadEndnameInfo | src/labrpc/labrpc.go:212-226 | finds a target exactly when the end is enabled, connected and its server is up |
| NetworkObjects.NetworkMaps.IsServerDead | src/labrpc/labrpc.go:228-236 | dead exactly when the end is disabled or another server, or none, is registered |
| NetworkObjects.NetworkMaps.AddServer | src/labrpc/labrpc.go:364-369 | registers the server and changes nothing else |
| NetworkObjects.NetworkMaps.DeleteServer | src/labrpc/labrpc.go:371-376 | a nil entry is an absent server; nothing else changes |
| NetworkObjects.NetworkMaps.Enable | src/labrpc/labrpc.go:388-393 | sets one end and changes nothing else |
| NetworkObjects.NetworkMaps.Connect | src/labrpc/labrpc.go:380-385 | connects one end and changes nothing else |
| NetworkObjects.PersisterObject.Save | src/tester1/persister.go:53-58 | replaces both parts |
| NetworkObjects.PersisterObject.Copy | src/tester1/persister.go:30-37 | a new object with the same content |
| Topology.ServerGroup.Connect | src/tester1/group.go:155-171 | enables exactly the ends between i and the listed connected servers, both ways |
| Topology.ServerGroup.Disconnect | src/tester1/group.go:175-194 | disables exactly the ends between i and the listed servers, both ways |
| Topology.ServerGroup.Partition | src/tester1/group.go:302-312 | from any prior connectivity and for any lists, an end between listed servers is enabled exactly when both or neither are in the second list; all other ends are unchanged |
| Topology.ServerGroup.MakePartition | src/tester1/group.go:283-300 | the result is a majority and a disjoint minority containing l, covering all servers, if and only if the number of servers is odd |
| Topology.OddSplits | src/tester1/group.go:283-300 | the odd case |
| Topology.EvenOverlaps | src/tester1/group.go:283-300 | the even case: some server is listed twice |
| Topology.LeaderIsInMinority | src/tester1/group.go:282-312 | every server is on a side, l on the second, and the servers apart from it are a majority if and only if the number is odd, or l is 0 and there are more than two |

## Left out

- Raft, the replicated state machine, the key/value servers and clerks, the lock, the shard controller and the shard groups: their bodies are empty.
- Files, JSON, gob, reflection, sockets and plugins: encoding and decoding are the identity, a rename is atomic and succeeds.
- The FNV hash of `ihash` and `Key2Shard`: any function from keys to natural numbers.
- Fatal exits inside a run of joins and leaves: the process ends there; a refused call that returns is modelled.
- Sleeps and drop probabilities: a nondeterministic choice; a request or reply may be dropped whether or not the network is reliable.
- KvModel.Locality: versions are unbounded natural numbers, so the wrap-around of a 64-bit version after 2^64 puts is not modelled, here and in the client models.
- PutClients.PutAtLeastOnce: answers other than OK, ErrVersion and ErrMaybe are outside the step function, and so is the fatal exit they lead to.
- Network.AnsweredSavesSurvive: ShutdownServer and StartServer of one server do not overlap, and a server is started only after it was shut down or for the first time, as the source asks of its callers; NetworkRestart.StartIsSafeExactlyWhenDown says what happens otherwise.
- Network.NextKeeps: the ends disabled by a shutdown are covered by arbitrary changes to ends at any time.
- Topology.ServerGroup.MakePartition: fewer than two servers, where the source indexes an empty slice and panics.
- GidServers, Copy, String and FromString of a configuration, and the statistics counters of the network: easy members.
- Annotations, visualisation and the checkers of the Raft tests.
