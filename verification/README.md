# Rainstorm: verified model

A Dafny model of a stream-processing system that runs on its own replicated file system: the
exactly-once manager of a streaming task with its write-ahead log, the task graph a leader builds
and scales, the consistent-hash ring that places files, the gossip membership protocol, and the
append lists of replicated files. `dafny verify dfyconfig.toml` checks the whole project.

Code that updates objects in place is a class here, each of its methods proved equal to a function
on the abstract state (`View()`, a map, a sequence). What concurrent code guarantees is proved about
transition systems built from the same functions, one step per critical section or per durable
append, over every legal run.

| file | what it holds |
|---|---|
| `Wal.dfy` | log records, replay, and an account of replay by "the last record about an ID decides" |
| `ExactlyOnce.dfy` | the manager: one function per critical section, and the class that refines them |
| `TaskRuns.dfy`, `TaskTheorems.dfy` | one task as a transition system (flush in three steps, retries that overlap ACKs, crash and restore, merge), its invariant, and what every run guarantees |
| `Acknowledging.dfy`, `Resending.dfy` | over every run of a task: which tuples a flush ACKs, which a retry picks, what goes to the log with each message |
| `TaskOutput.dfy` | the loop that reads a task's output, proved to be a run of that transition system that sends the same messages |
| `LogFormat.dfy`, `LineCodec.dfy` | the log as bytes: lines, torn writes, storing and serving files; a line format that meets every condition asked of one |
| `Delivery.dfy` | a sender and a crashing receiver over a channel that drops, delays, repeats and reorders |
| `Jobs.dfy` | all tasks of a job, each sending, receiving and crashing, with scaling: what becomes of every output |
| `NodeHandlers.dfy` | a worker's TUPLE and ACK handlers |
| `Names.dfy`, `Topology.dfy`, `Leading.dfy` | task IDs and addresses, the wiring invariant, and the leader that builds and scales the graph |
| `Orders.dfy`, `Routing.dfy` | string order and sorting, routing by key |
| `Counting.dfy` | the aggregate operator |
| `Pipeline.dfy` | all tasks of a job on a wired graph: where every tuple goes, and what a stage of aggregate tasks counts |
| `Members.dfy`, `MembershipLists.dfy` | members, and the hash-sorted list as a map |
| `Ring.dfy` | placement, ownership ranges, successors, garbage collection |
| `GossipMerge.dfy`, `Clusters.dfy` | merging one list, and the whole cluster's runs |
| `Freshness.dfy` | time stamps of a membership list: when an entry is refreshed and which timeouts that makes expire |
| `Probing.dfy` | round-robin choice of gossip and ping targets |
| `Appends.dfy` | append lists of replicated files |

## Hypotheses

These are the conditions the theorems carry because the code does not establish them.

- Log appends succeed; the flush loop does not look at the result (`exactly_once.go:511-513`).
- The log's lines are newline-free, read back, and no unfinished line reads as a record (`Sound`), nor
  does an unfinished line run into a whole one (`JoinsUnreadable`); `SomeFormatIsSound` gives a format
  with all of this. The scanner's limit on the length of a line is not reached. After a write torn inside
  a line, the leftover is gone before the next append; `TornTailSwallowsTheNextRecord` says what happens
  otherwise.
- A task answers each received tuple with at most one output line (`Enabled` of `ReadLine`, `OnePerTuple`).
  None at all is possible: a filter skips a tuple that lacks the column it is to select
  (`task_executable/filter/filter.go:85-93`). A tuple is processed exactly when its line is read and counted
  (`ProcessedIffAnswered`); without one it stays unlogged until a crash, and every repeat of it is ACKed at once
  as a duplicate, so the sender forgets it all the same (`UnansweredIsForgotten`).
- `CrashRecoveryLosesNoOutput`: every forwarded output finds a target with an address (`Addressed`).
  Without it, `EveryOutputIsAccountedFor` says that nothing else is lost, and `LineSurvivesIffAddressed`
  that the address is the exact condition; `UnaddressedOutputIsLost` is a run that loses an output.
- `NoTupleLost`: a duplicate arrives only once the first copy's REC is durable (`LateDuplicates`).
  `DuplicateAckSafeIffDurable` shows that this is the exact condition for the immediate ACK of a
  duplicate to be safe whatever happens next, `EarlyDuplicateLosesTuple` gives a run that loses a tuple without it.
- `Jobs.NoOutputLost`: the same hypothesis at every task; an ACK reaches only the stage before the one that
  sent it; a killed task's log is merged into a survivor of its stage that has not seen the log's IDs.
- `Pipeline.EndToEndCounts`: no task crashes or merges a log, every write to a task's stdin succeeds, and a
  tuple ID carries one key per stage (`Keyed`, and `Enabled` of `LeaderSend`). Where tuples go is not
  assumed: each task picks from its own targets, and the wiring invariant does the rest.
- Merging a log needs tuple IDs that the survivor has not seen (`Enabled` of `Merge`). Memory merge
  and log append are one step.
- `MessagesNameTheirSender`: a retried tuple is redirected before it is sent (`RedirectsFirst`), as the retry callback does.
- An ACK is matched by tuple ID alone (`rainstorm_server.go:226-236`): it is sure to reach the right
  task exactly when one task on the node holds the ID (`SenderClearedIffSoleHolder`).
- `RefutationSticks`: merges at one server do not overlap, and the member is neither cleaned up nor
  re-admitted in between, and the server keeps its protocol (`InOrderRun`). `MergeLowersIff` and `OverlappingMergesLoseARefutation` show
  how an overlapping merge brings a refuted suspicion back.

## Where the code differs from its documentation

The model follows the code.

- `README.md:43-48` of the repository lists the REC record before processing; the code logs it after
  the last output (`exactly_once.go:176`, `exactly_once.go:207`). That order is what
  `CrashRecoveryLosesNoOutput` rests on.
- It also says (`README.md:51-52`) that an ACK is sent only after the tuple is processed and logged. The flush loop keeps
  that promise (`FlushPathDurability`); the duplicate path does not (`rainstorm_server.go:147-151`).
- A failed write to a task's stdin leaves the tuple recorded as received, so repeats are ACKed and the
  tuple cannot be processed before the next crash; with a successful write it always can
  (`ProcessableIffWritten`).
- A job submission replaces the job spec before it can fail (`leader.go:120`), so after a failed one the old
  graph stands under the new spec; `FailedSubmissionKeepsWiringIff` says when it is still wired.
- The comments in `ring.go:73-77` describe a range that starts after the member `replicationFactor - 1`
  places back; the code starts it after the member `replicationFactor` places back. The latter is the
  one that matches placement (`KeptIffTarget`). With fewer members than the replication factor the
  index can be negative (`AllKeyRangePanics`).
- With fewer members than the replication factor a file's primary is among its targets more than once
  (`TargetsRepeatIff`).
- A merge stamps a live entry it stores with the present time, but stores a final one as it came, time stamp
  included (`MergeByStanding`); the lists that are sent carry none. A member that left is never removed from the
  list (`TimeoutsCountFromLastRefresh`).
- Garbage collection keeps exactly a node's target files if and only if the member its range starts at
  is alive (`CollectsExactlyIff`); otherwise a replica that placement still wants is deleted.
- Probing notices a membership change only by the number of candidates (`protocols.go:30`): a node that
  joins as another one dies is not probed until the number changes (`EveryCandidatePickedIff`).
- Client time stamps are compared as strings (`metadata.go:82`), which is their order in time only as
  far as `StringOrderAgreesIff` says.

## Model

| member | source | states |
|---|---|---|
| `Wal.ReplayLatestWins` | exactly_once.go:366-386 | scanning a log keeps, for every ID, the effect of the last record about it, and nothing else |
| `Wal.RecordsAppend` | exactly_once.go:347-364 | blank and malformed lines are skipped, so the records of two appended files are the records of the one then the other |
| `Wal.ReplayAppend` | exactly_once.go:366-386 | replaying an appended log is replaying its parts in order |
| `Wal.ReplayCommutes` | exactly_once.go:432-453 | logs about different IDs can be replayed in either order |
| `Wal.ReplayIdempotent` | exactly_once.go:432-453 | replaying the same log twice changes nothing |
| `Wal.ReplayDisjointIsUnion` | exactly_once.go:432-453 | a log about fresh IDs adds exactly what it would restore alone |
| `Wal.RestoredIsRecorded` | exactly_once.go:367-374 | restored received IDs are exactly those with a REC record |
| `Wal.SentSurvivesUnlessAcked` | exactly_once.go:375-385 | a SENT record survives replay unless the log also holds its ACK |
| `ExactlyOnce.ExactlyOnceManager.constructor` | exactly_once.go:285-289 | a new manager is empty, or restored from its log when it is no source |
| `ExactlyOnce.ExactlyOnceManager.AddReceivedTuple` | exactly_once.go:120-148 | false exactly for a known ID; a new one is recorded unprocessed; sources track nothing |
| `ExactlyOnce.ExactlyOnceManager.SetExpectedOutputCount` | exactly_once.go:152-186 | all four outcomes: unknown, already complete without a log record, no outputs with REC and ACK queued, waiting |
| `ExactlyOnce.ExactlyOnceManager.IncrementOutputCount` | exactly_once.go:190-218 | the output that completes the tuple marks it, logs REC and queues its ACK; others only count |
| `ExactlyOnce.ExactlyOnceManager.AddSentTuple` | exactly_once.go:222-244 | tracked and logged as SENT, except at the final stage |
| `ExactlyOnce.ExactlyOnceManager.RemoveSentTuple` | exactly_once.go:247-264 | removed and logged as ACK exactly when it was there |
| `ExactlyOnce.ExactlyOnceManager.LogRecord` | exactly_once.go:463-483 | the record goes to the end of the buffer |
| `ExactlyOnce.ExactlyOnceManager.SnapshotForFlush` | exactly_once.go:497-508 | the flush takes the buffer and the ACK list and leaves both empty |
| `ExactlyOnce.ExactlyOnceManager.RetryPendingSends` | exactly_once.go:544-561 | the scan selects exactly the entries last sent an interval ago or earlier, each once, and stamps those entries and no others |
| `ExactlyOnce.ExactlyOnceManager.RestoreFromLogs` | exactly_once.go:285-397 | the scanning loop is replay of the log's records |
| `ExactlyOnce.ExactlyOnceManager.MergeStateFromLocalWal` | exactly_once.go:403-459 | the merging loop is replay on top of what memory holds |
| `Acknowledging.ProcessedIsAcked` | exactly_once.go:166-181 | in every run each processed tuple with a sender is ACKed, in the flush round under way, or pending, a tuple without outputs included; only tuples with a sender and a durable REC are ACKed |
| `Acknowledging.FlushRoundAcks` | exactly_once.go:490-529 | a flush round ACKs everything processed when it began, whatever steps come in between |
| `Acknowledging.RunQueuesOnce` | exactly_once.go:497-508 | no tuple waits for an ACK twice, and none waits again once ACKed by a flush |
| `Resending.RetriedIffDue` | exactly_once.go:544-561 | in every run a scan picks a tracked tuple if and only if the last step that sent or picked it lies at least an interval back, the last surviving SENT record counting after a crash or merge |
| `Resending.LogIsWhatWasWritten` | exactly_once.go:463-529 | the log grows by exactly the records of the steps taken, in order, flushing included: REC with the last output, SENT with each message, ACK for a tracked tuple |
| `Resending.EveryMessageIsLoggedOnce` | rainstorm_client.go:56-66 | the SENT records a run writes are the messages it sends: each once, with its destination, in order |
| `Resending.FinalStageSendsNothing` | nodemanager.go:697-704 | a task of the final stage sends no task a tuple |
| `Resending.MessagesNameTheirSender` | exactly_once.go:584-592 | every message, a retry of a killed task's tuple included, names the task that sends it, so that its ACK finds a task that is there |
| `Resending.RetriesGoWhereRedirected` | exactly_once.go:595-624 | a retry is one message to the task it was last redirected to, from this task, whatever task the tuple first went to |
| `TaskRuns.StepInv` | exactly_once.go:118-264 | every step of a task keeps memory equal to the replayed log, the reading loop's bookkeeping, and the REC-before-ACK order |
| `TaskRuns.RunInv` | exactly_once.go:485-570 | the same over every run, with flush steps, retries, crashes and merges interleaved in any way |
| `TaskRuns.MergeReplay` | nodemanager.go:792-805 | merging in memory equals replay of keepWAL ++ oldWAL ++ keepBuffer |
| `TaskTheorems.MemoryAgreesWithLog` | exactly_once.go:152-264 | at every lock release, replaying durable ++ in-flight ++ buffered records gives the sent map and the processed received tuples |
| `TaskTheorems.CrashRecoveryLosesNoOutput` | nodemanager.go:658-677 | for every run and every record prefix that survives a crash, each output of a restored received tuple is pending or acknowledged |
| `TaskTheorems.EveryOutputIsAccountedFor` | nodemanager.go:696-750 | in every run and after every crash, each output of a restored received tuple is pending, acknowledged, or was dropped for want of an address |
| `TaskTheorems.LineSurvivesIffAddressed` | nodemanager.go:658-677 | from any reachable state, all outputs of a line survive a crash that keeps its REC if and only if each found an addressed target |
| `TaskTheorems.UnaddressedOutputIsLost` | nodemanager.go:706-717 | without an addressed target, a run ends with a durable REC and no trace of the output |
| `TaskTheorems.RunOutputInv` | rainstorm_client.go:56-66 | every REC in the log is preceded by a SENT for each output of its tuple that was not dropped |
| `TaskTheorems.FlushPathDurability` | exactly_once.go:497-529 | the flush loop never ACKs a tuple whose REC is not durable, however steps interleave |
| `TaskTheorems.ReadLineNeverSkipsTheLog` | exactly_once.go:166-171 | the branch that completes a tuple without a log record is unreachable from the reading loop |
| `TaskTheorems.AtMostOnceProcessing` | rainstorm_server.go:144-173 | an ID reaches stdin once per incarnation, and never again once its REC is durable, through any crashes |
| `TaskTheorems.DurableGrows` | exactly_once.go:510-513 | the durable log only grows, crashes included |
| `TaskTheorems.KilledLogCanBeMerged` | nodemanager.go:752-757 | the log of any killed task is fit to be merged: RECs are processed, their outputs known, and only dropped ones lack a SENT |
| `TaskTheorems.ScaleDownMergeIsSound` | exactly_once.go:403-459 | the survivor equals a replay of the merged log and holds the union of both tasks' un-ACKed sends and received IDs |
| `TaskTheorems.SecondMergeIsHarmless` | exactly_once.go:403-459 | merging the same log again at once changes nothing in memory |
| `TaskOutput.ForwardTupleToDownstream` | nodemanager.go:696-750 | an output is tracked for the task its key selects and one message goes to that task's address; without an address, or at the final stage, neither happens |
| `TaskOutput.Network.Post` | rainstorm_client.go:65-65 | a message is sent only for a tuple that is tracked already, unless nothing is tracked at the final stage |
| `TaskOutput.SendTuple` | rainstorm_client.go:56-66 | the tuple is tracked first, then exactly one message goes out; the tuple stays tracked whatever becomes of it |
| `TaskOutput.ReadTaskOutput` | nodemanager.go:604-683 | the loop sets the expected count, then forwards and counts each output of each well-formed line; which messages go out, in order |
| `TaskOutput.ReadingPosts` | nodemanager.go:615-677 | the messages the loop sends are those of the transition system's legal run, in the same order and each as often |
| `TaskOutput.ReadingIsARun` | nodemanager.go:615-677 | with one line per tuple, the loop is a legal run of the transition system that ends in the same manager state |
| `LogFormat.ReadBack` | exactly_once.go:461-483 | scanning the lines that were written gives the records back |
| `LogFormat.TornLog` | exactly_once.go:347-364 | wherever the bytes are cut, what is read is a prefix of the records |
| `LogFormat.CrashRecoveryFromBytes` | exactly_once.go:345-387 | crash recovery loses no output for any byte prefix of the log that survives |
| `LogFormat.TornTailSwallowsTheNextRecord` | grpc_server.go:236-252 | an append after a line cut short loses exactly its first record, and loses none if and only if nothing of the cut line is left |
| `LineCodec.SomeFormatIsSound` | exactly_once.go:461-483 | there is a line format with every property the log theorems ask for |
| `LogFormat.FileServer.AppendTransfer` | grpc_server.go:205-283 | a log append extends the log's one file, any other becomes a file of its own listed in the metadata; an unknown file changes nothing |
| `LogFormat.FileServer.GetFile` | grpc_server.go:95-170 | the base file and its appends in listed order, newlines between, missing ones skipped |
| `LogFormat.ReadAfterAppend` | grpc_server.go:95-170 | after an append the file is served with the new data where the append stands in the list, at the end unless a later append of its client is there, and with the other parts' bytes unchanged |
| `LogFormat.LogReadAfterAppend` | grpc_server.go:224-250 | a log is served with the old bytes and then the new ones, no separator between |
| `LogFormat.OtherFilesReadTheSame` | grpc_server.go:251-268 | an append does not change what is served of a file that does not use its ID |
| `LogFormat.SeparatorsAreSkipped` | grpc_server.go:152-165 | the newlines put between files do not show in the records read |
| `LogFormat.BothLayoutsReadAlike` | grpc_server.go:224-268 | one growing file and separate append files give the same records |
| `Delivery.NoTupleLost` | exactly_once.go:222-264 | every tuple ever tracked by the sender is still tracked or has a durable REC at the receiver, over all interleavings with late duplicates |
| `Delivery.DuplicateAckSafeIffDurable` | rainstorm_server.go:146-155 | after the immediate ACK of a duplicate, every continuation keeps the tuple tracked or durable if and only if the first copy's REC was durable |
| `Delivery.EarlyDuplicateLosesTuple` | rainstorm_server.go:146-155 | a five-step run that loses a tuple after an early duplicate |
| `Delivery.ProcessableIffWritten` | rainstorm_server.go:144-173 | a new tuple can still be processed without a crash if and only if its write to stdin succeeded |
| `Delivery.FailedStdinWriteBlocksTuple` | rainstorm_server.go:144-173 | after a failed stdin write a tuple is taken for a duplicate and never processed until a crash |
| `Delivery.ProcessedIffAnswered` | nodemanager.go:615-677 | a tuple on stdin is processed before the next crash if and only if its line is read and all the line's outputs are counted |
| `Delivery.UnansweredIsForgotten` | task_executable/filter/filter.go:85-93 | a tuple that gets no line is never processed or logged before the next crash, and its repeats are taken for duplicates |
| `Jobs.StepInv` | rainstorm_server.go:144-200 | every step of any task, every delivery, ACK and scale operation keeps each task's invariant, and every ACK sent or logged stands for a REC that is durable one stage on |
| `Jobs.RunInv` | resource_manager.go:195-265 | the same over every run of a job whose tasks come and go |
| `Jobs.NoOutputLost` | exactly_once.go:222-264 | in every run of a job with crashes, retries, repeated deliveries and scaling, each output of every tuple a restored task treats as received is tracked again, durably received one stage on, or was dropped for want of an address |
| `Jobs.SettledTaskIsComplete` | exactly_once.go:247-264 | with every output addressed, a task with nothing left to resend has all outputs of all its processed tuples durable one stage on |
| `NodeHandlers.NodeManager.HandleTupleMessage` | rainstorm_server.go:112-182 | which reply each tuple gets, when it reaches stdin, when it is recorded and when a duplicate's ACK goes out |
| `NodeHandlers.NodeManager.SendAckForTuple` | rainstorm_server.go:185-200 | an ACK goes to the sender's listed address, or nowhere |
| `NodeHandlers.NodeManager.HandleAckMessage` | rainstorm_server.go:203-270 | one holder of the ID is cleared, tasks before the leader, and nothing else changes |
| `NodeHandlers.SenderClearedIffSoleHolder` | rainstorm_server.go:226-236 | an ACK is certain to clear its sender if and only if no other task on the node holds the ID |
| `Names.TaskIdInjective` | leader.go:228-228 | tasks of different stages or indexes never share an ID |
| `Names.TaskIdIsNotLeader` | leader.go:242-242 | no task ID collides with the leader's name |
| `Names.TaskAddressReadsBack` | leader.go:509-517 | a task's address is its node's host with a port 2000 above the node's |
| `Names.TaskAddressInjective` | leader.go:509-517 | tasks on different nodes have different addresses |
| `Topology.WiringIsSymmetric` | leader.go:521-544 | t sends to u at u's address iff u ACKs t at t's address iff u's stage follows t's |
| `Topology.WiringIsClosed` | leader.go:237-261 | only tasks and, at the first stage, the leader under the source address are listed, each with an address, and exactly the last stage sends nowhere |
| `Topology.ScaleUpKeepsWiring` | resource_manager.go:146-177 | adding a task keeps the wiring invariant of every pair, even when its ID repeats an existing one |
| `Topology.ScaleDownKeepsWiring` | resource_manager.go:249-263 | removing a task keeps it, and no stage becomes empty |
| `Topology.ScalingKeepsWiring` | resource_manager.go:95-265 | the same after any sequence of scale operations |
| `Leading.Leader.CreateTopology` | leader.go:223-266 | every stage gets its tasks, each listing exactly the neighbouring stages |
| `Leading.Leader.ComputeTaskAssignments` | leader.go:494-551 | tasks are dealt round the alive nodes in some order, and both passes together fill in every address |
| `Leading.DealtInTurn` | leader.go:497-503 | the i-th task dealt gets the i-th alive node, going round |
| `Leading.Leader.SubmitJob` | leader.go:114-147 | a submitted job's graph is wired, with the requested number of tasks in each stage; what each of the two failures leaves behind |
| `Leading.FailedSubmissionKeepsWiringIff` | leader.go:119-129 | after a submission that found no member the old graph is wired under the new spec if and only if the stage count and, if any stage, the source are unchanged |
| `Leading.Leader.ScaleUpStage` | resource_manager.go:96-178 | in-place wiring of one new task: succeeds exactly for a valid stage of an existing graph with an alive node, takes the next node in turn, keeps the wiring |
| `Leading.Leader.ScaleDownStage` | resource_manager.go:195-265 | removes one task of a stage exactly when it has another, names a survivor that is still assigned, keeps the wiring |
| `Routing.SelectDownstreamTask` | nodemanager.go:812-831 | the choice depends on the set of targets and the key's hash only, whatever the map iteration order |
| `Routing.SelectTaskByKey` | nodemanager.go:838-882 | the leader's choice among running stage-1 tasks, with its fallback |
| `Routing.PickRank` | nodemanager.go:818-827 | the choice in terms of the set alone: as many IDs compare less than the chosen one as the hash leaves modulo their number |
| `Routing.LeaderSendsToServing` | nodemanager.go:843-868 | while a stage-1 task is not reported as other than running, the leader with autoscaling sends to such a task, and otherwise to a given candidate |
| `Routing.ServingIsReached` | nodemanager.go:843-868 | each such task gets the tuples of some hash |
| `Routing.PickReachesAll` | nodemanager.go:824-827 | every target is reached by some hash |
| `Routing.RoutingIsKeyAffine` | nodemanager.go:812-831 | under the wiring invariant two tasks of a stage send a key to the same current task at its non-empty address |
| `Routing.RoutingIgnoresOtherStages` | exactly_once.go:615-622 | scaling a stage other than a task's own and the next does not move its keys |
| `Orders.SortKeys` | nodemanager.go:818-822 | the sorted list of the keys, whatever order they are gathered in |
| `Orders.SortedUnique` | nodemanager.go:822-822 | a set of strings has one sorted listing |
| `Counting.Aggregate` | task_executable/aggregate/aggregate.go:30-78 | one output per data line, carrying the number of lines with its key so far |
| `Counting.EachReadIsAnsweredOnce` | task_executable/aggregate/aggregate.go:63-78 | the lines answer the tuples read, each once and in order |
| `Counting.LastValueIsCount` | task_executable/aggregate/aggregate.go:51-60 | the last value emitted for a key is the number of its data lines |
| `Counting.LastValueCountsDistinct` | task_executable/aggregate/aggregate.go:51-60 | with each ID read once, the last value for a key is the number of IDs that carry it |
| `Pipeline.WiredTaskDropsNothing` | nodemanager.go:696-750 | on a wired graph the reading loop of a task before the last stage drops no output and sends each to where its key belongs in the next stage |
| `Pipeline.EntryIsLeaderChoice` | nodemanager.go:838-882 | with all stage-1 tasks running, the leader's choice is the task of stage 1 where the key belongs, at its own address, whatever candidates it is given |
| `Pipeline.WiredIsCoherent` | leader.go:521-544 | on a wired graph, the leader and every task send a key to the same current task of the next stage, at its own address |
| `Pipeline.RunInv` | nodemanager.go:696-750 | over every run of all tasks, with retries and repeated deliveries, everything tracked or sent is on its key's way |
| `Pipeline.EveryTupleGoesHome` | nodemanager.go:812-831 | every message ever sent arrives, late or repeated, at the one task of its stage that the key selects |
| `Pipeline.EndToEndCounts` | rainstorm_server.go:144-173 | an aggregate task counts key k only if routing selects it, and then the last value it emits is the number of distinct IDs with k delivered to its stage |
| `MembershipLists.MembershipList.AddOrUpdate` | membership_list.go:18-37 | one entry of the map is written, the list stays hash-sorted with unique IDs |
| `MembershipLists.MembershipList.SortNodes` | membership_list.go:40-49 | a hash-sorted permutation, the same map |
| `MembershipLists.MembershipList.Remove` | membership_list.go:51-63 | the entry is gone, the rest of the map and the order stay |
| `MembershipLists.MembershipList.Snapshot` | membership_list.go:146-156 | the map the list stands for |
| `MembershipLists.MembershipList.MarkSuspectIfNeeded` | membership_list.go:65-144 | collecting, updating in place, removing by descending index and sorting amount to one pointwise step of the map, and the members declared dead are reported |
| `MembershipLists.MembershipList.ApplyRemovals` | membership_list.go:132-136 | removal by descending index removes exactly the collected positions |
| `GossipMerge.EntryMergeIsMax` | membership_merge.go:72-166 | in gossip mode merging an entry takes the larger of (incarnation, status, heartbeat), Dead and VoluntaryLeave being one top |
| `GossipMerge.SweepNeverLowers` | membership_list.go:76-119 | a timeout sweep never lowers an entry it keeps |
| `GossipMerge.Server.CheckTimeouts` | server.go:136-147 | the sweep, and the pending set of failed members it adds to |
| `GossipMerge.Server.MergeMembership` | membership_merge.go:8-70 | the merge loop, with its pending sets and the server's own incarnation |
| `GossipMerge.MergeIsJoin` | membership_merge.go:8-70 | one received list moves every other member's entry to the maximum of the two |
| `GossipMerge.DeliveriesAreLeastUpperBound` | membership_merge.go:8-70 | any sequence of lists leaves the least upper bound of the start and everything received |
| `GossipMerge.DeliveryOrderDoesNotMatter` | membership_merge.go:8-70 | the same lists in any order, with repeats, from any senders and at any times, give the same keys |
| `Freshness.MergeByStanding` | membership_merge.go:72-166 | under either protocol a live entry that stands higher, or under ping-ack is the member's own word, is stored under the present time, any other leaves the local one, a final one is stored as it came |
| `Freshness.SenderClockDoesNotMatter` | membership_merge.go:87-166 | the sender's time stamp plays no part in what is stored of a live entry |
| `Freshness.TimeStampIsLastRefresh` | membership_merge.go:8-166 | in every run of merges and sweeps an entry's time stamp is the time of the last event that changed its standing or was its own word |
| `Freshness.TimeoutsCountFromLastRefresh` | membership_list.go:76-119 | a sweep suspects, declares dead or removes another member if and only if its last refresh is further back than the timeout that applies |
| `Freshness.EveryChangeIsNoted` | membership_merge.go:20-40 | whoever turns dead or left is noted as failed, whoever is noted is dead or left, and exactly the new members are noted as joined |
| `Freshness.RefutationIsFresh` | membership_merge.go:40-50 | a server that refutes a suspicion is not suspected by itself until the timeout has passed again |
| `Clusters.IncarnationBound` | membership_merge.go:40-50 | in every reachable cluster state, whatever protocols its servers switch between, no list, snapshot or message carries an incarnation for a member above its own number |
| `Clusters.RefutationExceedsEverySuspicion` | membership_merge.go:40-50 | a self-refutation strictly exceeds the suspicion it answers and every other entry for the server anywhere |
| `Clusters.RefutationReplacesSuspicion` | membership_merge.go:83-94 | with suspicion on, merging the refuting entry turns every entry of that time that is not terminal into an Alive one |
| `Clusters.RunNeverLowers` | membership_merge.go:8-70 | while merges of a server do not overlap, its entry for another member never goes down |
| `Clusters.RefutationSticks` | membership_merge.go:87-94 | a server that has merged an Alive entry never again holds a Suspect one of a lower incarnation |
| `Clusters.MergeLowersIff` | membership_merge.go:9-32 | a merge lowers an entry if and only if both its snapshot and the received entry are out of date |
| `Clusters.OverlappingMergesLoseARefutation` | membership_merge.go:9-66 | two overlapping merges bring a refuted suspicion back |
| `Ring.GetPrimaryKeyRange` | ring.go:32-58 | the range from the nearest alive predecessor to the node, going round; none only without the node or any alive member |
| `Ring.GetAllKeyRange` | ring.go:62-82 | the range from the member replicationFactor places back |
| `Ring.AllKeyRangePanics` | ring.go:74-75 | the index leaves the list if and only if the reach exceeds the list by more than the node's position, and not by whole laps |
| `Ring.GetFilesWithinRange` | ring.go:85-106 | each file whose hash the range test accepts, once |
| `Ring.GetSuccessors` | ring.go:124-139 | the n-1 nearest alive members after the node, nearest first, without the node itself, fewer only when no other alive member is left |
| `Ring.FindPrimary` | hydfs_operations.go:423-445 | the first alive member at or after the hash, else the first alive one |
| `Ring.FindTargetNodes` | hydfs_operations.go:415-461 | the alive ones among the replicationFactor members from the primary on, and none that is not alive |
| `Ring.PrimaryRangesPartition` | hydfs_operations.go:423-445 | a hash lies in an alive node's primary range if and only if placement puts that node first |
| `Ring.ExactlyOneOwner` | ring.go:110-121 | exactly one alive node owns each hash by its nearest alive predecessor, wrap-around and a single alive node included |
| `Ring.TargetsArePrimaryAndSuccessors` | hydfs_operations.go:451-458 | targets are the primary and a prefix of its successors |
| `Ring.TargetIffWithinReach` | hydfs_operations.go:451-458 | a member is a target if and only if it is alive and lies within replication reach of the primary |
| `Ring.TargetsRepeatIff` | hydfs_operations.go:451-458 | targets come nearest first, and none is listed twice if and only if there are at least replicationFactor members |
| `Ring.SuccessorsAreNearest` | ring.go:124-139 | what GetSuccessors lists is alive, in order of distance, not the node itself, and leaves out no nearer alive member |
| `Ring.KeptIffTarget` | ring.go:322-339 | what an alive node keeps it is a target for, and the converse when every member is alive |
| `Ring.CollectsExactlyIff` | ring.go:322-339 | collection deletes exactly the files a node is no target for if and only if the member its range starts at is alive |
| `Ring.DeadMemberCanCostAReplica` | ring.go:62-82 | a four-member ring on which a dead member makes a target drop its file |
| `Ring.DeleteFilesOutsideMyRange` | ring.go:322-360 | the metadata that remains: exactly the files in range |
| `Appends.InsertAppend` | metadata.go:78-93 | the splice loop inserts before the first later append of the same client |
| `Appends.Metadata.AddFile` | metadata.go:104-114 | one file is added or overwritten, and has a lock |
| `Appends.Metadata.AppendToFile` | metadata.go:133-157 | fails exactly for a file that does not exist, ignores a known ID, and changes no other file |
| `Appends.Metadata.DeleteFile` | metadata.go:172-190 | true exactly when the file was there; file and lock go together |
| `Appends.RecordKeepsOrder` | metadata.go:78-93 | IDs stay unique, existing appends keep their order, each client's appends stay sorted by time stamp |
| `Appends.SameContentsSameOrder` | metadata.go:78-93 | two replicas with the same appends list each client's in the same order |
| `Appends.ReplicasConverge` | metadata.go:133-157 | the same appends in any order, with repeats, give every client's subsequence the same order |
| `Appends.ClientsMayInterleaveDifferently` | metadata.go:78-93 | whole lists need not agree: two clients' appends stay in arrival order |
| `Appends.StringOrderIsTimeOrder` | metadata.go:73-83 | numerals of one length compare as the times they stand for |
| `Appends.StringOrderAgreesIff` | metadata.go:73-83 | exactly when an earlier numeral also sorts first |
| `Probing.RoundRobin.SelectNextKNodes` | protocols.go:16-52 | which calls rebuild the order, what they return and where they leave the pointer |
| `Probing.RoundRobin.Shuffle` | protocols.go:33-35 | shuffling keeps a listing of the candidates a listing of them |
| `Probing.PicksAreCyclic` | protocols.go:40-51 | without a rebuild, the results of any calls put together go round the order |
| `Probing.EveryWindowListsTheOrder` | protocols.go:40-51 | any n consecutive picks list the order exactly once |
| `Probing.ProbingIsTimeBounded` | protocols.go:29-51 | from a rebuild on, while the candidate set stays, any n consecutive picks contain each candidate exactly once (section 4.3 of Das, Gupta and Motivala, SWIM, DSN 2002) |
| `Probing.EveryCallPicks` | protocols.go:40-51 | n calls that ask for at least one node make at least n picks |
| `Probing.CallPicksDistinct` | protocols.go:40-51 | a call returns as many different nodes as asked for, or all candidates there are |
| `Probing.CountChangeRedraws` | protocols.go:29-38 | after a call the order has as many nodes as there are candidates, and it is drawn from them when their number has changed |
| `Probing.PickedWasEligible` | protocols.go:16-51 | in every run whoever is picked was listed when the order in use was drawn, and was neither dead nor the node itself |
| `Probing.EveryCandidatePickedIff` | protocols.go:29-38 | after n picks without a rebuild, every current candidate has been picked if and only if the set is the one the order was drawn from |
| `Probing.SwappedInNodeIsNeverPicked` | protocols.go:29-38 | a node that joined as another died is not picked while the count stays |

## Left out

- Network transport, the JSON and CSV syntax itself, process spawning, pipes, CLI, logging, bandwidth counters: messages
  are values that may be lost, delayed, repeated and reordered.
- HyDFS reads and appends of the log: one atomic append to a durable sequence that succeeds; a crash
  keeps any record-level prefix that includes what was already durable.
- Clocks, tickers and random choices are parameters; hashes (SHA-1, FNV) are parameters or fields.
- `Leading.Leader.ScaleDownStage`: with a task that has no assignment, which a wired graph excludes, it may refuse depending on the task it picks.
- Task objects of the graph are values in the leader's map, and the managers a worker's handlers see are
  values in its map: sharing a task or manager object between maps is not captured.
- Node addresses are host and port pairs: splitting them, and IPv6 brackets, are not modelled.
- SetExpectedOutputCount, IncrementOutputCount and the other counters use unbounded integers.
- Autoscale's decision, throughput averages, health monitoring and task restart: InitializeTask rejects a
  task that exists, so crash and restore are modelled directly.
- UpdateTopology and the time between a scale operation and its arrival at workers, when routing tables differ.
- The final stage's output buffer, flushed apart from the log: no exactly-once claim about the output file.
- executeMerge and stabilizeRing: the primary's list is a stale snapshot that can overwrite a successor's
  extra appends, so no convergence claim beyond AppendToFile.
- Jobs with neither exactly-once nor autoscaling, which hand SendTuple a nil manager.
- The server's own entry in the gossip-join theorems: heartbeats overwrite it directly (`server.go:192-203`).
- A slice returned by GetFile shares its backing array with later insertions; append lists are values here.
- handleDeadNode and handleNewlyJoinedNode start a goroutine each; only the sets of pending IDs are kept.
- `Clusters.RefutationSticks`: says nothing across a clean-up, a repeated join request or overlapping merges of one server.
- `Delivery.NoTupleLost`: one sender that does not crash, as the leader; tasks that send and crash are covered by `Jobs.NoOutputLost`.
- `Jobs.NoOutputLost`: a REC counts wherever in the next stage it is durable; that only the task the key selects
  receives a tuple is proved without crashes, by `Pipeline.EveryTupleGoesHome`.
- `Pipeline.EndToEndCounts`: no crash, no merge, no failed stdin write and a fixed topology; keyCounts lives in the operator's process and is lost with it.
- Killing the previous job's tasks on submission is a remote call; the graph does not record it.
