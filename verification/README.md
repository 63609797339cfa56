# Verified model of the Tríade engine's hard cores

A Dafny 4.11 model of the parts of Tríade whose own code holds protocol state, undoable
changes to a database, or exact arithmetic, with proofs of what they promise.

| file | what it models |
|---|---|
| `Base64Url.dfy`, `CursorJson.dfy`, `StreamCursor.dfy` | the id of a server-sent event: a cursor printed as sorted JSON, then as base64url without padding, and the decoder that accepts it or refuses it as a whole |
| `PyText.dfy`, `WordRuns.dfy`, `TextSharding.dfy` | cutting a text into shards at word boundaries |
| `Sums.dfy`, `MergeResults.dfy`, `MergeMeaning.dfy`, `ResourceTotals.dfy`, `ResourceMeaning.dfy` | merging node results, and the two totals over one node list |
| `Relay.dfy`, `RelayOverlap.dfy` | the public relay: jobs and their audit rows through creation, delivery and result, and polls that overlap |
| `LeaseContract.dfy`, `TaskLeases.dfy`, `TaskRecovery.dfy`, `TaskReceipts.dfy`, `RecoveryWorker.dfy` | leased tasks, workers that crash or go stale at any step, the receipts they leave, the process itself, and the supervisor |
| `FederatedKnowledge.dfy` | the knowledge table that evidence and revocations write |
| `AgentQueue.dfy`, `AgentResults.dfy` | the mobile agent: submitters and worker threads over one job table and one queue |
| `SchemaRetirement.dfy`, `Tables.dfy`, `MetabolicBackfill.dfy`, `MetabolicRollback.dfy`, `RunBackfill.dfy` | three changes to a live database, each with its undo, with other writers in between |
| `EducationDiff.dfy` | the log of changes between samples, and its replay |
| `Options.dfy`, `Ordering.dfy` | an optional value; sorted listings of finite sets |

Objects whose methods change their fields are classes, and each method is proved against a
function of the old state. Protocols are state machines: `Step` is one atomic section of the
original, `IsRun` an arbitrary interleaving from the initial state, and the theorems hold in
every state of every run. Digests are arbitrary functions; time, fresh ids and what other
writers do are parameters.

Where a property that one would expect fails, the file keeps the code as it is, exhibits an
input, and proves exactly when the property holds:

- A receipt on disk is not fenced: a stale worker overwrites that of its successor
  (`TaskReceipts.StaleReceiptIsReachable`). It is the completing worker's receipt exactly when
  the last worker to write it still owned the task at that moment
  (`TaskReceipts.ReceiptBelongsToFinalLease`).
- A revocation that overtakes its evidence is lost (`FederatedKnowledge.EarlyRevocationIsLost`),
  and of two senders of one evidence the first stays (`FederatedKnowledge.TwoVersionsDiverge`).
  Two nodes that receive the same messages agree exactly when, for every id, the first evidence
  has the same digest and sender and a revocation comes late in both or in neither
  (`FederatedKnowledge.ConvergenceExactly`).
- A job can be delivered twice, and a completed job set running again
  (`RelayOverlap.DoubleDelivery`). It is delivered twice exactly when two polls of one node
  select it before either updates it (`RelayOverlap.DeliveredTwiceExactly`).
- The audit row keeps the hash of an old error after a result without one
  (`Relay.StaleErrorHash`). It holds the hash of the job's own error exactly when the job has
  one, or no result ever carried any (`Relay.ErrorHashIsCurrentExactly`).
- A cut that finds no blank in its window drops a letter (`TextSharding.LetterIsLost`); the
  shards join back exactly when there is no such cut (`TextSharding.ShardsJoinBackExactly`).
- A row that a writer adds to a table between its recheck and its drop is destroyed
  (`SchemaRetirement.LateRowIsLost`). Nothing else is lost (`SchemaRetirement.Database.Apply`),
  and nothing at all exactly when there is no such writer
  (`SchemaRetirement.NothingIsLostExactly`).
- The metabolic backfill gives up exactly when an orphan need appears under two cycles
  (`MetabolicBackfill.TwoCyclesConflict`) or a parent has been created since its queries
  (`MetabolicBackfill.CreatedMeanwhileConflict`). It has no recheck: a receipt that arrives
  after the queries stays an orphan (`MetabolicBackfill.LateReceiptStaysOrphan`), and the gap
  closes under the condition of `MetabolicBackfill.ApplyClosesTheGapExactly`.
- All manifests of the metabolic backfill share one marker, so an old one can delete the rows
  of a later apply (`MetabolicRollback.OldManifestDeletesNewRows`). It spares them exactly when
  none of its ids was missing again (`MetabolicRollback.OlderManifestIsSafeExactly`).
- The run backfill fails before its transaction on a run without any time
  (`RunBackfill.UntimedOrphan`), and its revert takes earlier rows along if they satisfy its
  `LIKE` (`RunBackfill.QuotingRunIsReverted`, `RunBackfill.RevertUndoesBackfillExactly`).
- The observation log has no entry for a session that disappears
  (`EducationDiff.VanishedSessionIsKept`), so its replay is exact when the last good sample
  still has every session ever seen, and only then (`EducationDiff.LogReplaysExactly`).

## Model

| member | source | states |
|---|---|---|
| Base64Url.ScanInvertsEncode | apps/internal_graphs_live.py:694-706 | base64url decoding undoes encoding for every byte string |
| Base64Url.DataLengthMod | apps/internal_graphs_live.py:697-705 | the unpadded length is never 1 mod 4, and `-len % 4` completes it to whole groups |
| Base64Url.EncodeShape | apps/internal_graphs_live.py:697 | the encoding is URL-safe characters followed by padding alone, so `rstrip` removes the padding and nothing else |
| Base64Url.PaddingRestored | apps/internal_graphs_live.py:697-706 | re-padding the stripped text gives the encoding back, and it decodes to the bytes |
| CursorJson.ParseNatInvertsDecimal | apps/internal_graphs_live.py:696-706 | a printed position, followed by anything but a digit, reads back as itself |
| CursorJson.ParseObjectInvertsObjectText | apps/internal_graphs_live.py:696-706 | the compact sorted JSON of a cursor parses back to exactly its members |
| StreamCursor.ValidateIsAllOrNothing | apps/internal_graphs_live.py:707-715 | a decoded object is accepted exactly when every member is a non-negative integer or a boolean, and then no member is lost or changed |
| StreamCursor.EncodedIsUrlSafe | apps/internal_graphs_live.py:694-697 | an encoded cursor is not empty, needs no escaping in a URL, and is never 1 mod 4 long |
| StreamCursor.PayloadRoundTrip | apps/internal_graphs_live.py:694-716 | apart from the length limit, decoding undoes encoding |
| StreamCursor.RoundTrip | apps/internal_graphs_live.py:694-718 | decoding an encoded cursor returns it if it has at most 1024 characters and nothing otherwise |
| StreamCursor.EncodeIsInjective | apps/internal_graphs_live.py:694-697 | different cursors have different ids |
| PyText.JoinIsClean | apps/services.py:449 | the words joined by single blanks have no blank at either end and no two in a row |
| PyText.WordsOfJoin | apps/services.py:449 | splitting the joined words gives the words back |
| WordRuns.WordsKeepLetters | apps/services.py:449 | the words of any text, put together, are its characters other than white space, in order |
| WordRuns.WordsAreRuns | apps/services.py:449 | the words of any text are exactly its maximal runs without white space, in order |
| WordRuns.NormalizingKeepsLetters | apps/services.py:449 | normalising changes white space only |
| WordRuns.StripTakesEnds | apps/services.py:455-463 | stripping takes all white space off both ends and nothing else |
| TextSharding.SplitTextForNodes | apps/services.py:448-465 | the loop computes the shards that the lemmas below are about; with pieces of one dropped character at most in between, they hold every character of the input text that is not white space, once and in order; one node gets the words of the text |
| TextSharding.ShardsAccountForLetters | apps/services.py:448-465 | the same for every text and count, only empty shards being left out |
| TextSharding.TargetIsQuotient | apps/services.py:452 | the target is the length over the count, rounded down, and at least one |
| TextSharding.CutIntoPieces | apps/services.py:452-464 | its pieces, in order and before empty ones are dropped |
| TextSharding.CutPoint | apps/services.py:458-461 | a cut falls on the last blank after the start within 200 characters past the target, or at the target when there is none |
| TextSharding.CutIsSafe | apps/services.py:458-464 | a cut from a non-blank start ends on one again, makes progress, drops one character at most, and `strip` changes nothing |
| TextSharding.StartsAreGood | apps/services.py:455-464 | however many cuts are made, the next one starts on a non-blank or at the end |
| TextSharding.EveryCharacterIsAccountedFor | apps/services.py:448-465 | shards and dropped characters interleave to the normalised text, which has the characters of the input; a dropped character is a blank unless the window of its cut holds none |
| TextSharding.ShardsJoinBack | apps/services.py:448-465 | if every word fits the target, joining the shards with blanks restores the normalised text |
| TextSharding.ShardsJoinBackExactly | apps/services.py:448-465 | joining the shards with blanks restores the normalised text if and only if every cut finds a blank in its window or reaches the end |
| TextSharding.LetterIsLost | apps/services.py:457-465 | the smallest input for which it does not |
| TextSharding.ShardsAreBalanced | apps/services.py:452-465 | between one and `count` shards, none empty; all but the last within 199 of the target; the last within the target if every word fits the target and the slack |
| MergeResults.Merge | apps/services.py:468-508 | totals over all jobs, the ranked keywords of counts that sum over all jobs, and the chunks in job order |
| MergeMeaning.MergedTotals | apps/services.py:475-504 | words and characters are the sums of what the jobs report, tokens 1.35 times the words truncated, and ready means that there is a job |
| MergeMeaning.MergedKeywords | apps/services.py:479-499 | each keyword is a reported term with its total, in order of total and term; a reported term is missing only after 24 that rank before it |
| MergeMeaning.MergedChunks | apps/services.py:485-493 | every dictionary chunk of every job is there once with its node and job, in the order of jobs and of chunks |
| MergeMeaning.MergedChunkCount | apps/services.py:485-493 | a chunk occurs as often as its dictionary in the results of the jobs of that node and id |
| MergeResults.CountKeywords | apps/services.py:479-484 | each normalised term of a job gains the sum of its counts, and empty terms are ignored |
| MergeResults.CountsAreUnique | apps/services.py:479-499 | the keyword table is determined by the jobs |
| MergeResults.MergeIsOrderIndependent | apps/services.py:468-508 | permuting the jobs changes nothing but the order of the chunks |
| MergeResults.KeptKeywordsAreTheBest | apps/services.py:494-499 | at most 24 keywords, in rank order, each with its total over all jobs, and every omitted one ranks after every kept one |
| ResourceTotals.FederationResourceLease | apps/services.py:770-839 | one lease for each complete feeder, and totals that sum over exactly those nodes |
| ResourceMeaning.LeaseTotals | apps/services.py:782-839 | every total of the lease is the sum over all nodes of what a complete feeder contributes |
| ResourceMeaning.PlanTotals | apps/services.py:674-700 | every total of the plan is such a sum, memory being rounded once |
| ResourceMeaning.OnLanExactly | apps/services.py:784-794 | a node is on the LAN exactly when its relay URL contains one of the three local addresses |
| ResourceMeaning.LeaseFields | apps/services.py:795-829 | the lease of a complete feeder has its id, amounts, transport and status |
| ResourceTotals.RoundingError | apps/services.py:695-700 | rounding to hundredths is off by half a hundredth at most and yields hundredths |
| ResourceTotals.RoundedSum | apps/services.py:800-835 | a sum of rounded amounts is already rounded, and is off by at most half a hundredth per term |
| ResourceTotals.TotalsAgree | apps/services.py:674-839 | plan and lease report the same devices and CPU; LAN and relay devices add up; runtime nodes are LAN devices, and all of them exactly when all preprocess text; RAM totals agree within 0.005·n + 0.005 |
| Relay.PublicRelay.AuditRow | apps/public_relay_app.py:395-453 | the insert or COALESCE update of one audit row, every other row untouched |
| Relay.PublicRelay.Register | apps/public_relay_app.py:167-198 | the node is known from then on, and nothing else changes |
| Relay.PublicRelay.CreateJob | apps/public_relay_app.py:229-264 | a known node gets a queued job and its audit row; an unknown one changes nothing |
| Relay.PublicRelay.NextJob | apps/public_relay_app.py:268-297 | the oldest queued job of the node is set running with its audit row, or there is none |
| Relay.PublicRelay.SubmitResult | apps/public_relay_app.py:301-331 | the submitted status, result and error are stored with the audit row if the job is this node's, else nothing changes |
| Relay.AuditAgreesWithJobs | apps/public_relay_app.py:228-331 | in every reachable state both tables have the same ids and agree in node, task, status, creation time, payload hash, result hash, error hash, start and completion, a start never after a completion |
| Relay.LastResultIsStored | apps/public_relay_app.py:301-331 | in every run both tables hold the last accepted result of a job: its status, result and error, their hashes, and its time |
| Relay.FinishedExactly | apps/public_relay_app.py:301-331 | a job is finished if and only if some accepted result names it, and holds no result otherwise |
| Relay.CreationIsStored | apps/public_relay_app.py:229-264 | in every run a job and its audit row have the node, task, payload, seconds and time of the event that created the job |
| Relay.DeliveryStored | apps/public_relay_app.py:275-294 | a poll sets its job running, stamps start and update, and changes no other job |
| Relay.DeliveredOnceInOrder | apps/public_relay_app.py:267-331 | when no two requests overlap, no job is delivered twice over a run, and each node receives its own jobs, oldest first |
| Relay.NeverRequeued | apps/public_relay_app.py:228-331 | a job that has left the queue never returns, and its node, task, payload and creation time never change |
| Relay.StaleErrorHash | apps/public_relay_app.py:434-453 | a run after which the audit row keeps an error hash the job no longer has |
| Relay.ErrorHashIsCurrentExactly | apps/public_relay_app.py:434-453 | in every run, the error hash is that of the job's own error if and only if the job has one or no result ever carried any |
| RelayOverlap.RunKeeps | apps/public_relay_app.py:268-331 | however polls overlap, a job keeps its node and never returns to the queue |
| RelayOverlap.HandedOutTwiceOverlaps | apps/public_relay_app.py:275-294 | two polls that hand out one job both selected it before the first of them updated it |
| RelayOverlap.DeliveredTwiceExactly | apps/public_relay_app.py:275-294 | over any run of overlapping polls, a job is delivered more than once if and only if two polls of one node select it before either updates it, and both go on |
| RelayOverlap.DoubleDelivery | apps/public_relay_app.py:275-294 | a run with two overlapping polls in which the job is delivered twice and a completed job is set running again |
| TaskLeases.AutonomousTaskStore.Enqueue | triade/runtime/task_leases.py:116-156 | a new key makes a pending task, a known key changes nothing |
| TaskLeases.AutonomousTaskStore.Claim | triade/runtime/task_leases.py:158-200 | the claimable task that comes first by aged priority and creation time is leased to the worker until the given time, with generation and attempt raised by one, or none is claimable |
| TaskLeases.AutonomousTaskStore.Start | triade/runtime/task_leases.py:202-209 | succeeds exactly for the holder of the current generation, whose task then runs |
| TaskLeases.AutonomousTaskStore.Complete | triade/runtime/task_leases.py:263-272 | succeeds exactly for the holder of the current generation with an existing artifact |
| TaskLeases.AutonomousTaskStore.Recover | triade/runtime/task_leases.py:759-827 | the sweep, the select and the two updates together recover expired leases while attempts remain, end the others, and end stuck recovered tasks |
| TaskLeases.RecoveryByCases | triade/runtime/task_leases.py:779-827 | what recovery does to an expired lease, to a recovered task without attempts, and to any other task |
| TaskLeases.ClaimRefines | triade/runtime/task_leases.py:158-200 | a claim keeps the lease contract |
| TaskLeases.StartRefines | triade/runtime/task_leases.py:202-209 | a start keeps the lease contract |
| TaskLeases.CompleteRefines | triade/runtime/task_leases.py:700-757 | a completion keeps the lease contract |
| TaskLeases.RecoverRefines | triade/runtime/task_leases.py:759-827 | recovery keeps the lease contract |
| TaskLeases.EnqueueRefines | triade/runtime/task_leases.py:116-156 | an enqueue keeps the lease contract and one task per key |
| TaskLeases.ExpiredLeaseIsClaimableAgain | triade/runtime/task_leases.py:759-827 | an expired task is claimable after recovery exactly when attempts remain, otherwise dead for good |
| TaskRecovery.ExactlyOnceEffect | scripts/run_level8_task_recovery.py:26-75 | in every run: one effect row per key at most, with the sum of the payload; one successful completion per task at most; a completed task has its effect |
| TaskRecovery.TotalAdds | scripts/run_level8_task_recovery.py:47 | the stored value is the sum of the payload, value by value |
| TaskRecovery.ExitZeroMeansCompleted | scripts/run_level8_task_recovery.py:26-75 | exit code zero means that the task is completed under that worker's own lease and its effect is stored |
| TaskRecovery.FilesNameCommittedEffects | scripts/run_level8_task_recovery.py:49-75 | checkpoints and receipt name effects that are committed, and once any task is completed some receipt is on disk |
| TaskRecovery.GenerationsGrow | scripts/run_level8_task_recovery.py:33-43 | over any stretch of a run generations never fall and completed tasks never change |
| TaskRecovery.StaleWorkerIsFenced | scripts/run_level8_task_recovery.py:42-75 | once the generation has risen, the old worker can neither start nor complete |
| TaskReceipts.ReceiptBelongsToFinalLease | scripts/run_level8_task_recovery.py:62-75 | for a completed task, the receipt on disk is its completing worker's if and only if the last worker to write it owned the task, under its own generation, when it wrote |
| TaskReceipts.StaleReceiptIsReachable | scripts/run_level8_task_recovery.py:62-75 | a run after which the receipt names an older lease than the completed task |
| TaskReceipts.LastWriteExists | scripts/run_level8_task_recovery.py:62-73 | a receipt on disk has a last write |
| TaskReceipts.OnlyOldLeasesComplete | scripts/run_level8_task_recovery.py:62-75 | without a new receipt no lease claimed later can complete |
| TaskReceipts.LateDeathIsReachable | scripts/run_level8_task_recovery.py:74-90 | a worker that dies after its completion leaves the task completed |
| RecoveryWorker.Recovery.AwaitTask | scripts/run_level8_task_recovery.py:30-36 | every poll recovers and then claims, as protocol steps; without a task nothing was claimable after recovery at any poll, otherwise the first poll that found one claimed the task that comes first |
| RecoveryWorker.Recovery.Poll | scripts/run_level8_task_recovery.py:33-34 | one poll: recovery, then the claim of the task that comes first, or nothing is claimable |
| RecoveryWorker.Recovery.ClaimTask | scripts/run_level8_task_recovery.py:34 | a claim of the real store is a claim step of the protocol that raises generation and attempt, or nothing is claimable |
| RecoveryWorker.Recovery.StartTask | scripts/run_level8_task_recovery.py:39-43 | starting is a start step; a fenced start ends the process |
| RecoveryWorker.Recovery.Commit | scripts/run_level8_task_recovery.py:44-48 | the insert is a commit step; the effect of the task's key is there, once |
| RecoveryWorker.Recovery.Check | scripts/run_level8_task_recovery.py:49-59 | writing the checkpoint is a checkpoint step |
| RecoveryWorker.Recovery.Sign | scripts/run_level8_task_recovery.py:62-73 | writing the receipt is a receipt step |
| RecoveryWorker.Recovery.CompleteTask | scripts/run_level8_task_recovery.py:74-75 | completing is a complete step; a fenced completion ends the process |
| RecoveryWorker.Recovery.WorkOn | scripts/run_level8_task_recovery.py:39-75 | the sections of the process, in order, are a path of protocol steps |
| RecoveryWorker.Recovery.End | scripts/run_level8_task_recovery.py:74-75 | the completion and the exit with code zero are the last steps |
| RecoveryWorker.Recovery.Work | scripts/run_level8_task_recovery.py:26-75 | left alone, the process is a path of protocol steps and ends with code zero if and only if some poll finds a claimable task after recovery; then the first such task is completed with its generation raised by one, and its effect, checkpoint and receipt are stored |
| RecoveryWorker.LeftTaskIsClaimable | scripts/run_level8_task_recovery.py:30-36 | a task left by a killed worker is claimable after recovery once its lease has expired, while attempts remain |
| RecoveryWorker.PathContinuesRun | scripts/run_level8_task_recovery.py:26-75 | a path that continues a run gives a run, so every theorem about runs covers it |
| TaskRecovery.Supervise | scripts/run_level8_task_recovery.py:78-90 | at most two children; success exactly when the last one exits with zero, a timeout exactly when it hangs, earlier ones having failed |
| FederatedKnowledge.Node.Produce | scripts/federation_real_node.py:58-78 | a produced message is evidence with the given id and content and the digest of that content |
| FederatedKnowledge.Node.Revoke | scripts/federation_real_node.py:80-93 | a revocation message names its evidence and sender |
| FederatedKnowledge.Node.Accept | scripts/federation_real_node.py:95-120 | the new table, and exactly which reply each kind of message gets |
| FederatedKnowledge.RowsOnlyAdvance | scripts/federation_real_node.py:95-120 | over any deliveries a row stays, keeps digest and source, and once revoked stays revoked |
| FederatedKnowledge.RowsAppearAccepted | scripts/federation_real_node.py:107-111 | a row appears only as accepted, for evidence that was let through and reproduces |
| FederatedKnowledge.TableIsExplained | scripts/federation_real_node.py:95-120 | a row is that of the first valid evidence for its id, revoked exactly when a revocation came later |
| FederatedKnowledge.ConvergenceExactly | scripts/federation_real_node.py:95-120 | deliveries of the same messages end in the same table if and only if, for every id, their first evidence agrees in digest and sender and a revocation comes after evidence in both or in neither |
| FederatedKnowledge.OneVersionConvergence | scripts/federation_real_node.py:95-120 | with one content and sender per id, only the ids revoked after some evidence decide |
| FederatedKnowledge.Convergence | scripts/federation_real_node.py:95-120 | they agree whatever the order and repetition when no revocation precedes its evidence |
| FederatedKnowledge.EarlyRevocationIsLost | scripts/federation_real_node.py:113-118 | two orders of the same two messages that end in different tables |
| FederatedKnowledge.TwoVersionsDiverge | scripts/federation_real_node.py:109-113 | one evidence id from two senders, in two orders, ends in different tables |
| AgentQueue.MobileNodeAgent.InsertJob | apps/mobile_node_agent.py:127-133 | submitting inserts a queued job with its request, unless jobs are disabled |
| AgentQueue.MobileNodeAgent.Put | apps/mobile_node_agent.py:134 | the id goes to the back of the queue |
| AgentQueue.MobileNodeAgent.Take | apps/mobile_node_agent.py:230 | the id at the front of the queue is taken |
| AgentQueue.MobileNodeAgent.BeginJob | apps/mobile_node_agent.py:236-240 | the job is set running and its request is read from the reused field |
| AgentQueue.MobileNodeAgent.FinishJob | apps/mobile_node_agent.py:254-270 | with an output the job is completed and holds it, without one it is failed with the error and keeps its request; no other job changes |
| AgentQueue.JobsAreConserved | apps/mobile_node_agent.py:127-270 | in every interleaving each job is in exactly one place: inserted, queued once, held by one worker, or terminal |
| AgentQueue.RunsAtMostOnceInOrder | apps/mobile_node_agent.py:127-270 | each job runs at most once, jobs leave the queue in the order of their puts, and none becomes terminal without having run |
| AgentQueue.RequestReadIsTheOneSubmitted | apps/mobile_node_agent.py:127-240 | the request a worker reads is the one that was submitted under that id |
| AgentQueue.HeldJobsCanStart | apps/mobile_node_agent.py:228-240 | a worker that holds a job can always start it |
| AgentResults.CompletedExactly | apps/mobile_node_agent.py:236-257 | in every interleaving a job is completed with an output and no error if and only if its run ended with that output |
| AgentResults.FailedExactly | apps/mobile_node_agent.py:236-270 | a job is failed with an error, its request kept, if and only if its run ended with that error |
| AgentResults.EndsOnce | apps/mobile_node_agent.py:236-270 | the run of a job ends at most once, and then the job is terminal |
| SchemaRetirement.Database.Apply | scripts/apply_schema_retirements.py:201-234 | exactly the planned tables that are empty at a recheck of theirs are dropped, each listed once; the rows destroyed are exactly those written between the first such recheck and its drop |
| SchemaRetirement.Database.DropEmpty | scripts/apply_schema_retirements.py:210-218 | the loop, with other writers before every recheck and before every drop, and the rows that each drop destroys |
| SchemaRetirement.Database.Rollback | scripts/apply_schema_retirements.py:237-288 | the catalogue, the list of restored tables, and the reason for every table that is skipped |
| SchemaRetirement.PlannedDrops | scripts/apply_schema_retirements.py:123-185 | a table is planned exactly when an unblocked migration names it and it is present without rows |
| SchemaRetirement.RefusedExactly | scripts/apply_schema_retirements.py:165-177 | the plan refuses exactly the named tables that hold rows, with their number |
| SchemaRetirement.PlanEntryExactly | scripts/apply_schema_retirements.py:127-155 | the entry of every table of every migration: its rows, schema and action, and whether the migration is blocked |
| SchemaRetirement.ApplyIsSafe | scripts/apply_schema_retirements.py:123-218 | whatever is written meanwhile: no table with rows at its recheck is dropped, blocked migrations drop nothing, all other tables stay with schema and rows |
| SchemaRetirement.NothingIsLostExactly | scripts/apply_schema_retirements.py:201-234 | an apply destroys no row if and only if no writer adds to a table between the recheck that drops it and the drop |
| SchemaRetirement.LateRowsAreUnique | scripts/apply_schema_retirements.py:210-218 | what a drop destroys is determined by the writers |
| SchemaRetirement.LateRowIsLost | scripts/apply_schema_retirements.py:201-234 | an apply, for two migrations that name one table, that destroys a row written between recheck and drop |
| SchemaRetirement.DroppedSchemas | scripts/apply_schema_retirements.py:141-148 | the manifest remembers the schema of every dropped table |
| SchemaRetirement.RollbackInvertsApply | scripts/apply_schema_retirements.py:201-288 | without interference the catalogue is restored exactly |
| SchemaRetirement.RollbackOnAnyCatalogue | scripts/apply_schema_retirements.py:237-288 | from any later catalogue exactly the dropped tables still absent come back, nothing present changes, and a second rollback restores nothing |
| Tables.InsertAllMeaning | scripts/backfill_metabolic_fk_parents.py:103-155 | a batch of inserts goes in exactly when its keys are free and distinct, and then adds those rows only |
| Tables.BatchConflictExactly | scripts/backfill_metabolic_fk_parents.py:46-155 | rows rebuilt by group conflict exactly when two groups share a key or a key is taken |
| Tables.DeleteUndoesInsert | scripts/backfill_metabolic_fk_parents.py:183-211 | deleting the keys of an inserted batch whose rows are marked restores the table |
| MetabolicBackfill.Database.Apply | scripts/backfill_metabolic_fk_parents.py:96-160 | aborts and changes nothing exactly when an orphan need has two cycles or a missing parent was created since the queries; otherwise all rebuilt rows are in and listed |
| MetabolicBackfill.Database.Fill | scripts/backfill_metabolic_fk_parents.py:103-159 | the transaction inserts every row of both tables or none |
| MetabolicBackfill.ConflictExactly | scripts/backfill_metabolic_fk_parents.py:96-159 | when every insert meets a free key |
| MetabolicBackfill.TwoCyclesConflict | scripts/backfill_metabolic_fk_parents.py:46-57 | two receipts of one need under two cycles make the inserts conflict |
| MetabolicBackfill.CreatedMeanwhileConflict | scripts/backfill_metabolic_fk_parents.py:96-126 | a cycle created since the query makes the inserts conflict |
| MetabolicBackfill.Database.Rollback | scripts/backfill_metabolic_fk_parents.py:183-211 | refuses another marker; otherwise removes the listed rows that are still marked |
| MetabolicBackfill.QuietConflict | scripts/backfill_metabolic_fk_parents.py:96-103 | without other writers the only conflict is a need under two cycles |
| MetabolicBackfill.ApplyInserts | scripts/backfill_metabolic_fk_parents.py:46-155 | existing rows stay, every missing parent found is rebuilt, nothing else appears |
| MetabolicBackfill.ApplyClosesTheGap | scripts/backfill_metabolic_fk_parents.py:46-160 | without other writers every receipt has its need and cycle, no inserted need lacks a cycle, and nothing is missing |
| MetabolicBackfill.ApplyCoversWhatItSaw | scripts/backfill_metabolic_fk_parents.py:46-160 | of the receipts that a query saw, one lacks its parent exactly when that parent was deleted since |
| MetabolicBackfill.ApplyClosesTheGapExactly | scripts/backfill_metabolic_fk_parents.py:46-160 | with other writers all receipts have their parents if and only if the queries listed every parent missing at the lock, for needs and for cycles |
| MetabolicBackfill.LateReceiptStaysOrphan | scripts/backfill_metabolic_fk_parents.py:96-160 | a receipt written after the queries stays without need and cycle although apply succeeds |
| MetabolicBackfill.InsertedNeedHasCycleExactly | scripts/backfill_metabolic_fk_parents.py:46-160 | with other writers an inserted need has its cycle if and only if the cycle is in the locked database or the second query found it missing |
| MetabolicBackfill.NeedWithoutCycle | scripts/backfill_metabolic_fk_parents.py:96-160 | a cycle deleted after the queries leaves an inserted need without it |
| MetabolicBackfill.SecondApplyInsertsNothing | scripts/backfill_metabolic_fk_parents.py:96-160 | a second apply changes nothing and lists nothing |
| MetabolicBackfill.RebuiltNeedComesFromReceipts | scripts/backfill_metabolic_fk_parents.py:46-57 | a rebuilt need has its receipts' cycle, their first start and their first id |
| MetabolicBackfill.RebuiltCycleSpansItsReceipts | scripts/backfill_metabolic_fk_parents.py:61-71 | a rebuilt cycle starts with its first receipt and ends with its last |
| MetabolicBackfill.RebuiltNeedColumns | scripts/backfill_metabolic_fk_parents.py:46-158 | a rebuilt need has the kind of its id, the historical status, the same start and end, and the number of its receipts |
| MetabolicBackfill.RebuiltCycleColumns | scripts/backfill_metabolic_fk_parents.py:61-126 | a rebuilt cycle has the historical status and mode and the number of its receipts |
| MetabolicBackfill.KindOfGeneratedId | scripts/backfill_metabolic_fk_parents.py:91-93 | the kind of a need id is its prefix when the suffix after the last dash has eight characters or more |
| MetabolicBackfill.KindWithoutDash | scripts/backfill_metabolic_fk_parents.py:91-93 | an id without a dash is its own kind |
| MetabolicRollback.RollbackRestores | scripts/backfill_metabolic_fk_parents.py:96-211 | right after an apply its manifest restores both parent tables exactly |
| MetabolicRollback.RollbacksCommute | scripts/backfill_metabolic_fk_parents.py:183-211 | the order of two rollbacks does not matter, and each deletes only what its own list names |
| MetabolicRollback.OtherRollbackKeepsExactly | scripts/backfill_metabolic_fk_parents.py:183-211 | after an apply, rolling back another manifest keeps every row the apply inserted if and only if the two list no id in common, for needs and for cycles |
| MetabolicRollback.ListedExactly | scripts/backfill_metabolic_fk_parents.py:46-180 | an apply lists exactly the ids that were missing while a receipt named them |
| MetabolicRollback.OlderManifestIsSafeExactly | scripts/backfill_metabolic_fk_parents.py:96-211 | an older manifest spares the rows of a later apply if and only if, at the later queries, each of its ids was in its table or named by no receipt |
| MetabolicRollback.OldManifestDeletesNewRows | scripts/backfill_metabolic_fk_parents.py:96-211 | apply, rollback, a new receipt, apply: the first manifest deletes the rows of the second apply |
| RunBackfill.Database.Backfill | scripts/backfill_runtime_runs.py:77-112 | commits exactly when every selected run has a time, none was written meanwhile and no other orphan appeared; otherwise the tables are as before |
| RunBackfill.Database.Transaction | scripts/backfill_runtime_runs.py:93-112 | the inserts and the recheck are all or nothing |
| RunBackfill.Database.Revert | scripts/backfill_runtime_runs.py:67-75 | exactly the rows of the runtime whose text holds the mark go, the others stay unchanged, and the count is theirs |
| RunBackfill.RemainingIsZero | scripts/backfill_runtime_runs.py:100-104 | the recheck counts zero exactly when every event has its run |
| RunBackfill.CommitsExactly | scripts/backfill_runtime_runs.py:38-112 | inserts and recheck succeed exactly when the selection is still valid at the lock |
| RunBackfill.QuietRunCommits | scripts/backfill_runtime_runs.py:77-108 | without other writers the selection is still valid |
| RunBackfill.BackfillLeavesNoOrphan | scripts/backfill_runtime_runs.py:77-108 | after a commit no event is an orphan, earlier rows are unchanged, and the new rows are those selected |
| RunBackfill.InsertedRowSpansItsEvents | scripts/backfill_runtime_runs.py:38-48 | a new row opens at the first and closes at the last time among the events selected for it |
| RunBackfill.LikeFindsTheMark | scripts/backfill_runtime_runs.py:67-72 | `LIKE '%mark%'` matches exactly the texts in which the mark occurs, up to `_` and ASCII case |
| RunBackfill.SameExactly | scripts/backfill_runtime_runs.py:67-72 | `LIKE` takes `_` for any character and ASCII letters in either case |
| RunBackfill.RevertUndoesBackfillExactly | scripts/backfill_runtime_runs.py:33-108 | the revert restores the tables if and only if no earlier row satisfied its WHERE clause |
| RunBackfill.QuotingRunIsReverted | scripts/backfill_runtime_runs.py:33-108 | an earlier run that quotes the mark is deleted by the revert |
| RunBackfill.UntimedOrphan | scripts/backfill_runtime_runs.py:77-84 | an orphan run without any time, on which the summary fails |
| RunBackfill.LateEventAborts | scripts/backfill_runtime_runs.py:93-107 | an orphan event added after the selection makes the recheck fail |
| EducationDiff.SampleOfTable | scripts/observe_neuron_education.py:46-70 | a sample has exactly the sessions of the table, each under its own id with its selected columns and its application count, all of one column set |
| EducationDiff.Differences | scripts/observe_neuron_education.py:73-103 | the loop lists the changes that the lemmas below are about |
| EducationDiff.TakeTurn | scripts/observe_neuron_education.py:140-157 | one turn writes the changes and moves on, or records the failed read and keeps the sample |
| EducationDiff.PatchCatchesUpExactly | scripts/observe_neuron_education.py:81-85 | the listed fields turn the old row into the new one if and only if no column is lost and none appears as NULL |
| EducationDiff.DiffReplaysExactly | scripts/observe_neuron_education.py:73-103 | replaying a difference gives the later sample if and only if no session vanishes and every row extends its predecessor |
| EducationDiff.ListedExactlyWhenChanged | scripts/observe_neuron_education.py:81-94 | a column of a known session is listed, with both values, exactly when it changed |
| EducationDiff.ListedExactly | scripts/observe_neuron_education.py:76-103 | new sessions and a changed event count are listed exactly when they are, and an advance only for a known session, with its neuron and at least one field |
| EducationDiff.Observe | scripts/observe_neuron_education.py:118-159 | the log of all turns between its opening and its end, and the last good sample |
| EducationDiff.ErrorsAreFailures | scripts/observe_neuron_education.py:140-151 | the log records every failed read, with its detail and in order, and no other |
| EducationDiff.LogFollows | scripts/observe_neuron_education.py:137-157 | after any turn a reader of the log agrees with the last good sample on all its sessions, and otherwise holds only sessions seen earlier |
| EducationDiff.LogReplaysExactly | scripts/observe_neuron_education.py:118-159 | folding the whole log over the first sample gives the last good sample if and only if that sample has every session ever seen |
| EducationDiff.VanishedSessionIsKept | scripts/observe_neuron_education.py:73-103 | a session that vanishes leaves no entry, and the reader keeps it |

## Left out

- StreamCursor.RoundTrip: cursor names are SQL identifiers, so no name needs a JSON escape.
- The decoder on input that no encoder produced: JSON escapes, fractions and exponents, nested values, bytes from 128 on, and repeated names whose earlier value is one of these are refused by the model, while the original may accept some of them. `FeedCursor.to_dict` and `from_dict` copy the map (triade/observability/event_feed.py) and are the identity here.
- MergeResults.Merge: `lower()` is a parameter, `int(words * 1.35)` is exact instead of a float product, and counts are integers, so a value that `int` refuses is not modelled.
- ResourceTotals.TotalsAgree: amounts are reals; binary floating point and its ties are not modelled, nor are GPU memory, candidate models and the descriptive fields of plan and lease.
- Relay: a request is one transaction and requests do not overlap, except that `RelayOverlap` splits polls; job ids are fresh, the clock is positive and never goes back. A JSON document is one abstract value with one digest. Tokens, heartbeats and the listing pages are left out.
- TaskLeases.AutonomousTaskStore.Complete: an empty result reference raises in the original and is an unsuccessful completion here.
- TaskLeases: excluded task types, retries, deferral, renewal, cancellation and the two-phase completion are left out, and `claim` followed by reading the task is one step. Only the columns that these operations read are modelled.
- TaskRecovery: times and sleeps are left out; a crash or an expiry may fall anywhere instead. A worker name is never used twice, while the original takes the process id, which the system may reuse.
- RecoveryWorker.Recovery.Work: the deadline is a number of polls, and the process runs without interference; interference is what the runs of `TaskRecovery` add.
- FederatedKnowledge: envelope signatures, nonces and expiry are inside the arbitrary decision to let a message through; a request is one step.
- AgentQueue: a thread ended by an exception that it does not catch keeps its job running for ever, which is how the original behaves; the tasks themselves are arbitrary outcomes. File and command administration is left out.
- SchemaRetirement: reading table names out of migration files, the backup copy, and indexes, views and case-insensitive names are left out. Other writers change rows, but do not create or drop tables, between plan and drop; after the apply they may do both.
- MetabolicBackfill: `need_id` and `cycle_id` are keys; constant columns, the manifest file and its checksum, foreign key counts, and evidence columns that are not JSON are left out.
- RunBackfill: the printed counts, the dry run and the integrity check are left out, except that the summary line fails on a run without any time.
- EducationDiff: timestamps and the list of states in the opening entry are left out, and a failing first sample ends the script before it logs. A value that changes type but compares equal (1 and 1.0) counts as the same.
- Graph building and caching, the audit of level 8, neuron decisions, HTML, HTTP and the command line: plumbing or easier properties.
