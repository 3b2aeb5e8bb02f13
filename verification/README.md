# A verified model of G-Tran's core

G-Tran is a distributed in-memory graph database with multi-version optimistic
concurrency control. This project models the parts of it whose correctness
depends on whole runs, as Dafny modules that stand beside the C++ code, and
proves properties of those models.

| part | modules |
|---|---|
| message fan-out, fan-in and and/or/not filtering | `FanIn`, `BranchPaths`, `BranchFilter`, `FilterMeaning`, `DataPairs`, `Dispatch`, `StreamBarriers` |
| RDMA ring mailbox and datagrams | `RingMailbox`, `Datagram` |
| transaction status, validation, agreement | `TrxStatus`, `StatusTable`, `RemoteRead`, `TableHistory`, `Validation`, `Agreement` |
| running list, watermark, recently-committed table, garbage collection | `RunningList`, `Rct`, `Worker`, `Bookkeeper`, `RctCollect` |
| transaction plan scheduler | `PlanDag`, `Placeholders`, `TrxPlan`, `PlanAnswers`, `PlanRun` |
| step reordering, expert graph and routing | `Reorder`, `ReorderMeaning`, `ReorderHarm`, `PlanGraph`, `PlanRouting`, `MessageWalk` |

`Options` holds the option type. `dafny verify dfyconfig.toml` checks the whole project.

How the source's notions appear here:

- A message path such as `3 TAB 2 TAB 4` is the sequence `[3, 2, 4]`.
- Status words are values in the slot array of the table and are rewritten in
  place there; a failed `CHECK` is an explicit result, and the contracts say when
  it occurs.
- Other transactions' status, as validation reads it, is a trace that changes
  only by the transitions `TrxStatus` allows; each read happens at an arbitrary
  later time and is logged, and the contracts speak of what the log says. The remote table is a history of table states, one per write.
- Several sender threads of a ring reserve, write word by word, fetch and publish
  in separate steps, so every interleaving is a run.
- Clocks, random numbers, the network, storage and `valid()` of the experts are
  parameters. Timestamps come from one increasing clock per worker, as the
  coordinator's single timestamp thread gives them out.
- Message sizes, histories and graph values are plain numbers.
- Some invariants (`TrxPlan.RunOk`, `Bookkeeper.TableHeld`, `Bookkeeper.ListHeld`,
  `Bookkeeper.SafeHeld`) are wrapped in a counting predicate; the wrapper means
  exactly the invariant, as the `Open` lemmas beside it prove, and only keeps the
  proofs small.

Where code and comments of the repository differ, the code was followed:
`enterAbortState` is commented as the step from validating to aborted, but it
also aborts a transaction that is still processing and accepts a repeated abort,
and `TrxStatus.RequestTaken` states what it accepts.

## Model

| member | source | states |
|---|---|---|
| FanIn.ArriveCommutes | expert/labelled_branch_expert.hpp:161-196 | two arrivals leave the same counters in either order, however their carries overlap |
| FanIn.RunPermuted | expert/labelled_branch_expert.hpp:161-196 | every arrival order of the same messages leaves the same counters and the same number of completed branches |
| FanIn.RepeatGroup | expert/labelled_branch_expert.hpp:173-190 | as many arrivals on a path as its last number says act like one arrival on the parent path, even when other groups share the path |
| FanIn.TreeRun | core/message.cpp:393-411 | the leaves of any message tree, each child path being the parent path plus the sibling count, together act like the arrival of the root |
| FanIn.ZeroMeansCarried | expert/labelled_branch_expert.hpp:173-190 | an arrival that leaves every counter at zero has carried to the end path |
| FanIn.FanInExact | expert/labelled_branch_expert.hpp:161-196 | for every forest of message trees and every arrival order, readiness is reported on exactly the last leaf, and all counters end at zero |
| FanIn.BranchData.IsReady | expert/labelled_branch_expert.hpp:161-196 | the loop over the path counters computes one arrival of the model and its readiness |
| FanIn.CollectAll | expert/labelled_branch_expert.hpp:63-100 | feeding all messages of a forest in any order answers ready exactly once, at the last one |
| BranchPaths.RebasedTree | core/message.cpp:413-451 | writing the step count into the middle of every leaf path of a tree is the same as moving the tree's root |
| BranchPaths.BranchedRun | core/message.cpp:413-476 | however a message tree had grown before it reached a branch, however it grows on in every step, and in any arrival order, its messages continue the rewritten leaf paths and together count like one message with the branch's end path |
| FilterMeaning.LabelledAt | core/message.cpp:491-507 | the labelled data place by place: the pairs in order, each split into its values with consecutive numbers, those without values as they were, and nothing else |
| FilterMeaning.InLabelled | core/message.cpp:491-507 | every traverser of the input is among the labelled ones, with the position that the later scan counts |
| FilterMeaning.FromLabelled | core/message.cpp:491-507 | and every labelled one is a traverser of the input with its position |
| BranchFilter.LabelData | core/message.cpp:491-507 | the loop produces the labelled data of the model |
| BranchFilter.UpdateHas | expert/labelled_branch_expert.hpp:326-329 | recording a branch sets its bit and no other |
| BranchFilter.PassMeaning | expert/labelled_branch_expert.hpp:331-344 | the three bit tests mean all branches, some branch, no branch, for up to 30 branches |
| BranchFilter.Scan | expert/labelled_branch_expert.hpp:283-318 | the positional scan keeps exactly the values whose label passes, in order |
| BranchFilter.FilterData.Count | expert/labelled_branch_expert.hpp:256-277 | one branch result sets the branch's bit for exactly the labels it carries in pairs with values |
| BranchFilter.FilterData.ProcessBranch | expert/labelled_branch_expert.hpp:245-322 | the counters are updated, and the filtered data is given out exactly when readiness is reported |
| BranchFilter.FilterRun | expert/labelled_branch_expert.hpp:245-344 | for every input, batching and arrival order, nothing is forwarded before the last result, and then the input filtered by all, any or none of "branch i returned something with this input's label" |
| FilterMeaning.ReturnedHit | expert/labelled_branch_expert.hpp:256-277 | a branch returned something for a number exactly when the sub-query has a result for the traverser with that number, however results are batched |
| FilterMeaning.Filter | expert/labelled_branch_expert.hpp:245-344 | from unnumbered input to output: and, or and not forward exactly the traversers for which all, some or none of the sub-queries have a result, with histories and in order, on the last message and not before |
| RingMailbox.Ceil | utils/unit.hpp:33-38 | rounding up to the word size yields the least multiple not below |
| RingMailbox.Destination | core/rdma_mailbox.cpp:154-165 | every byte of a frame lands at its offset modulo the ring size, also when the copy is split at the end |
| RingMailbox.HoldsReserve | core/rdma_mailbox.cpp:134-142 | a reserved region is all zero, so reserving changes no byte |
| RingMailbox.HoldsWrite | core/rdma_mailbox.cpp:154-165 | a written word changes only its own frame |
| RingMailbox.HeaderRead | core/rdma_mailbox.cpp:212-218 | the header word reads as zero exactly when no frame has begun there |
| RingMailbox.FooterRead | core/rdma_mailbox.cpp:224-234 | the footer word reads as zero until the frame is complete and then as the length |
| RingMailbox.PayloadRead | core/rdma_mailbox.cpp:236-257 | the bytes copied out, in one or two parts, are the payload |
| RingMailbox.ClearedFrame | core/rdma_mailbox.cpp:248-263 | the three clearing steps zero exactly the bytes of the fetched frame, in every wrap-around case |
| RingMailbox.HoldsFetch | core/rdma_mailbox.cpp:220-268 | after clearing, the ring holds the remaining frames and zeros |
| RingMailbox.Ring.Reserve | core/rdma_mailbox.cpp:124-142 | refused exactly when the frame does not fit behind the last head heard of; otherwise the message joins the queue |
| RingMailbox.Ring.WriteWord | core/rdma_mailbox.cpp:144-168 | the next word of any reserved frame reaches the ring and nothing else changes |
| RingMailbox.Ring.Fetch | core/rdma_mailbox.cpp:220-285 | nothing until the first frame is complete, then exactly the message reserved first; the head moves by its frame and is published exactly when it is more than a sixteenth ahead of the one published last |
| RingMailbox.Ring.Deliver | core/rdma_mailbox.cpp:270-283 | any of the heads on their way reaches the sender, and those written before it are past |
| RingMailbox.Drain | core/rdma_mailbox.cpp:182-285 | fetching empties a ring of complete frames and returns their payloads in order |
| RingMailbox.SendWhenDrained | core/rdma_mailbox.cpp:88-94 | once drained and the head delivered, every frame of at most the ring size less a sixteenth is accepted |
| RingMailbox.BuildFrame | core/rdma_mailbox.cpp:144-153 | the send buffer holds header, payload, whatever was in the padding, and footer |
| RingMailbox.FirstInFirstOut | core/rdma_mailbox.cpp:124-285 | for every interleaving of the steps, the messages the plain queue accepted are those fetched followed by those still queued, in reservation order |
| RingMailbox.Run | core/rdma_mailbox.cpp:124-285 | the byte ring answers every step of every interleaving of reserve, write, fetch and head delivery as a plain queue with offsets does: which messages are accepted, what each fetch returns, and the queue in the end |
| Datagram.Send | base/rdma.hpp:233-249 | the packets are the consecutive slices of the message, the last one possibly empty |
| Datagram.Receiver.Recv | base/rdma.hpp:182-231 | the message is returned exactly when the last missing packet arrives; a packet seen before changes nothing |
| Datagram.Transfer | base/rdma.hpp:182-249 | for every length, every delivery order and any duplicates before completion, the sent bytes are returned, at the first delivery after which every packet was seen |
| Datagram.TwoMessages | base/rdma.hpp:182-231 | when packets of a message come once more after it was returned, the next message of the same length is returned intact if and only if the two agree in every packet that came late; otherwise a mixture of both is returned |
| TrxStatus.Entered | core/common.hpp:42-53 | a slot is entered exactly when it is empty or erased; the word then says processing, without a commit time, and nothing of what the slot held before |
| TrxStatus.ApplyLegal | core/common.hpp:55-83 | every accepted request moves the state along a legal transition and keeps the bits consistent |
| TrxStatus.RunsAreFinal | core/common.hpp:42-88 | over every run of accepted requests aborted and committed are final, and the commit time is fixed once processing is over |
| TrxStatus.RequestTaken | core/common.hpp:55-88 | exactly which requests the status word accepts in which state, the state afterwards, and that only the commit time request changes the commit time |
| StatusTable.ReachLinked | core/transaction_status_table.cpp:124-141 | hanging a bucket behind the end of a chain keeps everything reachable |
| StatusTable.HomeOfTransaction | core/transaction_status_table.cpp:17-21 | all queries of a transaction have its home bucket, and transactions with consecutive numbers have neighbouring ones |
| StatusTable.ExactlyOneSlot | core/transaction_status_table.cpp:71-149 | a present id is stored in exactly one slot, with the word written last |
| StatusTable.RewriteOk | core/transaction_status_table.cpp:160-197 | rewriting a word updates the map at its id alone and moves no present id |
| StatusTable.OccupyOk | core/transaction_status_table.cpp:106-122 | taking a free slot adds the fresh id to the map |
| StatusTable.LinkOk | core/transaction_status_table.cpp:124-141 | allocating a bucket keeps chains strictly increasing and the map unchanged |
| StatusTable.EraseOk | core/transaction_status_table.cpp:265-282 | marking the slot of the first list entry erased removes exactly its id |
| StatusTable.Table.constructor | core/transaction_status_table.cpp:22-36 | a zeroed table refines the empty map |
| StatusTable.Table.FindTrx | core/transaction_status_table.cpp:71-97 | the walk ends; a present id is found in its slot, an id never inserted is not found |
| StatusTable.Table.QueryStatus | core/transaction_status_table.cpp:49-58 | the state of the word last written |
| StatusTable.Table.QueryCt | core/transaction_status_table.cpp:38-47 | the commit time of the word last written |
| StatusTable.Table.Modify | core/transaction_status_table.cpp:160-197 | a request changes the map at the id exactly when the word allows it, and is a failed check otherwise |
| StatusTable.Table.ModifyWithCt | core/transaction_status_table.cpp:151-158 | registers the commit time and enters validation, exactly from processing |
| StatusTable.Table.FindFree | core/transaction_status_table.cpp:99-133 | a free slot of the chain, or its last bucket exactly when the chain is full |
| StatusTable.Table.Link | core/transaction_status_table.cpp:130-138 | a new bucket is hung behind the chain |
| StatusTable.Table.Insert | core/transaction_status_table.cpp:99-149 | a fresh id is never reported as existing; its word is processing without a commit time, and no other word changes; it fails exactly when its chain is full and no bucket is left; which read-only ids are listed for collection |
| StatusTable.Table.RecordNro | core/transaction_status_table.cpp:237-251 | an ended update transaction is listed with its end time |
| StatusTable.Table.EraseList | core/transaction_status_table.cpp:254-285 | entries are taken from the front while more than two are left and the first is behind the watermark; exactly their ids disappear |
| StatusTable.Table.EraseViaMinBt | core/transaction_status_table.cpp:200-219 | from the front of each list as many entries behind the watermark as possible are dealt with, down to two; exactly the ids they stand for disappear, the update transactions among them are reported in order, and everything else keeps its word |
| RemoteRead.SameSlot | core/transaction_status_table.cpp:99-149 | a present id never changes its slot |
| RemoteRead.StillAhead | core/trx_table_stub_rdma.cpp:49-80 | what the walk has still ahead stays ahead while the table is written |
| TableHistory.WriteLegal | core/transaction_status_table.cpp:99-285 | every write of the table (a request, an insertion, a new bucket, a listing, an erasure) keeps the table in order and moves no present id |
| TableHistory.RunsAreLegal | core/transaction_status_table.cpp:99-285 | so every run of writes from the empty table is a history as the remote reader assumes it |
| TableHistory.WordByRequests | core/transaction_status_table.cpp:99-197 | over every run of writes, from its insertion on and as long as it is present, the word of an id is what the requests accepted for it make of a processing word without a commit time |
| TableHistory.ProcessingUntilAsked | core/transaction_status_table.cpp:99-197 | so it is processing until the first request for it is accepted |
| RemoteRead.Reader.Walk | core/trx_table_stub_rdma.cpp:49-80 | with bucket reads interleaved with any writes the walk ends, and an id present all the while yields the word its slot held when its bucket was read |
| RemoteRead.Reader.ReadStatus | core/trx_table_stub_rdma.cpp:40-81 | the status of that word |
| RemoteRead.Reader.ReadCt | core/trx_table_stub_rdma.cpp:83-132 | the status, and the commit time exactly for validating and committed transactions, for which the check on it passes |
| Validation.FinalStays | core/common.hpp:43-88 | a final status stays for the rest of the run |
| Validation.CheckDependencies | expert/validation_expert.cpp:217-249 | success means everything not left over has the good status and everything left over was answered to be neither good nor bad; failure means a bad one was answered |
| Validation.WaitFor | expert/validation_expert.cpp:383-447 | the wait ends within the allowed sweeps; success means all awaited have the good status and no answer was other than good or validating; failure means that one was answered otherwise, or was not good in any of the sweeps |
| Validation.StepValidation | expert/validation_expert.cpp:343-381 | the own transaction is asked for before each step and the rejected ones after it, in order; without an abort every conflicting transaction has aborted, or was validating and is awaited; with optimistic validation a conflict aborts only when it was answered to be neither aborted nor validating |
| Validation.Validate | expert/validation_expert.cpp:160-172 | without an abort every conflicting transaction has aborted; an unresolved one was answered wrong, or was not aborted when checked nor in any sweep |
| Validation.DependencyReads | expert/validation_expert.cpp:57-78 | step 0: a read-only transaction waits for its homogeneous pre-reads, an update transaction looks once and fails exactly on an aborted homogeneous or a committed heterogeneous one |
| Validation.Process | expert/validation_expert.cpp:16-96 | a serializable commit vote means every conflicting transaction has aborted and every homogeneous pre-read has committed, now and for the rest of the run, and no heterogeneous one was seen to commit; every abort vote has its reason in the answers; in favourable circumstances the vote is commit; the table is asked to abort exactly for a bad dependency or a conflict found while checking |
| Validation.SettledCommits | expert/validation_expert.cpp:16-96 | conversely, when the conflicting transactions abort, be they validating still when first looked at, and the pre-reads commit, all in time for the last sweep, and without optimistic validation there is no conflict at all, no reason for an abort vote can be found |
| Agreement.VoteBarrier.Work | expert/barrier_expert.cpp:464-494 | one vote is taken in; the decision is broadcast exactly on readiness; the check on the commit time fails exactly for a commit decision without one |
| Agreement.Broadcast | core/message.cpp:363-375 | every node gets the same message |
| Agreement.Decide | expert/barrier_expert.cpp:464-494 | for every tree of votes and arrival order all workers take the same branch with the same commit time, commit exactly when every vote was commit, the committed status is requested once in that case and never otherwise, and the check on the commit time fails exactly for a unanimous vote without one |
| Agreement.GiveUp | expert/terminate_expert.cpp:24-33 | a transaction given up while processing is aborted by every worker |
| RunningList.NodeList.Append | core/running_trx_list.cpp:46-62 | the doubly linked list grows by a node at its tail |
| RunningList.NodeList.Remove | core/running_trx_list.cpp:75-101 | the four cases of unlinking leave the other nodes linked in order |
| RunningList.WatermarkWithout | core/running_trx_list.cpp:82-97 | after a removal the watermark is the first begin time left, or one past all there were; it rises exactly when the first one went |
| RunningList.RunningTrxList.InsertTrx | core/running_trx_list.cpp:46-62 | for increasing begin times the check in UpdateMinBT passes, the watermark is the first begin time and does not fall |
| RunningList.RunningTrxList.EraseTrx | core/running_trx_list.cpp:75-101 | fails exactly for a begin time not running; otherwise the check passes and the watermark is the new first begin time, or one past the largest |
| RunningList.RunningTrxList.UpdateMinBt | core/running_trx_list.cpp:121-127 | the check fails exactly when the watermark would fall |
| Rct.BetweenExact | core/RCT.cpp:23-36 | an id is in the answer exactly when one of its commit times is in the interval |
| Rct.BetweenRows | core/RCT.cpp:23-36 | in sorted rows the answer has one id for each row of the interval, in their order |
| Rct.DropBetween | core/RCT.cpp:38-48 | rows before the interval do not change the answer |
| Rct.RCTable.InsertTrx | core/RCT.cpp:17-21 | rows stay sorted; an existing commit time keeps its row |
| Rct.RCTable.QueryTrx | core/RCT.cpp:23-36 | the ids of the rows in the closed interval, one each and in time order; nothing when it is empty or a single point |
| Rct.RCTable.EraseTrxs | core/RCT.cpp:38-48 | exactly the rows before the watermark go, and no query from the watermark on can tell |
| RctCollect.Collector.Insert | driver/worker.hpp:741-763 | a list is added, and the query is released with the last worker's list |
| RctCollect.CollectAll | driver/worker.hpp:741-763 | for any transactions and any order of replies every validation query is released exactly once, after all workers, with all their lists |
| Worker.TrxIdWorker | core/coordinator.cpp:62-69 | the worker can be recovered from its transaction ids, and its ids increase |
| Worker.WatermarkBelow | core/running_trx_list.cpp:121-127 | the watermark used by the collector is at most every running begin time |
| Worker.CollectSlotsSafe | layout/gc_consumer.cpp:255-264 | erasing slots behind the watermark never removes a running transaction |
| Worker.CollectRowsSafe | layout/gc_consumer.cpp:249-253 | erasing rows behind the watermark leaves all that running transactions can ask for |
| Worker.ReplyExact | driver/worker.hpp:887-898 | a committing transaction is told exactly the local transactions with commit time strictly between its begin and commit time, whatever was collected |
| Worker.DoSafe | driver/worker.hpp:876-941 | an event of the worker keeps these facts exactly when it is not a sync with another worker's minimum ahead of the own one; the local watermark never falls, and when a transaction finishes it becomes the first begin time still running, or one past all there were |
| Worker.SyncSafe | core/running_trx_list.cpp:147-175 | the watermark folded from all workers' minima with max is safe exactly when no other worker's minimum is ahead of the own one |
| Worker.AllSafeExactly | core/running_trx_list.cpp:147-175 | after all workers have folded, all of them are safe exactly when their minima agree |
| Worker.FoldMinima | core/running_trx_list.cpp:152-172 | the loop computes the largest of the minima |
| Worker.ToldAfterCut | core/running_trx_list.cpp:157 | after a sync and a collection of rows a running transaction is told exactly of the commits since it began if and only if none of them is behind the folded watermark |
| Worker.SlotLost | core/running_trx_list.cpp:157 | with another worker ahead of its begin time, a running read-only transaction that is listed may lose its slot, although two later entries of the list stay |
| Worker.OtherAhead | core/running_trx_list.cpp:157 | two concrete runs with a second worker ahead that reach both failures |
| Worker.RunSafe | driver/worker.hpp:876-941 | over every run without such a sync the worker is safe and every local query was answered exactly with respect to the whole run |
| Worker.Run | driver/worker.hpp:876-941 | the loop leaves the state and the answers that the events determine; without a sync that meets another worker ahead, each running transaction is in the status table at or above the watermark, and every local query was answered exactly with respect to the whole run |
| Bookkeeper.Books.Begin | driver/worker.hpp:908-919 | on the real list and table, a begin event does what the event machine says; the new transaction is processing without a commit time, and no other status changes |
| Bookkeeper.Books.Commit | driver/worker.hpp:882-898 | a commit event and its answer; the status becomes validating with the commit time, and the check on it fails exactly for a transaction that is not processing any more |
| Bookkeeper.Books.Finish | driver/worker.hpp:713-719 | a finish event |
| Bookkeeper.Books.End | driver/worker.hpp:934-938 | an end event |
| Bookkeeper.Books.Sync | core/running_trx_list.cpp:147-175 | the collector folds the workers' minima; the books stay safe exactly when no other worker is ahead |
| Bookkeeper.Books.CollectRows | layout/gc_consumer.cpp:249-253 | collection of rows |
| Bookkeeper.Books.CollectSlots | layout/gc_consumer.cpp:255-264 | collection of slots, from both lists as far as the watermark allows |
| Bookkeeper.Books.Lookup | core/transaction_status_table.cpp:49-58 | a running transaction is always found in the table with its last status |
| PlanDag.AllLinesBefore | core/parser.cpp:92-106 | waiting for the lines since the last update is waiting for every earlier line |
| PlanDag.SendKeeps | core/exec_plan.cpp:144-168 | what leaves was not sent before and has all it waits for |
| PlanDag.FillKeeps | core/exec_plan.cpp:104-108 | counting down after an answer keeps every count equal to the number of open dependencies |
| PlanDag.ChildrenWait | core/exec_plan.cpp:104-108 | everything that waits for an unanswered query is held with a positive count, so no count underflows |
| PlanDag.Progress | core/exec_plan.cpp:144-168 | an unfinished plan with nothing in flight has a query to release |
| PlanDag.CommitLast | core/parser.cpp:1846-1853 | the commit statement leaves only when every line is answered |
| Placeholders.PatchTakes | core/exec_plan.cpp:80-98 | an init expert has the answer between its parameters at the given place, or behind them for -1, and the parameters on either side as before; an addE expert has its one value as the given parameter and the others as before |
| Placeholders.PatchKeeps | core/exec_plan.cpp:79-102 | writing one placeholder leaves all others in place |
| Placeholders.TookOne | core/exec_plan.cpp:79-102 | over any writes into a query, an expert that one answer goes to has taken it |
| Placeholders.AddEHolds | core/exec_plan.cpp:79-102 | over any writes into a query, a parameter of an addE expert is the answer written to it last, or as it was parsed |
| Placeholders.Untouched | core/exec_plan.cpp:79-102 | over any writes into a query, an expert that no answer goes to is as it was parsed |
| TrxPlan.TargetsHeld | core/exec_plan.cpp:79-102 | while an answer is awaited all its placeholder targets are still held |
| TrxPlan.SendOk | core/exec_plan.cpp:144-168 | what is sent is held and was not sent before; after an abort it is at most the commit statement without its validation steps |
| TrxPlan.Plan.RegDependency | core/exec_plan.cpp:49-56 | a dependency is counted once |
| TrxPlan.Plan.RegPlaceHolder | core/exec_plan.cpp:42-47 | the position is recorded and the dependency registered |
| TrxPlan.Plan.AddLine | core/parser.cpp:85-107 | an updating line waits for all lines since the last update, a reading line for that update, each also for the lines it refers to, and for nothing else; exactly its references are recorded, in order |
| TrxPlan.Plan.AddCommitStatement | core/parser.cpp:1832-1853 | the commit statement waits for exactly the lines since the last update |
| TrxPlan.DepsExactly | core/parser.cpp:92-106 | a query waits for a line exactly when it refers to it, or no update lies between the two and the query updates, is the commit statement, or the line updates |
| TrxPlan.Plan.Parse | core/parser.cpp:78-113 | fails exactly when a variable is unknown; otherwise exactly the dependencies and placeholders the lines ask for are registered |
| TrxPlan.RefusedExactly | core/exec_plan.cpp:88-97 | writing an answer fails exactly when it has not one value and an addE expert asks for it |
| TrxPlan.Plan.Abort | core/exec_plan.cpp:58-75 | only the shortened commit statement is left to send; a second abort does nothing |
| TrxPlan.Plan.FillResult | core/exec_plan.cpp:77-141 | every held query has taken the answer at every recorded position, one after the other, and is unchanged otherwise; all positions are still held; false exactly when an addE expert gets an answer of the wrong size, which aborts |
| TrxPlan.Plan.NextQueries | core/exec_plan.cpp:144-168 | everything without an open dependency leaves in index order, as it is held, exactly once |
| TrxPlan.Plan.ReplyAbort | driver/worker.hpp:1168-1170 | an abort reply leaves what waits for the query held |
| PlanAnswers.AnsweredNext | core/exec_plan.cpp:79-102 | writing an answer at the recorded positions gives it to every line that refers to it |
| PlanAnswers.InitCarries | core/exec_plan.cpp:79-102 | whatever the order of the answers, an init expert that one reference names has exactly the answer to it between its parameters where the reference says |
| PlanAnswers.AddECarries | core/exec_plan.cpp:79-102 | likewise a parameter of an addE expert that one reference names is the answer to it |
| PlanAnswers.OthersAsWritten | core/exec_plan.cpp:79-102 | experts and addE parameters that no reference names are as they were parsed |
| PlanRun.LawfulAt | core/exec_plan.cpp:42-168 | at every moment of a lawful run each step was allowed by what went before |
| PlanRun.SomethingToSend | core/exec_plan.cpp:144-168 | an unfinished plan that waits for nothing, after an abort not for the commit statement, has something to send |
| PlanRun.InFlight | core/exec_plan.cpp:144-168 | after a batch has left, an unfinished plan has something in flight, after an abort the commit statement |
| PlanRun.ReleasableIsDue | core/exec_plan.cpp:144-168 | what has no count left is exactly what was not sent and has all its dependencies answered, or after an abort the commit statement |
| PlanRun.Run | driver/worker.hpp:1152-1210 | for every transaction and every sequence of reports the trace is the one of an ideal scheduler that only remembers what was sent, answered and given up; each query is sent at most once and only after all it waits for was answered, absent an abort the commit statement only after every line, after an abort only the commit statement; the run is over or something is in flight, after an abort the commit statement; every line left with the answers to all the lines it refers to, the commit statement whole, or after an abort as the terminate expert alone |
| Reorder.MoveForward | core/parser.cpp:605-637 | one step bubbles forward by swaps to where the model puts it |
| Reorder.ReOrderSteps | core/parser.cpp:603-641 | the in-place loop computes the model's order: the same steps, in text order unless the later one may overtake, and each as far in front as it may |
| Reorder.SameSteps | core/parser.cpp:603-641 | no step is lost, added or changed |
| Reorder.FixedStays | core/parser.cpp:476-501 | steps that are not reordered keep their places |
| Reorder.OnlyPassingInverts | core/parser.cpp:611-634 | two steps change places only when the later one has strictly smaller priority, and never a label-reading where or dedup with an as it followed |
| Reorder.PassesExactly | core/parser.cpp:476-501 | a step may pass another exactly when its class comes earlier in the list is/where, has and its kin, hasLabel, and/or/not, dedup, as, order, a where with a sub-query counting as an and, and it is not a label-reading where or dedup meeting an as |
| Reorder.MovesAsFar | core/parser.cpp:623-634 | every step moves as far as it may: behind any step written before it stands one that it may not overtake |
| Reorder.OnlyArrangement | core/parser.cpp:603-641 | the result is the only arrangement of the steps that is in order and as far in front as may be |
| Reorder.ClassOrder | core/parser.cpp:603-641 | between two fixed steps a later class stands before an earlier one only around a where with a sub-query, which later steps meet as a where, or an as followed by a label-reading where or dedup |
| Reorder.Stable | core/parser.cpp:603-641 | steps of the same class stay in text order |
| ReorderMeaning.FilterSort | core/parser.cpp:603-641 | any filter commutes with stable sorting |
| ReorderMeaning.DistinctSort | core/parser.cpp:603-641 | keeping first occurrences of values commutes with stable sorting by value |
| ReorderMeaning.DedupedUnique | core/parser.cpp:603-641 | behind an unkeyed dedup no value repeats until a fixed step comes |
| ReorderMeaning.PassingCommutes | core/parser.cpp:611-634 | a step that may pass another means the same on either side of it, except a filter and a keyed dedup, a keyed dedup and an order, a label-reading filter and an as, and, when values repeat, a label-reading filter and an unkeyed dedup |
| ReorderHarm.UnharmedMeans | core/parser.cpp:603-641 | a query none of whose later-written steps stands before an earlier one it must not pass returns the same list of histories and values, whatever its steps do |
| ReorderHarm.HarmedDiffers | core/parser.cpp:603-641 | every other query returns something else for some meaning of its steps and some input |
| ReorderHarm.MeaningKept | core/parser.cpp:603-641 | so reordering keeps the meaning of a query for all step meanings and inputs if and only if it moves no filter in front of a keyed dedup, no keyed dedup in front of an order, no label-reading filter in front of an as, and no label-reading filter in front of an unkeyed dedup that is the first since a fixed step |
| ReorderHarm.WrittenWell | core/parser.cpp:603-641 | from the written query alone: when between two fixed steps no step was written behind one it must not pass, the meaning is kept |
| ReorderHarm.DedupWhereDiffers | core/parser.cpp:611-634 | dedup().where(eq('a')) is reordered and changes its result |
| ReorderHarm.AsAndDiffers | core/parser.cpp:611-634 | as('a').and(where('a',eq('b'))) is reordered and changes its result: the label check does not look into sub-queries |
| PlanGraph.StepByStep | core/parser.cpp:410-420 | the graph has one expert for every step, in the order in which the steps are written, of the kind the step asks for |
| PlanGraph.SpineNext | core/parser.cpp:461-466 | from the expert appended last the links lead strictly backwards along enclosing branches to the last step of the level |
| PlanGraph.Redirect | core/parser.cpp:764-771 | redirecting that step redirects the whole level |
| PlanGraph.Parser.FindLast | core/parser.cpp:764-770 | the search ends at the last step of the level |
| PlanGraph.Parser.ParseSub | core/parser.cpp:738-780 | every sub-query is laid out and led back to the branching expert |
| PlanGraph.Parser.ParseQuery | core/parser.cpp:410-420 | for every nesting the parser builds the intended graph |
| PlanRouting.GraphLinked | core/parser.cpp:738-780 | in that graph every link stays in its level, past all that is nested, or returns to the enclosing branching expert |
| PlanRouting.ClimbOut | core/message.cpp:686-693 | leaving an enclosing branch drops one record and there is one to drop |
| PlanRouting.StepOn | core/message.cpp:715-734 | passing a step keeps the records matched to the level |
| PlanRouting.NextOnTheWay | core/message.cpp:393-396 | the next message of an expert starts with matching records |
| PlanRouting.BranchOnTheWay | core/message.cpp:456-463 | so does a message into a sub-query with a record pushed for it |
| PlanRouting.UpdateRoute | core/message.cpp:668-706 | ends, never pops from an empty list, arrives with one record per level, and leaves exactly the transparent branches that end here, one record each |
| PlanRouting.UpdateCollectionRoute | core/message.cpp:708-739 | the loop ends and never pops too often; empty data stops at the first expert on its links that is a barrier, a labelled parent, or a branch met for the first time |
| MessageWalk.Walk | core/message.cpp:393-463 | whatever sub-queries a message is sent into: the first time at a branching expert it enters the chosen one, otherwise it follows the links; at every stop it carries exactly the records of the branches around it, and it ends at the end expert with none |
| MessageWalk.TrailFurther | core/message.cpp:668-706 | on every such trail each stop lies further on than all before it, so no stop is made twice |
| MessageWalk.BackOnce | core/message.cpp:668-706 | on every such trail a labelled branch that was entered is come back to, later and exactly once |
| Dispatch.Message.InsertPair | core/message.cpp:756-793 | takes values in order until not one more fits, and nothing is lost; into an empty message something goes exactly when the first item fits |
| Dispatch.Message.InsertAll | core/message.cpp:795-803 | the same for a list of pairs |
| Dispatch.Pack | core/message.cpp:640-653 | when every single item fits the loop ends, sends at least one message, sends exactly the items in order, and stays within the size limit |
| Dispatch.Turns | core/message.cpp:640-653 | the loop stopped after any number of turns takes all of them unless nothing is left before; what was sent and what is left are the items in order; given one turn an item, nothing is left if and only if every item fits |
| Dispatch.NeverEnds | core/message.cpp:640-653 | over every chain of turns, with an item anywhere in the list that does not fit something is left after every number of turns |
| Dispatch.EndsInTime | core/message.cpp:640-653 | over every chain of turns, when every item fits there are at most as many turns as items |
| Dispatch.Stuck | core/message.cpp:640-653 | a concrete list and limit at which no number of turns ends the loop |
| Dispatch.SplitValues | core/message.cpp:595-606 | each value goes once to each distinct node of its end points |
| Dispatch.RouteValues | core/message.cpp:585-612 | every node's list holds exactly its items, in order |
| Dispatch.ItemsForCount | core/message.cpp:585-612 | a node is given a value with its history exactly as often as it came in, if the value or its other end lives there, and otherwise not at all |
| Dispatch.BaresCount | core/message.cpp:585-612 | the histories without values are exactly those that came in without |
| Dispatch.DispatchData | core/message.cpp:557-666 | at least one message; every node is sent exactly its routed items in order, within the size limit; histories without values are sent on to a barrier |
| StreamBarriers.Slot | expert/barrier_expert.cpp:512-541 | finding or making the entry of a history, and throwing away a sole empty one, loses no kept value |
| StreamBarriers.Collect | expert/barrier_expert.cpp:262-269 | the loop over the branches forwards the histories of all branches, each once and with its values |
| StreamBarriers.RangeBarrier.Work | expert/barrier_expert.cpp:496-553 | one message of a range barrier |
| StreamBarriers.RangeRun | expert/barrier_expert.cpp:496-566 | however the stream is cut into messages and in whatever order the branches are read, what is forwarded has every history at most once, each of them came in, every branch that came in is there, and a history holds exactly those of its values whose index in its branch lies in the range, in order |
| StreamBarriers.RangeIsSlice | expert/barrier_expert.cpp:503-549 | what is in range is the slice of the stream from the lower to the upper bound, both included, or to its end for -1 |
| StreamBarriers.DedupBarrier.Work | expert/barrier_expert.cpp:196-258 | one message of a dedup barrier, keyed or not |
| StreamBarriers.DedupRun | expert/barrier_expert.cpp:196-269 | likewise what is forwarded holds, history by history, exactly the values that had not come before in their branch, or with keys those whose labels under the keys had not |
| StreamBarriers.FirstsAt | expert/barrier_expert.cpp:196-258 | of every history exactly the items that are the first of their branch with their mark are kept, each in its place |

## Left out

- BranchFilter.FilterRun: stated for at most 30 branches, because the source shifts a signed 1 by the branch index and a larger shift is undefined there.
- TrxPlan.Plan.Parse: takes lines already split into experts, update flag and variable references; splitting the text at semicolons, assignments and parentheses, and the parameter checks of the single steps, are not modelled; positions of placeholders are the ones that parsing produces, so they exist in their experts.
- TrxPlan.Plan.FillResult: the position record is not rewritten when it stands for the end of the parameters, because the parser never produces such a record; the header lines of the results are not modelled, because they are string formatting; the reply for a parser error is not modelled.
- PlanRun.Run: reports for queries not in flight and abort reports for the commit statement are taken not to occur, because the experts send one normal reply per query and the commit statement replies normally.
- RingMailbox.Ring.Reserve: payloads of length zero are excluded, because a zero header is how the ring says that it is empty and the mailbox never sends one.
- StatusTable.Table.Insert: ids are required to be new to the table, because the coordinator hands out every id once.
- StatusTable.Table.RecordNro: called once per ended update transaction, because the worker requests one end time for each.
- StatusTable.Table.EraseList: the snapshot of the list's tail that the collector takes is the current tail, because appending runs on another thread and does not touch the entries concerned.
- Dispatch.DispatchData: the count shortcut, which replaces values by their number, is not modelled.
- ReorderHarm.MeaningKept: the steps have their traversal meaning, one history per traverser and a stable order that keeps it; the order barrier of the code forwards one history per branch, which is not modelled. A where on labels is taken to depend on labels in any way, also when it only compares with an aggregate.
- PlanRouting.UpdateRoute: the receiver's node and thread are not modelled, only the step, the records and the kind of route.
- PlanRouting.UpdateCollectionRoute: likewise.
- MessageWalk.Walk: one message at a time; that a labelled branch waits for all its results is FanIn's part.
- FilterMeaning.Filter: the sub-queries are given as functions that carry histories on and whose having a result does not depend on the number written into the history.
- Dispatch.Turns: the size limit is at least the size of an empty message, because the code subtracts the two without a sign.
- Worker.Run: a sync that meets another worker's minimum ahead breaks safety, because the code folds the minima with max; SyncSafe and OtherAhead state this exactly. The other workers appear only through their minima.
- Bookkeeper.Books.Sync: the books are not claimed to be in order after such a sync.
- Building the map of steps to check (steps 1.1 to 1.4 of validation), which depends on storage code; the conflicts found by `valid()` are given.
- Full serializability and the multi-version lists, whose code is not part of this model.
- Completeness of the recently-committed lists of other workers, which the code modelled here does not establish.
- Torn reads: a bucket read over RDMA is taken as one moment.
- Validation.Process: every status read finds its transaction; the code goes on with whatever status it has when a read does not find the id, and that is not modelled.
- Datagram.TwoMessages: stated for messages of equal length; a late packet of a message of another length makes the code collect into a buffer of that other length, which is not modelled.
- 64-bit and 8-bit wrap-around of counters, offsets and query numbers.
- Group, order, count, aggregate and math barriers, index push-down, clock calibration, sockets, loading and configuration: easy, or dependent on code that is not part of this model.
