# A model of the AMD XDNA driver's hard parts

This project models, in Dafny, the parts of the XDNA kernel driver and its virtio shim that keep real state:

- the mailbox between the driver and the firmware: the ring in device memory, message ids, responses, and the
  interrupt register that announces messages (`Mailbox*.dfy`);
- the context run queue, which multiplexes contexts onto a limited number of hardware contexts (`RunQueue*.dfy`,
  on top of `ContextLists.dfy`);
- the life of a job, from submission to its last reference (`JobLifecycle.dfy`);
- the column solver with its shared partitions and clock levels (`Solver*.dfy`) and the list of start columns it is
  given (`ColumnList.dfy`);
- the locking of buffer reservations with back-off (`ObjectLocks.dfy`);
- the shim's address range manager (`RangeSets.dfy`, `RangeMgr.dfy`);
- the drain of the firmware's trace ring (`TraceDrain.dfy`).

`dafny verify dfyconfig.toml` checks everything.

Code that updates state step by step is a class whose methods update fields or arrays, proved against functions on
values. Code whose point is how several threads interleave (ring writer and reader, interrupt worker and firmware, job
submission and scheduler) is a state machine, and its theorems hold for every schedule. Outcomes that come from outside
(whether a connect, a load, a lock or a memory allocation succeeds) are parameters.

Ring offsets are counted in 32-bit words. 32- and 64-bit wrap-around is written out where the code relies on it or
suffers from it.

## What turned out not to hold

These promises of the code hold only under a condition, which the model states exactly.

- The yield work marks a context connected without looking at its list. It keeps the run queue sound if and only if
  the context still has jobs, somebody waits, or it is on the connected list. The idle handler queues this work for a
  connected context, and a pause that comes first does not cancel it.
- The notice that a submission gives when it fails, or a job when it completes, keeps the run queue sound if and only
  if the context was not asked to give way or is on the connected list. A submitter that waited for a connection does
  not look again once it holds the lock, so a failed submission can give the notice after the context was chosen as a
  victim and paused. A completing job cannot, because a pause waits for it.
- Deleting a context is sound if and only if it is not on a run queue.
- Adding a context is sound if and only if its priority is one of the four that have a run queue. The driver takes the
  priority as the user gave it (src/driver/amdxdna/amdxdna_ctx.c:108-115), and any other one indexes outside the queues
  later.
- A send refused for lack of room has already used up a message id. The next accepted message is in sequence if and
  only if the number of refusals brings the id cursor to zero or back to just the id that is due.
- A response that comes before its message is in the ring runs the callback of a send that may still be refused.
- Live jobs share a slot of the four-entry table when permits come back out of order, as when jobs without a command
  pass one that is with the firmware.
- Freeing an address range by an address that is not the start of an allocated range, yet is taken for one, breaks
  the manager. A range that starts at the last 64-bit address cannot be freed, and the range of all 64-bit addresses
  looks empty to the allocator. An allocation of no bytes breaks the manager unless nothing is free, or all addresses
  are in one range.
- The free-column test is wrong when the 32-bit sum of a start column and a width wraps to a column in the bitmap. The
  lists of start columns that the driver makes never hold such a column.
- A trace drain loses data as soon as a whole ring was produced since the last one.

## Model

| member | source | states |
|---|---|---|
| `MailboxRing.EmptyRingAcceptsIff` | src/driver/amdxdna/amdxdna_mailbox.c:288-311 | a message of n words is accepted by an empty ring at every position if and only if 2n is below the ring size, so the bound is tight |
| `MailboxRing.EmptyIffHeadMeetsTail` | src/driver/amdxdna/amdxdna_mailbox.c:279-321 | head equals tail exactly when no message is unread |
| `MailboxRing.SendKeepsLayout` | src/driver/amdxdna/amdxdna_mailbox.c:288-318 | writing a placed message, with or without a tombstone, changes no unread word and makes it the newest unread message |
| `MailboxRing.WholePackagePasses` | src/driver/amdxdna/amdxdna_mailbox.c:409-419 | the reader's wrapping size checks accept a whole message exactly when it has a payload, even against an old tail |
| `MailboxRing.PeekFindsFront` | src/driver/amdxdna/amdxdna_mailbox.c:375-407 | the reader looks at the oldest unread message; a tombstone is never taken for a message, nor the reverse |
| `MailboxRing.ReadGetsFront` | src/driver/amdxdna/amdxdna_mailbox.c:360-433 | a read returns the oldest unread message whole, reports an empty ring exactly when it is empty, and fails exactly on a message without payload |
| `MailboxRing.Ring.SendMsg` | src/driver/amdxdna/amdxdna_mailbox.c:279-321 | a send appends the message to the unread ones or is refused for lack of room and changes nothing |
| `MailboxRing.Ring.GetMsg` | src/driver/amdxdna/amdxdna_mailbox.c:360-433 | a read takes the oldest unread message off the ring, or leaves the ring alone |
| `MailboxInterleaving.StepKeepsInv` | src/driver/amdxdna/amdxdna_mailbox.c:279-433 | every single access of writer or reader keeps the ring laid out, with what either side remembers still safe to act on |
| `MailboxInterleaving.PopKeepsWriterInv` | src/driver/amdxdna/amdxdna_mailbox.c:286-311 | room the writer found with an old head is still there after the reader moves on |
| `MailboxInterleaving.ReaderGetsWhatWasAccepted` | src/driver/amdxdna/amdxdna_mailbox.c:279-433 | in every interleaving the reader gets exactly the accepted messages, in order and intact, and its error checks fire only on a message without payload; that they do get through is `MailboxProgress.MessageGetsThrough` |
| `MailboxInterleaving.UnreadWordsStay` | src/driver/amdxdna/amdxdna_mailbox.c:279-433 | in every interleaving no step changes a word that is still to be read |
| `MailboxInterleaving.NoSideBlocks` | src/driver/amdxdna/amdxdna_mailbox.c:279-433 | in every interleaving a side in the middle of its work can go on, so no access leaves the ring |
| `MailboxProgress.ReaderComesBackWithMessage` | src/driver/amdxdna/amdxdna_mailbox.c:360-433 | the reader goes back to waiting only with one more message received, the oldest one, or having found its head equal to the tail it read |
| `MailboxProgress.ReaderHasOneWay` | src/driver/amdxdna/amdxdna_mailbox.c:360-433 | from where the reader stands it has at most one next step |
| `MailboxProgress.MessageGetsThrough` | src/driver/amdxdna/amdxdna_mailbox.c:360-433 | in every interleaving, whatever was done before, the next message with a payload is received by the time the reader has taken seven steps more than it has words |
| `MailboxProgress.ReaderAloneReceives` | src/driver/amdxdna/amdxdna_mailbox.c:360-433 | the reader alone receives it within that many steps |
| `MailboxProgress.BeginWritesIff` | src/driver/amdxdna/amdxdna_mailbox.c:286-301 | a package is taken up exactly when the head that was read leaves room for it, and is refused otherwise without any change |
| `MailboxProgress.PackageIsPublished` | src/driver/amdxdna/amdxdna_mailbox.c:302-318 | in every interleaving a package taken up is published by the time the writer has taken two steps more than it has words |
| `MailboxRx.WorkerExitLosesNothing` | src/driver/amdxdna/amdxdna_mailbox.c:435-479 | over every interleaving with the ring's own writer and reader: when the worker exits without error every message announced before its last look at the interrupt register was received, as published |
| `MailboxRx.WaitingMessageHasQueuedWork` | src/driver/amdxdna/amdxdna_mailbox.c:435-493 | between runs of the worker, an announced message not yet received has a run of the worker queued |
| `MailboxRx.WaitingMessageKeepsIohub` | src/driver/amdxdna/amdxdna_mailbox.c:510-550 | for the poll daemon, an announced message not yet received keeps the register raised unless the channel is being drained |
| `MailboxRx.StepKeepsInv` | src/driver/amdxdna/amdxdna_mailbox.c:435-550 | a tail that meets the head, read after the register was cleared, shows that everything announced by then was received |
| `MailboxRxProgress.WorkGoesOn` | src/driver/amdxdna/amdxdna_mailbox.c:435-479 | once the firmware is quiet, every step of the worker leaves it less to do, by a measure of the words still unread, and leads to no error |
| `MailboxRxProgress.WorkerGoesIdle` | src/driver/amdxdna/amdxdna_mailbox.c:435-479 | the worker then comes to its end, and has received all that was published if it was up to date |
| `MailboxRxProgress.DueRunReceivesAll` | src/driver/amdxdna/amdxdna_mailbox.c:435-493 | a run of the worker that is due receives everything published, and no other run is due after it |
| `MailboxChannel.NoIdLeft` | src/driver/amdxdna/amdxdna_mailbox.c:241-257 | the cyclic allocation of an id fails only when all 256 are taken |
| `MailboxChannel.Channel.Acquire` | src/driver/amdxdna/amdxdna_mailbox.c:646-676 | a new message gets an id no outstanding message has, or is refused exactly when the channel is bad or no id is left |
| `MailboxChannel.Channel.Complete` | src/driver/amdxdna/amdxdna_mailbox.c:681-696 | the second half of a send: the message becomes outstanding, or the ring was full and its id is given back; a response may have overtaken it |
| `MailboxChannel.Channel.Respond` | src/driver/amdxdna/amdxdna_mailbox.c:323-352 | a response takes its message out of the table and runs its callback once, also when the message is not in the ring yet; one without the magic upper bits, out of sequence on a user channel, unknown or failing marks the channel bad |
| `MailboxChannel.Channel.Release` | src/driver/amdxdna/amdxdna_mailbox.c:911-952 | at the end of the channel's life each accepted message's callback has run exactly once, and a refused one's never unless a response overtook its send |
| `MailboxChannel.AnsweredThenRefused` | src/driver/amdxdna/amdxdna_mailbox.c:323-352 | a response that overtakes its send on a management channel: the callback has run once, and the send is refused after that |
| `MailboxContiguity.PassesIffSentInSequence` | src/driver/amdxdna/amdxdna_mailbox.c:221-257 | in any run, the response at the front passes the sequence check if and only if its message's id followed the one accepted before it, or was zero |
| `MailboxContiguity.InOrderResponsesPass` | src/driver/amdxdna/amdxdna_mailbox.c:221-257 | as long as no send is refused for room, every in-order response passes, for runs of any length and across every wrap at 256 |
| `MailboxContiguity.AcceptedAfterRefusalsFollowsIff` | src/driver/amdxdna/amdxdna_mailbox.c:681-692 | from any reachable state, after any number of refused sends in a row, the next accepted message is in sequence if and only if that many turns bring the cursor to zero or to the id that is due, which is known before |
| `MailboxContiguity.RefusalsAfterAcceptance` | src/driver/amdxdna/amdxdna_mailbox.c:681-692 | after an accepted send, the id that is due comes up again after a multiple of as many refusals as there are free ids |
| `MailboxContiguity.AllocGoesRound` | src/driver/amdxdna/amdxdna_mailbox.c:241-257 | the cyclic allocation hands out the free ids in turn, from the last to the first again |
| `MailboxContiguity.OneRefusalBreaksSequence` | src/driver/amdxdna/amdxdna_mailbox.c:681-692 | the shortest run in which a refused send makes a later response fail the check |
| `MailboxReplay.SendOn` | src/driver/amdxdna/amdxdna_mailbox.c:241-257 | a send on a channel hands out the ids, and leaves the table and the cursor, as the runs above say |
| `MailboxReplay.RespondOn` | src/driver/amdxdna/amdxdna_mailbox.c:323-352 | an in-order response is taken by the channel exactly if it passes the sequence check of those runs |
| `MailboxReplay.Replay` | src/driver/amdxdna/amdxdna_mailbox.c:221-257 | a new user channel fails only at a response to a message sent out of sequence, and never if every send found room |
| `RunQueueSpec.StartKeepsInv` | src/driver/amdxdna/aie2_ctx_runqueue.c:160-181 | starting a waiting context, connected or dead, keeps it on exactly one list, the counters right and the connected list ordered |
| `RunQueueSpec.StopKeepsInv` | src/driver/amdxdna/aie2_ctx_runqueue.c:183-199 | stopping any context keeps lists, counters and order |
| `RunQueueSpec.DispatchKeepsInv` | src/driver/amdxdna/aie2_ctx_runqueue.c:206-218 | dispatching a disconnected context keeps lists, counters and order |
| `RunQueueSpec.CancelIsOneMove` | src/driver/amdxdna/aie2_ctx_runqueue.c:220-233 | cancelling moves a context twice, and the first move is undone by the second |
| `RunQueueSpec.CancelKeepsInv` | src/driver/amdxdna/aie2_ctx_runqueue.c:220-233 | cancelling a waiting context keeps lists, counters and order |
| `RunQueueSpec.YieldKeepsInvIff` | src/driver/amdxdna/aie2_ctx_runqueue.c:307-335 | the yield work keeps the invariant if and only if the context has jobs, somebody waits, or it is on the connected list |
| `RunQueueSpec.NoticeKeepsInvIff` | src/driver/amdxdna/aie2_ctx_runqueue.c:481-492 | the notice of a completed job or a failed submission keeps the invariant if and only if the context was not asked to give way or is on the connected list |
| `RunQueueSpec.AddKeepsInvIff` | src/driver/amdxdna/aie2_ctx_runqueue.c:564-586 | adding a context below the limit keeps lists, counters and order if and only if its priority has a run queue |
| `RunQueueSpec.DelKeepsInvIff` | src/driver/amdxdna/aie2_ctx_runqueue.c:588-602 | deleting a context keeps the invariant if and only if it does not wait on a run queue |
| `RunQueueEffects.StartEffect` | src/driver/amdxdna/aie2_ctx_runqueue.c:160-181 | a started context leaves its run queue, and joins the connected list as the newest or the disconnected list as dead; all other contexts keep their places |
| `RunQueueEffects.StopEffect` | src/driver/amdxdna/aie2_ctx_runqueue.c:183-199 | a stopped context goes from the connected list to the end of the disconnected one and frees a hardware context; any other is left alone |
| `RunQueueEffects.CancelEffect` | src/driver/amdxdna/aie2_ctx_runqueue.c:220-233 | a cancelled context goes from its run queue to the end of the disconnected list, with both counters one less |
| `ContextLists.InsertKeepsSorted` | src/driver/amdxdna/aie2_ctx_runqueue.c:111-140 | a newly connected context is inserted so that the list stays in priority order, newest first among equals |
| `RunQueuePasses.OrderOk` | src/driver/amdxdna/aie2_ctx_runqueue.c:65-94 | the order of service holds every waiting context once, by priority |
| `RunQueuePasses.DispatchedIsServedLast` | src/driver/amdxdna/aie2_ctx_runqueue.c:206-218 | a context that starts to wait is served after all of its priority or better and before all others, whose order stays |
| `RunQueuePasses.ConnectStep` | src/driver/amdxdna/aie2_ctx_runqueue.c:247-259 | each round of the connect pass starts the next waiting context of that order, whether or not it connects |
| `RunQueuePasses.VictimIsLowestAndOldest` | src/driver/amdxdna/aie2_ctx_runqueue.c:142-158 | the victim is the lowest and oldest connected context not asked yet and not above the waiter; there is none exactly when all of them are above |
| `RunQueuePasses.BlockStep` | src/driver/amdxdna/aie2_ctx_runqueue.c:266-282 | each round of the victim pass asks one more context, never above its waiter, and leaves all others alone |
| `RunQueuePasses.NoVictimForLater` | src/driver/amdxdna/aie2_ctx_runqueue.c:266-282 | stopping at the first waiter without a victim loses nothing, as no later waiter could have one |
| `RunQueueRuns.EveryStateKeepsInv` | src/driver/amdxdna/aie2_ctx_runqueue.c:160-335 | in every state of every run each context is on the one list its status names, every counter is the length it stands for and within its limit, and the connected list is ordered |
| `RunQueueHazards.WaitingMustNotBeDeleted` | src/driver/amdxdna/aie2_ctx_runqueue.c:588-602 | an explicit run to a queue that the deletion of a waiting context breaks |
| `RunQueueHazards.PausedMustNotYield` | src/driver/amdxdna/aie2_ctx_runqueue.c:307-335 | an explicit run to a context that is idle and connected, for which the idle handler queues the yield work, and then paused; the work then breaks the queue |
| `RunQueueHazards.FailedSubmissionMustNotGiveNotice` | src/driver/amdxdna/aie2_ctx_runqueue.c:481-520 | an explicit run to a context that connected, was chosen as the victim for a waiter and paused before its submitter entered; the notice of the failing submission then breaks the queue |
| `RunQueueRuns.StuckOnlyAfterEarlierSight` | src/driver/amdxdna/aie2_ctx_runqueue.c:354-382 | the stuck detector fires only if some connected context has outstanding jobs and each such context, since it was added, had the same completed count at an earlier check that saw it so |
| `RunQueueRuns.SecondCheckFires` | src/driver/amdxdna/aie2_ctx_runqueue.c:337-382 | of two checks with no step between them the second fires exactly if some connected context has outstanding jobs |
| `RunQueue.RunQueue.SelectNext` | src/driver/amdxdna/aie2_ctx_runqueue.c:65-94 | repeated calls enumerate the waiting contexts in the order of service |
| `RunQueue.ConnPosition` | src/driver/amdxdna/aie2_ctx_runqueue.c:111-140 | the walk over the connected list finds the place that keeps it ordered |
| `RunQueue.RunQueue.ConnectPass` | src/driver/amdxdna/aie2_ctx_runqueue.c:247-259 | the pass ends, has started exactly a prefix of the waiting contexts, and then nobody waits or the hardware is full |
| `RunQueue.RunQueue.SelectCtxToBlock` | src/driver/amdxdna/aie2_ctx_runqueue.c:142-158 | the backward walk finds the victim: not asked yet, not above the waiter, and every other such context is of higher priority or connected later; it finds none exactly when there is none |
| `RunQueue.RunQueue.VictimPass` | src/driver/amdxdna/aie2_ctx_runqueue.c:266-282 | at most one victim per waiter, each the lowest and oldest choice, asked to give way and on its way out exactly if it has no pending and no outstanding jobs; nothing else changed, and no later waiter could have had one |
| `RunQueue.RunQueue.SchedWork` | src/driver/amdxdna/aie2_ctx_runqueue.c:235-284 | the connect pass runs to its end, and victims are asked only when the hardware is full then |
| `RunQueue.RunQueue.DispatchWork` | src/driver/amdxdna/aie2_ctx_runqueue.c:286-305 | only a disconnected context is dispatched: it leaves the disconnected list for the end of its run queue, counted there, and the queue stays sound |
| `RunQueue.RunQueue.YieldWork` | src/driver/amdxdna/aie2_ctx_runqueue.c:307-335 | an idle connected context leaves the hardware while somebody waits: off the connected list, last on the disconnected one, its request to give way cleared, one hardware context free; if nobody waits it stays connected; with jobs nothing changes; the queue stays sound exactly under the condition above |
| `RunQueue.RunQueue.Notice` | src/driver/amdxdna/aie2_ctx_runqueue.c:481-492 | a context asked to give way is on its way out, and its yield work is queued exactly when it is idle; otherwise nothing changes; the queue stays sound exactly under the condition above |
| `RunQueue.RunQueue.CancelWait` | src/driver/amdxdna/aie2_ctx_runqueue.c:522-533 | an interrupted submitter's context ends last on the disconnected list, off its run queue or off the hardware with that counter one less, or nothing changes; the queue stays sound |
| `RunQueue.RunQueue.PauseAll` | src/driver/amdxdna/aie2_ctx_runqueue.c:416-434 | pausing empties the connected list into the disconnected one, in order, marks exactly these contexts disconnected, and leaves the run queues alone |
| `RunQueue.RunQueue.AddCtx` | src/driver/amdxdna/aie2_ctx_runqueue.c:564-586 | a context is added exactly when the limit is not reached, and otherwise nothing changes; the queue stays sound exactly under the condition above |
| `RunQueue.RunQueue.DelCtx` | src/driver/amdxdna/aie2_ctx_runqueue.c:588-602 | the context is gone from its list and its hardware context is free again, all others stay in order; the queue stays sound exactly when the context did not wait |
| `RunQueue.RunQueue.IsAllStuck` | src/driver/amdxdna/aie2_ctx_runqueue.c:354-382 | the result is true exactly when some connected context has outstanding jobs and none moved since the last check, and the counts are remembered |
| `JobLifecycle.StepKeepsInv` | src/driver/amdxdna/aie2_ctx.c:849-959 | every step of submitter, scheduler, mailbox or completion keeps the accounting of permits, references and releases |
| `JobLifecycle.PermitsAndReferencesAddUp` | src/driver/amdxdna/aie2_ctx.c:19-39 | in every interleaving free and held permits make four, each reference count is the number of live holders, each released job is counted once, and so is each completed one |
| `JobLifecycle.StepUsesUpItsJob` | src/driver/amdxdna/aie2_ctx.c:283-353 | every step after submission brings its job closer to its end and leaves other jobs alone |
| `JobLifecycle.QuiescentMeansAllReleased` | src/driver/amdxdna/aie2_ctx.c:19-39 | once no job can take a step, every submitted job is released and all permits are back, so a stop that waits for them ends |
| `JobLifecycle.SharesSlotIffTaken` | src/driver/amdxdna/aie2_ctx.c:283-334 | only a push makes two live jobs share a slot, and exactly when the slot it takes is taken |
| `JobLifecycle.InOrderLiveJobsHaveOwnSlots` | src/driver/amdxdna/aie2_ctx.c:155-176 | while permits come back in submission order live jobs never share a slot |
| `JobLifecycle.OutOfOrderJobsShareSlot` | src/driver/amdxdna/aie2_ctx.c:308-311 | out of order they can, by an explicit run without failures: jobs without a command pass one that is with the firmware |
| `SolverSpec.FreeCheckIff` | src/driver/amdxdna/aie2_solver.c:187-194 | the test for free columns is right except where the 32-bit sum wraps to a column in the bitmap |
| `SolverSpec.FreeCheckWraps` | src/driver/amdxdna/aie2_solver.c:187-194 | a column outside the bitmap for which the test passes |
| `Solver.ListedColumnsDoNotWrap` | src/driver/amdxdna/aie2_solver.c:187-194 | the start columns that the driver lists for a context are never of this kind |
| `SolverSpec.FreshKeepsInv` | src/driver/amdxdna/aie2_solver.c:182-219 | a new partition on free columns takes exactly these in the bitmap, and keeps partitions disjoint, the bitmap their union and the share counts exact |
| `SolverSpec.ShareKeepsInv` | src/driver/amdxdna/aie2_solver.c:221-259 | joining a partition keeps the same |
| `SolverSpec.DropKeepsInv` | src/driver/amdxdna/aie2_solver.c:156-180 | removing a request keeps the same, and returns the columns exactly when it was the last user |
| `SolverSpec.DropUndoesFresh` | src/driver/amdxdna/aie2_solver.c:340-341 | backing out a request on columns of its own restores lists, records, bitmap and counters exactly |
| `SolverSpec.DropUndoesShare` | src/driver/amdxdna/aie2_solver.c:340-341 | backing out a request that joined a partition restores everything exactly |
| `SolverQos.ChooseLevel` | src/driver/amdxdna/aie2_solver.c:111-142 | the level serves the request, is no lower than any live session's, and no higher than one of these needs; without QoS figures it is the highest |
| `SolverQos.MeetsIffServed` | src/driver/amdxdna/aie2_solver.c:49-73 | without overflow the comparison holds exactly when the clock serves the frames asked for and, if a latency is given, one frame within it |
| `SolverQos.LevelServesAll` | src/driver/amdxdna/aie2_solver.c:49-97 | with a rising clock table and no overflow the current level serves the frame rate and the latency of every live session, not only of the newest |
| `Solver.FirstFree` | src/driver/amdxdna/aie2_solver.c:182-197 | the first listed start column whose columns are free, or are taken for free because the sum wraps |
| `Solver.LeastShared` | src/driver/amdxdna/aie2_solver.c:232-253 | the first among the matching partitions with the fewest users, and none exactly when nothing matches |
| `Solver.Solver.CreateNode` | src/driver/amdxdna/aie2_solver.c:221-287 | a request gets all its columns from the first listed start where none is taken, as the only user of a record with that start and width, and joins the least shared match, of a listed start and its width, only if no column is free or no memory is left; it gets nothing exactly when neither is there |
| `Solver.Solver.Allocate` | src/driver/amdxdna/aie2_solver.c:298-344 | each result occurs exactly under its condition, the width limit among them; on success the request has its columns as above and runs at the chosen level; any failure leaves the pool exactly as it was; all live sessions stay served |
| `Solver.Solver.Release` | src/driver/amdxdna/aie2_solver.c:346-361 | fails exactly for an unknown request and otherwise removes it, with its columns and record if it was their last user, keeping the pool sound and the others served |
| `ColumnList.StartColumns` | src/driver/amdxdna/aie2_ctx.c:399-479 | a column is listed if and only if the context fits the device from there, it is not before the first column unless the context is as wide as the device, and, with natural alignment, it is a multiple of the width; ascending; refused exactly without tiles or rows or if there is no such column |
| `ColumnList.PlacementInside` | src/driver/amdxdna/aie2_ctx.c:445-461 | every listed placement stays inside the device |
| `ColumnList.NaturalPlacementsApart` | src/driver/amdxdna/aie2_ctx.c:424-425 | with natural alignment two placements of equal width, from any two lists, are identical or disjoint |
| `ObjectLocks.LockKeepsOwned` | src/driver/amdxdna/amdxdna_ctx.c:333-369 | a lock taken for an index keeps every held reservation owned by exactly one locked index |
| `ObjectLocks.UnlockKeepsOwned` | src/driver/amdxdna/amdxdna_ctx.c:345-356 | so does letting a locked index go |
| `ObjectLocks.Job.BackOff` | src/driver/amdxdna/amdxdna_ctx.c:341-356 | backing off at any index leaves nothing locked and nothing held |
| `ObjectLocks.Job.LockObjects` | src/driver/amdxdna/amdxdna_ctx.c:316-374 | for any answers and any duplicated objects: on success every reservation is held by exactly one index, on error and before each retry none is; after a back-off the lock that would have deadlocked is held before any other is asked for and never asked for again, and its refusal is the result; otherwise the result is the one the answers call for |
| `ObjectLocks.Job.UnlockObjects` | src/driver/amdxdna/amdxdna_ctx.c:376-389 | unlocking releases each held reservation once and nothing else |
| `RangeSets.SameCoverage` | src/shim/virtio/range_mgr.h:16-19 | ranges that do not touch are determined by the addresses they cover |
| `RangeMgr.LengthIff` | src/shim/virtio/range_mgr.cpp:22-23 | the 64-bit length is right except for the range of all addresses, which looks empty |
| `RangeMgr.FreeUndoesAlloc` | src/shim/virtio/range_mgr.cpp:17-68 | two sound states from which taking the same range leads to the same state are equal |
| `RangeMgr.FreeIsDetermined` | src/shim/virtio/range_mgr.cpp:40-68 | the free ranges depend only on which ranges are allocated, not on the order of calls |
| `RangeMgr.AllFreed` | src/shim/virtio/range_mgr.cpp:40-68 | with nothing allocated, one range is left |
| `RangeMgr.MergeOk` | src/shim/virtio/range_mgr.cpp:50-67 | merging a returned range adds exactly its addresses and leaves no two free ranges touching |
| `RangeMgr.OwnStartHitsIff` | src/shim/virtio/range_mgr.cpp:44-46 | the start of an allocated range finds one to free unless it is the last 64-bit address |
| `RangeMgr.FreeElsewhereBreaks` | src/shim/virtio/range_mgr.cpp:44-67 | freeing by any other address that is let through breaks the partition |
| `RangeMgr.FreeInsideLosesAddresses` | src/shim/virtio/range_mgr.cpp:44-67 | an inner address of an allocated range is let through and loses the addresses before it |
| `RangeMgr.RangeMgr.constructor` | src/shim/virtio/range_mgr.cpp:11-15 | everything is free at first, and the manager is sound exactly when the start is not above the end |
| `RangeMgr.NothingKeepsInvIff` | src/shim/virtio/range_mgr.cpp:21-36 | an allocation of no bytes from a free range keeps the manager sound if and only if that is the one range of all addresses |
| `RangeMgr.RangeMgr.Alloc` | src/shim/virtio/range_mgr.cpp:17-38 | first fit: takes the start of the lowest free range that is large enough, and fails only when none is; free and allocated ranges stay a partition, for no bytes exactly under the condition above |
| `RangeMgr.RangeMgr.Free` | src/shim/virtio/range_mgr.cpp:40-68 | fails exactly when no allocated range is hit; otherwise the manager stays sound exactly when the address is the start of an allocated range, which is then returned |
| `RangeMgr.RangeMgr.AllocThenFree` | src/shim/virtio/range_mgr.cpp:17-68 | freeing right after allocating restores the free and allocated ranges exactly, unless the range starts at the last 64-bit address |
| `RangeMgr.RangeMgr.FreeAll` | src/shim/virtio/range_mgr.cpp:40-68 | freeing all allocated ranges by their starts, in any order, leaves one range; only a range at the last 64-bit address stays |
| `TraceDrain.Trace.Drain` | src/driver/amdxdna/aie2_event_trace.c:59-99 | a drain ends, copies in at most two pieces exactly the ring's bytes between the offsets, stays inside the log buffer and moves the head; of a ring that holds a stream it copies the stream from the head on exactly below one lap |
| `TraceDrain.WindowIff` | src/driver/amdxdna/aie2_event_trace.c:69-96 | what is copied is the produced window if and only if the window is shorter than the ring |
| `TraceDrain.WholeLapLooksEmpty` | src/driver/amdxdna/aie2_event_trace.c:78-84 | after exactly one lap a drain finds nothing |
| `TraceDrain.DrainedStaysFaithfulIff` | src/driver/amdxdna/aie2_event_trace.c:59-99 | a drain keeps the output equal to the stream if and only if less than a whole ring was produced since the last one |
| `TraceDrain.DrainsGiveTheStream` | src/driver/amdxdna/aie2_event_trace.c:59-99 | over any run whose drains keep up, the concatenated drains are the produced stream up to the head |

## Left out

- MailboxInterleaving.ReaderGetsWhatWasAccepted: assumes that single word accesses to device memory take effect in program order and that a channel has one sender at a time.
- MailboxRing.Ring.GetMsg: a tail of zero is modelled as the timeout it ends in; how long the reader waits is not.
- MailboxChannel.Channel.Acquire: the argument checks made before it (size, alignment, first payload word) and a failed allocation of the message record are not modelled; they return before any state changes.
- MailboxChannel.Channel.Respond: does not model that a response to a message not yet in the ring frees the message while its sender still uses it.
- MailboxChannel.Channel.Release: sends do not race with teardown.
- The order of the callbacks at release is not recorded, and the entries are taken as gone from the table when it returns.
- MailboxInterleaving.StepKeepsInv: the ring writer and reader, the interrupt worker and the job steps are modelled as state machines on values, not as methods, because their interleaving is the point.
- MailboxProgress.MessageGetsThrough: counts the reader's own steps; that the reader is given them, and how long it waits while the tail is zero, is not modelled.
- MailboxRxProgress.WorkerGoesIdle: for a firmware that publishes nothing more, unread messages with payloads, a tail other than zero and responses that are taken; in the other cases the channel turns bad.
- RunQueueRuns.EveryStateKeepsInv: takes addition, the yield work, the notice and deletion wherever they are harmless, by their exact conditions, and nowhere else; the idle handler is not a step of its own.
- ObjectLocks.Job.LockObjects: the retry loop has no bound in the source; the model takes any finite number of attempts and says where the run then stands.
- Solver.Solver.CreateNode: excludes start columns for which the free-column test wraps, where the driver would write outside its bitmap; listed start columns are never of this kind.
- Solver.Solver.Allocate: excludes the same start columns; the clock callback is taken to record the level it is asked for, whether or not it then fails; a context left loaded after a failed clock step is not modelled.
- SolverQos.LevelServesAll: without 32-bit overflow of demand and capacity; the driver's own comparison is modelled with the overflow.
- RangeMgr.RangeMgr.AllocThenFree: excludes an allocation of no bytes, which breaks the manager before anything is freed.
- TraceDrain.DrainsGiveTheStream: a drain is atomic and the tail stays below 2^32; Drain itself truncates the tail as the code does.
- ColumnList.StartColumns: the development override of the start column is not modelled.
- The timing of the wait for a connection in the slow submit path, and fairness and liveness of the run queue: they depend on wake-up timing outside the model.
- Device probing, firmware loading, power management, buffer objects and their memory, command packing, the query and device classes of the shim, the user-mode queue, and tests: short straight-line code or services that cannot be seen here.
