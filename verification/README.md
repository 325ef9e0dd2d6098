# Microbus, modelled and proved

Microbus is a master/slave bus protocol in C. A master grants slots, one node speaks in each, and
both directions carry numbered packets with cumulative acknowledgements. This project models its
four connected parts and proves what they promise over every input, every state and every run.

* **Reliable delivery** (`TxSpec`, `TxInvariant`, `TxConservation`, `TxManager`, `Delivery`,
  `DeliveryRuns`, `Progress`, `Window`, `TxFairness`). The sliding window per destination over one
  shared packet store, with 8-bit numbers that repeat every 255. `Delivery` puts a sender and its
  receivers around channels that may lose any packet or acknowledgement; each receiver accepts a
  prefix of what was submitted to it.
* **Slots and schedules** (`SchedulerSpec`, `SchedulerProofs`, `SchedulerFairness`,
  `Turns`, `Scheduler`, `Schedule`, `ScheduleKeepers`). The master's choice of who speaks, and the
  nodes' shifted copies of it: no two nodes ever transmit together, every node is scheduled before it
  would time out, every turn comes round, and slots open for new nodes at the set distance.
* **Receive path** (`RxSpec`, `RxStore`, `RxPath`, `RxArrival`, `RxNumbers`, `RxManager`, `ReceivePath`).
  The circular queue over an entry pool, with holes where a node was removed, and the quick test in
  front of it: only good packets are accepted, nothing accepted is lost, every entry has one owner,
  and what is acknowledged is what was accepted.
* **Membership** (`Membership`, `SignsOfLife`, `NetworkManager`, `Timeouts`, `JoinResponse`,
  `Stations`, `StationSlots`). The tables of who is on the network, the two timeouts and their
  order, the packet that hands out ids, and the nodes that hold them: no two hold the same id while
  their timeouts are in order.

Each part has the same three layers. A specification says on values what every operation does. A
class keeps the source's own fields and arrays, updates them in place, and each of its methods is
proved to compute the specification's function and to meet the source's assertions. Lemmas about the
specification say what that means: an invariant, a refinement of unbounded queues (`Flow`: everything
submitted, how much is acknowledged, how much is sent), or a statement over runs.

## What the code does not promise

The model follows the code. Where the code does less than its comments say, the exact condition is
proved:

* The window end wraps at 256 and the numbers at 255 (`WindowBoundedIff`, `NoWindowAt251`): with
  start at 251 there is no window, and at 252 to 254 it is three packets. `WindowOverrun` is a run
  that gets there; `WindowModulo255` says what one modulus for both would give.
* An acknowledgement of 255 never counts down the pause (`ProgressIff`, `FirstPacketLost`): if the
  first packets to a receiver are sent and lost before any is accepted, nothing is sent again.
* Sizes from 0 to 178 can be submitted, and only 1 to 177 get through (`DrainIff`,
  `FullSizeBlocks`). The master drops a node's packet of 178 bytes before it looks at its number, so
  the node sends it for ever; the master asserts that its own are smaller when it sends them
  (src/masterTx.c:79 against src/master.c:191); an empty packet fails an assertion of its receiver.
* A submit to a removed destination leaves its entry in use (`SubmitConservesIffAlive`), and a removal
  while the user holds an allocated entry can break the store (`RemoveKeepsInvIff`,
  `UnsafeRemovalSendsStalePacket`).
* Removing a node does not clear its reported buffer level (`RemovalKeepsLevelsIff`), and then the
  next node under the id gets no turn for its data (`StaleLevelKeepsNodeOut`).
* With a maximum gap above 128 the gap between open slots wraps in 8 bits and ends at 256
  (`GapOverflows`).
* The removal loop of the receive store does not end when end is 0 and start is not
  (`RemovalStopsIff`); `RemovalWouldNotStop` is a run that gets there.
* The node times out first only if the master's count was full enough when the node's timeout began
  (`NodeTimesOutFirstIff`); a node that hears its join response late can outlive its place
  (`LateJoinOutlivesEntry`), and then two nodes can hold one id (`TwoNodesShareAnId`).
* A store of 255 packets for one destination would look empty (`WindowLooksEmptyIff`), so stores hold
  at most 254 entries here.

## Model

| member | source | states |
|---|---|---|
| Microbus.IncrSeq | src/txManager.c:36 | adding one to a number is adding one to any counter behind it, modulo 255 |
| NodeQueues.WithoutAt | src/common.c:46-62 | the shifting removal takes out one position and keeps the rest in order |
| NodeQueues.RemoveKeepsRest | src/common.c:46-69 | removal keeps every other id, repeats none, and shortens the queue by one exactly when the id was there, as nodeQueueRemove asserts |
| NodeQueues.AddKeepsValid | src/common.c:26-44 | adding keeps the queue free of repetitions and adds just that id |
| NodeQueues.AddKeepsTurn | src/common.c:36-38 | a newcomer goes to the end and changes nobody's turn |
| NodeQueues.RemoveMovesTurn | src/common.c:49-58 | whose turn it is after a removal: unchanged if the removed id was still to come, the following one's if it was its own, and one id passed over if it had been served already |
| NodeQueues.NodeQueue.Add | src/common.c:26-44 | the search-and-append on the buffer computes Queue.Add |
| NodeQueues.NodeQueue.ShiftDown | src/common.c:50-54 | the shifting loop removes one position |
| NodeQueues.NodeQueue.RemoveIfExists | src/common.c:46-62 | removal in place, cursor included, computes Queue.Remove |
| NodeQueues.NodeQueue.GetNext | src/common.c:75-82 | the cursor hands out ids in cyclic order |
| TxInvariant.FindsSlot | src/txManager.c:44-56 | store/window agreement: the search for a number in the window returns that window position's entry, whatever stale or unsubmitted headers are about |
| TxInvariant.SlotIsUnique | src/txManager.c:44-56 | exactly one submitted entry carries a given number of a window |
| TxInvariant.WindowLooksEmptyIff | src/txManager.c:178-181 | start equals end with packets outstanding only if there are 255 of them |
| TxInvariant.ActiveHasWindows | src/txManager.c:261-263 | every queued destination has a window |
| TxInvariant.AllocateKeepsInv | src/txManager.c:58-113 | allocation keeps the invariant although the entry keeps an old header; it succeeds exactly when an entry is free |
| TxInvariant.SubmitFitsStore | src/txManager.c:116-137 | an allocated entry is outside every window, so submitting never overfills one |
| TxInvariant.SubmitKeepsInv | src/txManager.c:116-154 | submitting appends the payload to its destination's queue and changes no other |
| TxInvariant.WindowEndExact | src/txManager.c:189-190 | where the window end falls, in packets sent beyond the start, for the 8-bit sum of the source and for one that wraps at 255 |
| TxInvariant.PollBranches | src/txManager.c:168-209 | which branch of the poll runs, said on the unbounded queue |
| TxInvariant.PollKeepsInv | src/txManager.c:168-209 | a poll moves next by one packet or starts the pause, and keeps the invariant |
| TxInvariant.PollRefines | src/txManager.c:168-209 | a poll sends exactly when pause, window and buffer allow, and then sends packet number next with its own payload |
| TxInvariant.NextInRange | src/txManager.c:183-187 | the assertions that next lies between start and end hold |
| TxInvariant.FreeUpToRefines | src/txManager.c:303-313 | the freeing loop ends after freeing exactly the acknowledged packets |
| TxInvariant.AckTestExact | src/txManager.c:289-296 | the range test, wrapped or not, accepts an acknowledgement exactly when it covers something new |
| TxInvariant.OutOfRangeAckKeepsInv | src/txManager.c:325-336 | an acknowledgement outside the window frees nothing, counts the pause down, and restarts the window when it reaches 0 |
| TxInvariant.AckAcceptedKeepsInv | src/txManager.c:297-323 | an acknowledgement in the window frees what it covers, clears the pause and takes an emptied destination off the queue |
| TxInvariant.AckKeepsInv | src/txManager.c:277-339 | any 8-bit acknowledgement keeps the invariant |
| TxInvariant.AckRefines | src/txManager.c:277-339 | a cumulative acknowledgement frees the newly covered packets, returns their number and leaves next the larger of next and the new base |
| TxConservation.InitEstablishesInv | src/txManager.c:390-426 | a fresh manager satisfies the invariant |
| TxConservation.RemoveKeepsFlow | src/txManager.c:373-388 | removing one node leaves every other window and its packets alone |
| TxConservation.RemoveKeepsInvIff | src/txManager.c:373-388 | removal keeps the invariant exactly when no allocated entry is endangered |
| TxConservation.UnsafeRemovalSendsStalePacket | src/txManager.c:373-388 | a run in which an unsafe removal makes a later poll send a packet that was not submitted |
| TxConservation.AllocateKeepsBalance | src/txManager.c:58-69 | stored minus freed stays the number of entries in use |
| TxConservation.SubmitKeepsBalance | src/txManager.c:116-154 | the same for a submit |
| TxConservation.AckKeepsBalance | src/txManager.c:71-313 | the same for an acknowledgement |
| TxConservation.RemoveKeepsBalance | src/txManager.c:373-382 | the same for a removal, whose count is the number of entries freed |
| TxConservation.RemovalCount | src/txManager.c:375-382 | the removal returns the number of entries it freed, which are all of the node's and nobody else's |
| TxConservation.InitExpectsFirst | src/txManager.c:403-409 | at the start packet 0 and no other is expected of every sender |
| TxConservation.RemovalExpectsFirst | src/txManager.c:383-387 | after a removal packet 0 and no other is expected of the removed node, and of every other node what was expected before |
| TxConservation.SendingKeepsNumbers | src/txManager.c:95-339 | allocation, submission, polls and acknowledgements change nothing of what is expected |
| TxConservation.SubmitEndsAllocation | src/txManager.c:116-154 | a submit always ends the allocation; to a removed destination it frees nothing |
| TxConservation.FullQueueLosesEntry | src/txManager.c:95-113 | an allocation that finds the queue of destinations full leaves its entry in use and held by nobody |
| TxConservation.InUseIsOutstanding | src/txManager.c:58-137 | the entries in use are as many as the windows hold, plus the allocated one |
| TxConservation.SubmitConservesIffAlive | src/txManager.c:117-121 | after a submit the entries agree with the windows exactly when the destination was alive |
| TxManagers.TxManager.constructor | src/txManager.c:390-426 | initialisation in place, with the invariant |
| TxManagers.TxManager.Allocate | src/txManager.c:95-113 | computes TxSpec.Allocate in place and keeps the invariant while the queue of destinations has room |
| TxManagers.TxManager.Submit | src/txManager.c:116-154 | computes TxSpec.Submit in place; its nodeQueueAdd never fails |
| TxManagers.TxManager.FindPacketEntry | src/txManager.c:44-56 | the search returns the lowest matching index |
| TxManagers.TxManager.FreePacket | src/txManager.c:71-79 | frees the found entry and counts it |
| TxManagers.TxManager.GetNextTxPacketForNode | src/txManager.c:168-209 | computes TxSpec.Poll in place; the range assertion and the failed-search assertion hold |
| TxManagers.TxManager.ScanActive | src/txManager.c:254-265 | the do-while scan computes TxSpec.Scan |
| TxManagers.TxManager.MasterGetNextTxDataPacket | src/txManager.c:226-274 | computes TxSpec.MasterGetNext in place with burst size 1 |
| TxManagers.TxManager.FreeWindow | src/txManager.c:303-313 | the freeing loop computes TxSpec.FreeUpTo, with every search succeeding |
| TxManagers.TxManager.TakeAck | src/txManager.c:297-323 | computes the accepting branch of TxSpec.Ack in place |
| TxManagers.TxManager.RefuseAck | src/txManager.c:324-336 | computes the other branch: the pause counts down and the window restarts |
| TxManagers.TxManager.RxAckSeqNum | src/txManager.c:277-339 | computes TxSpec.Ack in place; the assertions on freeing and on queue removal hold |
| TxManagers.CheckAndUpdateSeqNum | src/txManager.c:342-357 | the check on the table itself: only the sender's own number can change |
| TxManagers.TxManager.RxPacketCheckAndUpdateSeqNum | src/txManager.c:342-357 | accepts the expected number only, and moves the accepted number with it |
| TxManagers.TxManager.FreeEntriesOf | src/txManager.c:375-382 | the removal loop frees and counts a node's in-use entries |
| TxManagers.TxManager.RemoveNode | src/txManager.c:373-388 | computes TxSpec.RemoveNode in place; the object stays valid exactly when the removal was safe |
| Delivery.ArrivalIsNext | src/txManager.c:342-357 | of all packets that can be in flight, the receiver's 8-bit test accepts exactly the one next in order |
| Delivery.ArriveKeepsPeer | src/txManager.c:342-357 | an arrival keeps the accepted payloads a prefix, and extends it exactly when the packet is next in order and the receiver takes its size |
| Delivery.StepKeepsInv | src/txManager.c:95-357 | every step of sender, receivers and channels keeps the joint invariant, in which received may exceed next after a restart |
| DeliveryRuns.StepSubmits | src/txManager.c:116-137 | only a submit adds to what is submitted |
| DeliveryRuns.RunKeepsInv | src/txManager.c:95-357 | the invariant holds in every state of every run |
| DeliveryRuns.DeliveredIsPrefix | src/txManager.c:116-357 | end-to-end safety: in every run with any losses, what a receiver accepted is a prefix of what was submitted to it, only accepted packets were discarded, none accepted is of the maximum size, and an empty one stopped the receiver |
| DeliveryRuns.RunConserves | src/txManager.c:58-79 | in every state of every run, stored minus freed is the number of entries in use, and those are the packets of the windows and the allocated one |
| Progress.LinkFacts | src/txManager.c:168-357 | how the counts acknowledged, sent, accepted and the pause are ordered in every state with nothing in flight |
| Progress.Advances | src/txManager.c:168-336 | once a packet was accepted, and unless the window waits for one of the maximum size, at most (end - next) + 3 loss-free rounds move it |
| Progress.Stuck | src/txManager.c:278-281 | before the first acceptance, with a packet sent and lost, no number of rounds moves it |
| Progress.FullSizeBlocks | src/masterRx.c:39-43 | a packet of the maximum size is accepted by nobody, so no window moves past it |
| Progress.ProgressIff | src/txManager.c:168-357 | with outstanding packets that fail no assertion, loss-free rounds move the window if and only if a packet was accepted or none was sent yet, and the packet the window waits for is below the maximum size; then within the bound |
| Progress.Drains | src/txManager.c:168-357 | packets of 1 to 177 bytes all get through |
| Progress.DrainIff | src/masterRx.c:39-110 | loss-free rounds empty the window and leave the receiver running if and only if the first packet was not lost before any was accepted and every packet not yet accepted holds 1 to 177 bytes |
| Progress.FirstPacketLost | src/txManager.c:278-281 | the shortest run into the trap |
| TxFairness.MasterServesNextSendable | src/txManager.c:226-274 | the master sends nothing exactly when no destination is sendable; otherwise it serves the first sendable one after the one before, in cyclic order |
| TxFairness.ServedWithinTurn | src/txManager.c:226-274 | a destination that stays sendable is served by the time its turn comes |
| TxFairness.FairSelection | src/txManager.c:226-274 | with n queued destinations, one that stays sendable is served within n calls |
| Window.PollKeepsBoundIff | src/txManager.c:189-207 | a poll oversteps the window exactly at start 251 with four packets out and another waiting |
| Window.StepKeepsBoundIff | src/txManager.c:189-317 | of all steps only such a poll breaks the bound, cumulative acknowledgements across 252 to 254 included |
| Window.WindowBoundedIff | src/txManager.c:189-317 | the bound holds in every state of a run if and only if the run holds no such poll |
| Window.WindowModulo255 | src/txManager.c:189-190 | with a window end that wraps at 255, every window of every run stays at four packets |
| Window.NoWindowAt251 | src/txManager.c:189-190 | at start 251, k polls send k packets for as many as are buffered |
| Window.ReachBase | src/txManager.c:116-357 | any number of packets gets through one by one, as a run |
| Window.WindowOverrun | src/txManager.c:189-190 | a run without a loss that reaches start 251 and has five packets out |
| SchedulerProofs.FourProbes | src/scheduler.c:19-26 | three recent slots cannot cover four distinct nodes |
| SchedulerProofs.SearchFromProbe | src/scheduler.c:36-47 | the search returns the first node in cyclic order not scheduled recently |
| SchedulerProofs.AckSearchEnds | src/scheduler.c:28-50 | it finds one within four probes, or the queue has at most three nodes, all recent |
| SchedulerProofs.ScheduleNextKeepsValid | src/scheduler.c:129-170 | counters and queues stay in their ranges, so the assertions on both counts hold |
| SchedulerProofs.UnallocatedOnlyWhenDue | src/scheduler.c:78-170 | with nodes present a slot is unallocated exactly at a due allocation turn, and any other goes to the master or a node |
| SchedulerProofs.EmptyNetworkStaysOpen | src/scheduler.c:126-169 | with nobody to serve every slot is open, and no decision is ever 255 |
| SchedulerProofs.GapBecomesOneIff | src/scheduler.c:142-152 | the gap becomes 1 only with a maximum of 1, when the 128th unallocated slot passes, and then every slot stays unallocated; doubling past 8 bits only makes it 256 |
| SchedulerProofs.LevelUpdateKeepsAgreement | src/scheduler.c:205-215 | while the queue of nodes with data lists exactly the nodes with a nonzero level, an update keeps it so, its nodeQueueAdd has room and its nodeQueueRemove finds the node |
| SchedulerProofs.RemovalKeepsLevelsIff | src/master.c:48 | the master's removal keeps that agreement exactly when the removed node's level was 0 |
| SchedulerProofs.StaleLevelKeepsNodeOut | src/scheduler.c:205-215 | after a removal that left a level, a node under the same id is not queued however much data it reports |
| SchedulerFairness.ChoiceApproaches | src/scheduler.c:59-127 | a choice that passes a node by brings its turn nearer, unless the node was scheduled among the recent slots |
| SchedulerFairness.PassedByAtMost | src/scheduler.c:59-170 | at most 6n + 3 choices in a row pass a node by |
| SchedulerFairness.ChosenOften | src/scheduler.c:129-203 | every second slot is a choice with one slot ahead, every fourth with several, whenever new nodes are heard |
| SchedulerFairness.ChoiceRecorded | src/scheduler.c:160-164 | the last four choices are remembered in order, an open one as 255, and due open slots are not |
| SchedulerFairness.NoStarvation | src/scheduler.c:19-203 | with n active nodes each is scheduled in any 2(6n + 4) slots with one slot ahead, and in any 4(6n + 4) with several |
| SchedulerFairness.ServicedBeforeTimeout | src/networkManager.h:18 | those bounds are shorter than a node's timeout |
| SchedulerFairness.WindowIsFuture | src/scheduler.c:172-203 | slot j of the window is who speaks j slots later |
| SchedulerFairness.MasterAlwaysHeard | src/scheduler.c:172-203 | with several slots ahead, from the first step of every run on, the window holds a slot of the master's, which therefore speaks within it |
| Turns.OpenSlotsSpaced | src/scheduler.c:129-170 | two successive open slots lie exactly the gap of consultations apart, 256 for a gap of 0 |
| Turns.OpenSlotComes | src/scheduler.c:129-170 | a slot opens in any run with more consultations than the countdown started with |
| Turns.CountWithinGap | src/scheduler.c:152-158 | the countdown never exceeds the gap |
| Turns.CountsDown | src/scheduler.c:129-158 | each consultation takes one off the countdown, and an open slot sets it and widens the gap |
| Turns.GapDoubles | src/scheduler.c:142-151 | the gap doubles with the 128th open slot and every 256th after it, up to the maximum |
| Turns.GapOverflows | src/scheduler.c:145-148 | with a maximum above 128 the gap ends at 0, one open slot in 256 |
| Turns.NewNodeHeardOpensSoon | src/scheduler.h:64-67 | after a new node was heard the gap and the countdown are 2 |
| Turns.StartsWithService | src/scheduler.c:217-228 | at the start service is due, nobody is recent and the master's turn is first |
| Turns.TurnOrder | src/scheduler.h:16-20 | the turns follow as the master's packets, acknowledgements, nodes with data |
| Turns.TurnGrantedOrNearer | src/scheduler.c:88-125 | a turn that wants a slot gets it, or one before it does and it moves up |
| Turns.ChoiceAtTurn | src/scheduler.c:78-127 | every choice goes to service when that is due, to the turn, or to one before it |
| Turns.MasterTurnComes | src/scheduler.c:92-100 | a master with packets beyond the slots it has is given one by choice within 24 slots |
| Turns.MasterNotOverscheduled | src/scheduler.c:93-191 | the master is never given more slots by choice than it has packets for, and none when one slot is scheduled at a time |
| Turns.DataTurnComes | src/scheduler.c:52-57 | while n nodes have data each is scheduled in any 12n slots with one slot ahead, 24n with several |
| Turns.AckTurnComes | src/scheduler.c:28-50 | while n destinations have packets to acknowledge each is scheduled in any 2(6n + 4) slots with one slot ahead, 4(6n + 4) with several |
| Turns.ChoiceSkipsRecent | src/scheduler.c:19-75 | an acknowledgement or due service goes to none of the nodes chosen two, three and four choices before, and due service gives way only then |
| Schedulers.Scheduler.NewNodeHeard | src/scheduler.h:64-67 | computes SchedulerSpec.NewNodeHeard in place |
| Schedulers.Scheduler.constructor | src/scheduler.c:217-228 | initial counters and gap |
| Schedulers.Scheduler.NodeRecentlySent | src/scheduler.c:19-26 | compares the three older recorded slots |
| Schedulers.Scheduler.GetNextMasterRxAckNode | src/scheduler.c:28-50 | computes SchedulerSpec.AckSearch in place; the assertion on the number of probes holds |
| Schedulers.Scheduler.GetNextServiceNode | src/scheduler.c:59-75 | computes SchedulerSpec.Service in place |
| Schedulers.Scheduler.ScheduleNextAllocatedNode | src/scheduler.c:78-127 | the rotation of turns computes SchedulerSpec.ScheduleAllocated |
| Schedulers.Scheduler.WidenUnallocatedGap | src/scheduler.c:142-151 | computes SchedulerSpec.WidenGap in place, in 8 bits |
| Schedulers.Scheduler.ScheduleNextNode | src/scheduler.c:129-170 | computes SchedulerSpec.ScheduleNext in place |
| Schedulers.Scheduler.ShiftWindow | src/scheduler.c:179-191 | the shifting loop, its test for a slot of the master's and its count |
| Schedulers.Scheduler.UpdateAndCalcNextTxNodes | src/scheduler.c:172-203 | computes SchedulerSpec.UpdateWindow on the buffer and leaves the rest of it alone |
| Schedulers.Scheduler.UpdateNodeTxBufferLevel | src/scheduler.c:205-215 | computes SchedulerProofs.LevelUpdated in place wherever the assertions of the queue hold, also after a removal that left a stale level |
| Schedule.WindowMoves | src/master.c:20-34 | whatever the master schedules, resets included, its current slot is the old first and the window moves by one |
| Schedule.NodeSlotAgrees | src/node.c:61-156 | a node that hears or misses a packet keeps each slot of its copy either the master's or nobody's |
| Schedule.SlotKeepsInv | src/node.c:298-312 | one slot of the whole network keeps agreement; a node that heard takes exactly the master's slot |
| Schedule.BetweenKeepsInv | src/node.c:387-397 | nodes joining, leaving and being reset keep it |
| Schedule.RunKeepsInv | src/master.c:64-72 | schedule agreement in every run from power-up under any pattern of losses |
| Schedule.NoCollision | src/node.c:298-312 | with distinct ids at most one joined node transmits in a slot, and it is the one the master chose |
| Schedule.HeardThenLost | src/node.c:147-156 | each packet lost after one heard costs one slot of the exact copy |
| Schedule.SurvivesLosses | src/node.c:61-156 | after one packet heard, a node knows the master's slots for as many slots as are scheduled ahead, hearing nothing more |
| Schedule.SlotLeavesIff | src/node.c:56-59 | a slot takes a node off the network exactly when it hears a reset, gives nobody an id, and leaves a node that heard a reset knowing no slots |
| Schedule.SilentAfterReset | src/node.c:387-397 | in every run, a node that heard a reset transmits nothing until it joins again |
| Schedule.ResetsRunOut | src/masterTx.c:35-38 | each slot takes one reset cycle away, and resets are sent exactly while some are left |
| Schedule.OnlyMasterDuringReset | src/master.c:21-27 | during reset cycles the slot is the master's and so is every one after the next |
| ScheduleKeepers.NodeSchedule.constructor | src/node.c:399-409 | a node starts outside the network with an empty schedule |
| ScheduleKeepers.NodeSchedule.RecordSchedule | src/node.c:61-64 | the copying loop takes the whole schedule |
| ScheduleKeepers.NodeSchedule.UpdateSchedule | src/node.c:147-156 | the shifting loop computes Schedule.Shift |
| ScheduleKeepers.NodeSchedule.RemoveFromNetwork | src/node.c:387-409 | a node on the network starts over; any other keeps its copy |
| ScheduleKeepers.NodeSchedule.PreProcess | src/node.c:31-306 | the slot's start computes Schedule.NodeSlot |
| ScheduleKeepers.MasterSchedule.constructor | src/master.c:122-140 | empty schedule and twenty reset cycles |
| ScheduleKeepers.MasterSchedule.UpdateSchedule | src/master.c:20-34 | computes Schedule.MasterSlot in place, in reset cycles and outside them |
| ScheduleKeepers.MasterSchedule.WriteSchedule | src/masterTx.c:14-22 | writes the slots in use into the packet and leaves the rest |
| RxSpec.FindFree | src/rxManager.c:16-28 | hands out an entry that was free and marks it and no other; without one nothing changes |
| RxSpec.Skip | src/rxManager.c:61-81 | after a peek the front of the queue holds a packet, or the queue is empty |
| RxSpec.AppendLine | src/microbus.h:186-193 | appending puts the entry after all others, wherever the buffer wraps |
| RxSpec.AdvanceLine | src/microbus.h:203-209 | popping takes the oldest slot away |
| RxSpec.FullIff | src/microbus.h:179-184 | the queue is full exactly when one slot of its buffer is left |
| RxStore.AppendContents | src/rxManager.c:30-36 | the user sees the packet last |
| RxStore.SkipKeepsContents | src/rxManager.c:61-81 | peeking loses no packet and ends with an empty queue only if none was left |
| RxStore.PopContents | src/rxManager.c:83-91 | popping takes exactly the oldest packet |
| RxStore.RemoveAllLine | src/rxManager.c:38-54 | removal empties slots where they stand and moves none |
| RxStore.RemoveAllFilters | src/rxManager.c:38-54 | removal as a filter: the same sequence of packets without that node's |
| RxStore.RemovalStopsIff | src/rxManager.c:41-44 | the removal loop reaches its end if and only if not (end = 0 and start > 0) |
| RxStore.FreeEntryIff | src/rxManager.c:16-28 | while the path holds one entry, the search fails exactly when the queue is full: holes never use up the pool |
| RxStore.AppendOwned | src/rxManager.c:30-36 | the pending entry becomes a queued one |
| RxStore.PopOwned | src/rxManager.c:83-91 | the popped entry becomes free and no other does |
| RxStore.RemoveAllOwned | src/rxManager.c:47-53 | removal frees exactly the entries of the removed node's queued packets |
| RxPath.LandedKeepsInv | src/masterRx.c:140-142 | the hardware's writes never touch a queued or pending packet |
| RxPath.AcceptedIffStored | src/masterRx.c:15-119 | a sender's number advances exactly when its packet is later queued, and then the queue has room: the append-to-full assertion cannot fire |
| RxPath.SlotStartKeepsInv | src/masterRx.c:15-76 | the quick test keeps ownership and accounts |
| RxPath.SlotEndKeepsInv | src/masterRx.c:80-138 | the processing queues or frees the pending entry and keeps both |
| RxPath.UserTakesKeepsInv | src/rxManager.c:61-91 | the user's peek and pop keep both |
| RxPath.NodeRemovedKeepsInv | src/master.c:40-55 | a node's removal keeps both and touches no other node's packets |
| RxPath.StartEstablishesInv | src/masterRx.c:144-150 | initialisation establishes both |
| RxPath.RunKeepsInv | src/masterRx.c:15-138 | ownership in every run: in-use entries are the queued ones, the next one and at most one pending |
| RxPath.NothingAcceptedIsLost | src/masterRx.c:15-138 | in every run, what the user took from a sender, what is queued and what is pending make up exactly what was accepted from it, in order |
| RxPath.NotKept | src/masterRx.c:21-43 | a packet that failed its check, whose first byte is 0, 255 or of a version other than 1, that is too big for the master, or that is addressed to another node or a reset, moves no number and is not kept |
| RxPath.ResetIff | src/node.c:40-59 | a node starts over exactly at a packet with first byte 0x17 that passed its check |
| RxPath.AcceptedGrows | src/masterRx.c:68-75 | what is accepted from a sender grows only in a slot that began with a data packet of its own that passed its check, and by that packet's data |
| RxPath.AcceptedIsEarned | src/masterRx.c:15-76 | in every run each accepted payload came in a packet that landed and was then met with its check passed and its header and sender right |
| RxPath.MasterProcessesOnce | src/masterRx.c:135-136 | the master's processing is idempotent, because it clears its flags |
| RxPath.NodeProcessedTwiceQueuesTwice | src/node.c:225-234 | a node's is not: processed twice, a slot queues the same entry twice |
| RxArrival.SlotIsArrival | src/node.c:40-125 | the receiver of Delivery is this path: a data packet of version 1 that passed its check and is addressed here arrives if there is room, anything else counts as lost, and the receiver stops exactly when the assertion of its processing fails |
| RxPath.RemovalWouldNotStop | src/rxManager.c:41-44 | a run from initialisation, three packets accepted and one taken, after which the removal loop never meets its end |
| RxNumbers.RunKeepsTable | src/txManager.c:342-388 | in every run of the master's sending and receiving, removals included, the transmit manager's table of accepted numbers is the receive path's |
| RxNumbers.AcknowledgedIsAccepted | src/masterTx.c:18-22 | the number the master acknowledges to a node counts exactly the packets it accepted from it since it last joined |
| RxManagers.RxManager.FindFreeRxPacket | src/rxManager.c:16-28 | the search computes RxSpec.FindFree |
| RxManagers.RxManager.AddRxDataPacket | src/rxManager.c:30-36 | computes RxSpec.Append in place |
| RxManagers.RxManager.RemoveAllPackets | src/rxManager.c:38-56 | where it ends, the loop over the wrapping index computes RxSpec.RemoveAll |
| RxManagers.RxManager.PeekNextRxDataPacket | src/rxManager.c:61-81 | computes RxSpec.Skip in place and returns the front; the assertion behind the loop cannot be reached |
| RxManagers.RxManager.PopNextDataPacket | src/rxManager.c:83-91 | computes RxSpec.Pop in place |
| ReceivePaths.ReceivePath.constructor | src/masterRx.c:144-150 | the path starts with one entry taken for the first packet |
| ReceivePaths.MasterAccepts | src/masterRx.c:21-43 | the tests before a packet counts as valid |
| ReceivePaths.RefreshSender | src/masterRx.c:48-54 | computes Membership.HeardBy |
| ReceivePaths.ReceivePath.MasterQuickProcessPrevRx | src/masterRx.c:15-76 | computes RxSpec.Quick for the master and SignsOfLife.Refreshed on its table of nodes |
| ReceivePaths.ReceivePath.MasterProcessRx | src/masterRx.c:80-138 | where the assertion that a stored packet is not empty holds, computes RxSpec.Process for the master |
| ReceivePaths.ReceivePath.NodeQuickProcessPrevRx | src/node.c:31-103 | computes RxSpec.Quick for a node, and says whether the packet was a reset |
| ReceivePaths.ReceivePath.NodeProcessRx | src/node.c:105-142 | where the assertion that a data packet is not empty holds, computes RxSpec.Process for a node |
| Membership.ActiveHasRoom | src/networkManager.c:96 | there are fewer active nodes than the queue holds, so nodeQueueAdd never meets a full queue |
| Membership.RegisterKeepsInv | src/networkManager.c:66-97 | a registration keeps the tables in agreement |
| Membership.RegisterGrantsIff | src/networkManager.c:66-97 | a new request is granted exactly when fewer than ten joins are pending and an id from 1 to 63 is free; it gets the lowest, with a full count, and nothing else changes |
| Membership.RegisterOnce | src/networkManager.c:75-80 | asking again while pending changes nothing |
| Membership.WithoutJoinKeeps | src/networkManager.c:99-115 | removing a pending join takes exactly that one out and keeps the rest |
| Membership.HeardKeepsInv | src/networkManager.c:117-131 | hearing a node keeps them |
| Membership.HeardCompletesJoin | src/networkManager.c:117-131 | a heard node's pending join goes and its count fills up; every other join and count stays |
| SignsOfLife.SignOfLifeIff | src/masterRx.c:48-54 | the packets that fill up a node's count are its own data and empty packets, first byte 0x12 or 0x14, of fewer than 178 bytes with the check passed; nothing else does, and none brings a node onto the network |
| Membership.ElapseKeepsInv | src/networkManager.c:134-154 | a tick keeps them: a count that runs out is marked, not freed |
| Membership.RemoveTimedOutExact | src/master.c:40-55 | a clean-up removes exactly the marked nodes, from every table |
| Membership.RunKeepsInv | src/networkManager.c:55-154 | in every run the active nodes are those with a nonzero count, and pending joins have distinct nonzero unique ids and distinct live node ids |
| Membership.LiveIdNotGiven | src/networkManager.c:55-62 | no step but a clean-up frees a live id or gives it to a node |
| Membership.MarkedIdNotHandedOut | src/networkManager.c:55-152 | an id, marked for removal or not, is handed to nobody before a clean-up |
| Membership.ElapseIsMasterTick | src/networkManager.c:134-154 | for one node the table is the clock of Timeouts |
| NetworkManagers.NetworkManager.constructor | src/networkManager.c:230-232 | an empty network |
| NetworkManagers.NetworkManager.GetNextFreeNodeId | src/networkManager.c:55-62 | the lowest free id, or 255 |
| NetworkManagers.NetworkManager.RegisterNewNode | src/networkManager.c:66-97 | computes Membership.Register in place |
| NetworkManagers.NetworkManager.ShiftDown | src/networkManager.c:105-109 | the loop over both tables removes one pending join |
| NetworkManagers.NetworkManager.RemoveNewNodeRequest | src/networkManager.c:99-115 | removes the pending join of an id and says whether there was one |
| NetworkManagers.NetworkManager.RecordRxPacket | src/networkManager.c:117-131 | computes Membership.Heard in place |
| NetworkManagers.NetworkManager.UpdateTimeUs | src/networkManager.c:134-154 | computes Membership.Elapse in place, with the 32-bit accumulator |
| NetworkManagers.NetworkManager.RemoveAnyTimeoutNodes | src/master.c:40-55 | computes Membership.RemoveTimedOut in place |
| Timeouts.TimingConstants | src/networkManager.h:18-24 | the two timeouts and the tick in microseconds |
| Timeouts.NodeCountsDown | src/networkManager.c:38-46 | a node has timed out exactly when the time reported since covers its timeout |
| Timeouts.TicksArePaid | src/networkManager.c:134-154 | the master's count never runs ahead of the time reported and left in the accumulator |
| Timeouts.NodeTimesOutFirstIff | src/networkManager.c:33-154 | timeout ordering, exactly: the node is strictly first under every report of time if and only if the ticks left but one cover its timeout |
| Timeouts.AccumulatorBounded | src/networkManager.c:138-142 | reported in steps of at most one tick, time never piles up |
| Timeouts.TicksExact | src/networkManager.c:134-154 | time reported in steps of at most one tick is neither lost nor counted twice: the count falls by the whole ticks of all the time there was, and the rest stays in the accumulator |
| Timeouts.MarkedIff | src/networkManager.c:141-151 | a silent node is marked exactly when the time since covers its count |
| Timeouts.HeardNodeTimesOutFirst | src/networkManager.c:33-154 | a node whose last transmission was heard always times out strictly before the master marks it, for every phase of the accumulator |
| Timeouts.LateJoinOutlivesEntry | src/networkManager.c:218-221 | a node that hears its join response after seven ticks, and is not heard, can outlive its place |
| Stations.AnsweredIsOwn | src/networkManager.c:210-226 | the response gives a node the live id of its own pending join, which is nobody else's |
| Stations.RequestKeepsInv | src/networkManager.c:66-97 | a registration gives out no id that a node on the network holds |
| Stations.AnswerKeepsInv | src/networkManager.c:210-226 | a node that joins while the master's count covers its timeout holds an id of its own |
| Stations.TransmitKeepsInv | src/node.c:274-277 | the same for a node that restarts its timeout, heard or not |
| Stations.ElapseHeld | src/networkManager.c:38-154 | a node with time left is never the one whose count is marked |
| Stations.BothElapseKeepsInv | src/networkManager.c:38-154 | passing time keeps every held id live until after its node timed out |
| Stations.CleanUpKeepsInv | src/master.c:40-55 | a clean-up takes no id that a node on the network holds |
| Stations.RunKeepsIdsDistinct | src/networkManager.c:33-154 | in every run in which each node that starts its timeout meets the condition of NodeTimesOutFirstIff, no two nodes hold the same id |
| Stations.HeardIsTimely | src/networkManager.c:117-120 | a transmission that the master hears meets it |
| StationSlots.NoCollisionOnNetwork | src/node.c:298-312 | collision freedom for nodes holding ids from such a run, without assuming ids distinct |
| Stations.TwoNodesShareAnId | src/networkManager.c:91-226 | a run, time reported in single ticks, in which a late response ends with two nodes on the network under one id |
| JoinResponse.UniqueIdRoundTrip | src/networkManager.c:193-216 | eight bytes carry any unique id |
| JoinResponse.SizeFieldRoundTrip | src/microbus.h:163-167 | the two size bytes carry any 16-bit size |
| JoinResponse.EncodedEntry | src/networkManager.c:188-200 | entry i of the packet is pending join i |
| JoinResponse.DecodeFinds | src/networkManager.c:214-225 | the reader returns an entry with its unique id, or there is none |
| JoinResponse.JoinRoundTrip | src/networkManager.c:180-226 | for every valid table each pending node reads its own id and any other node reads none, through the size field too |
| NetworkManagers.WriteEntry | src/networkManager.c:193-194 | the copy of one entry into the packet |
| NetworkManagers.ReadUniqueId | src/networkManager.c:215-216 | the copy of a unique id out of it |
| NetworkManagers.RxNewNodePacketResponse | src/networkManager.c:210-226 | a node found in the packet takes its id and starts its timeout; any other keeps what it has |
| NetworkManagers.NetworkManager.TxNewNodeResponse | src/networkManager.c:180-207 | writes the pending joins in order and their size, and nothing behind them |

## Left out

- DeliveryRuns.DeliveredIsPrefix: for one session of each pair; a removal ends a session, and
  TxConservation.RemoveKeepsInvIff with RxPath says what it leaves of the others. Packets of an earlier session
  still in flight are not modelled.
- Delivery.StepKeepsInv: a poll and the sending of what it hands out are one step. The source stages a pointer to the
  entry (src/node.c:162-222, src/masterTx.c:85); in between an acknowledgement may free the entry and a new
  allocation rewrite it, so that what is sent is no longer what was polled. A receiver that a failed assertion
  stopped may here repeat the one acknowledgement it had prepared.
- Progress.ProgressIff: rounds without submissions in between, with nothing in flight at the start and room at the
  receiver.
- Schedule.RunKeepsInv: pipelined mode; schedule positions the master does not write are zero, as in zeroed packet
  memory. The single-channel mode of master and nodes is not modelled.
- SchedulerFairness.NoStarvation: for a fixed queue of active nodes; the other queues and the levels change freely.
- Schedulers.Scheduler.constructor: maxSlotsBetweenUnallocated is not 1 (SchedulerProofs.GapBecomesOneIff); the master
  passes 80 (src/master.c:134).
- Turns.OpenSlotsSpaced: between the two slots no new node is heard; hearing one starts the countdown at 2 again.
- Turns.MasterTurnComes, and the other turns: the turn's own queue changes only by its cursor while it waits.
- TxManagers.TxManager.MasterGetNextTxDataPacket: the burst branch is not modelled; its only caller passes burst
  size 1.
- TxManagers.TxManager.Submit: packet type is not part of the packet, the size is the payload's, and the data the user
  writes between allocation and submit is the payload argument. The second look at the destination's count exists for
  a thread that interrupts the function; every function is one step here.
- RxPath.NothingAcceptedIsLost: nodes are removed only where the removal loop ends, slots end only where the assertion
  on empty packets holds, and a peek and its pop are one step. A node that is reset or times out starts again from
  RxPath.Start.
- ReceivePaths.ReceivePath.MasterProcessRx: the acknowledgement a packet carries is
  TxManagers.TxManager.RxAckSeqNum, its buffer level Schedulers.Scheduler.UpdateNodeTxBufferLevel, and a join request
  NetworkManagers.NetworkManager.RegisterNewNode.
- ReceivePaths.ReceivePath.NodeQuickProcessPrevRx: the schedule copy is ScheduleKeepers.NodeSchedule.RecordSchedule;
  the acknowledgements in the master's schedule (nextTxNodeAckSeqNum) reach the sender as the acknowledgement steps
  of Delivery.
- ReceivePaths.ReceivePath.NodeProcessRx: the join response is NetworkManagers.RxNewNodePacketResponse.
- NetworkManagers.NetworkManager.RemoveAnyTimeoutNodes: the removals at src/master.c:49-51 from the other tables are
  NodeQueues.NodeQueue.RemoveIfExists, TxManagers.TxManager.RemoveNode and RxManagers.RxManager.RemoveAllPackets.
- Timeouts.HeardNodeTimesOutFirst: both sides see the same increments of time.
- Stations.RunKeepsIdsDistinct: a response is heard in the state it was written in, and each node looks at its timeout
  between two reports of time.
- JoinResponse.UniqueIdRoundTrip: both ends store integers in little-endian order.
- masterTxClearBuffers and masterResetTxCredits, which free entries without resetting windows.
- getNumInTxBuffer and the levels it reports, which are one too high when the range is wrapped.
- Random back-off, join requests' sub-slots and the choice of what a node stages to transmit.
- Statistics, logging and printing.
- The drivers in example_usage: the wire is a first-in first-out channel that may lose packets.
