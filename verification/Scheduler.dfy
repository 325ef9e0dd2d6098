/** The scheduler as the source keeps it: counters, a turn, the four slots recorded last
    and cursors into queues that it shares with the master (src/scheduler.c). */
module Schedulers {
  import opened Microbus
  import opened NodeQueues
  import opened SchedulerSpec
  import opened SchedulerProofs

  class Scheduler {
    const numTxNodesScheduled: nat
    const maxSlotsBetweenUnallocated: uint8
    const recent: array<uint8>
    const activeNodes: NodeQueue
    const activeTxNodes: NodeQueue
    const nodeTxNodes: NodeQueue
    const nodeTxBufferLevel: array<uint8>
    var gapUpdateCount: uint8
    var unallocatedSlotGap: uint8
    var tillAllocation: uint8
    var tillService: uint8
    var nextTurn: Turn

    ghost predicate Laid()
      reads this, activeNodes, activeNodes.nodeIds, activeTxNodes, activeTxNodes.nodeIds, nodeTxNodes, nodeTxNodes.nodeIds
    {
      && recent.Length == MAX_MASTER_SLOTS_BETWEEN_ACKS && nodeTxBufferLevel.Length == MAX_NODES
      && activeNodes != activeTxNodes && activeNodes != nodeTxNodes && activeTxNodes != nodeTxNodes
      && activeNodes.nodeIds != activeTxNodes.nodeIds && activeNodes.nodeIds != nodeTxNodes.nodeIds
      && activeTxNodes.nodeIds != nodeTxNodes.nodeIds
      && recent != activeNodes.nodeIds && recent != activeTxNodes.nodeIds && recent != nodeTxNodes.nodeIds
      && recent != nodeTxBufferLevel
      && nodeTxBufferLevel != activeNodes.nodeIds && nodeTxBufferLevel != activeTxNodes.nodeIds
      && nodeTxBufferLevel != nodeTxNodes.nodeIds
      && activeNodes.Valid() && activeTxNodes.Valid() && nodeTxNodes.Valid()
    }

    ghost function View(): Sched
      reads this, recent, activeNodes, activeNodes.nodeIds, activeTxNodes, activeTxNodes.nodeIds, nodeTxNodes, nodeTxNodes.nodeIds
      requires Laid()
    {
      Sched(numTxNodesScheduled, maxSlotsBetweenUnallocated, gapUpdateCount, unallocatedSlotGap, tillAllocation,
            tillService, nextTurn, recent[..], activeNodes.View(), activeTxNodes.View(), nodeTxNodes.View())
    }

    ghost predicate Valid()
      reads this, recent, activeNodes, activeNodes.nodeIds, activeTxNodes, activeTxNodes.nodeIds, nodeTxNodes, nodeTxNodes.nodeIds
    {
      Laid() && View().Valid()
    }

    constructor (activeNodes: NodeQueue, activeTxNodes: NodeQueue, nodeTxNodes: NodeQueue,
                 numTxNodesScheduled: nat, maxSlotsBetweenUnallocated: uint8)
      requires 1 <= numTxNodesScheduled <= MAX_TX_NODES_SCHEDULED
      requires maxSlotsBetweenUnallocated != 1
      requires activeNodes.Valid() && activeTxNodes.Valid() && nodeTxNodes.Valid()
      requires activeNodes != activeTxNodes && activeNodes != nodeTxNodes && activeTxNodes != nodeTxNodes
      requires activeNodes.nodeIds != activeTxNodes.nodeIds && activeNodes.nodeIds != nodeTxNodes.nodeIds
      requires activeTxNodes.nodeIds != nodeTxNodes.nodeIds
      requires activeNodes.View() == activeTxNodes.View() == nodeTxNodes.View() == Queue([], 0)
      ensures Valid() && View() == InitSched(numTxNodesScheduled, maxSlotsBetweenUnallocated)
      ensures fresh(recent) && fresh(nodeTxBufferLevel)
      ensures this.activeNodes == activeNodes && this.activeTxNodes == activeTxNodes && this.nodeTxNodes == nodeTxNodes
    {
      this.numTxNodesScheduled, this.maxSlotsBetweenUnallocated := numTxNodesScheduled, maxSlotsBetweenUnallocated;
      this.activeNodes, this.activeTxNodes, this.nodeTxNodes := activeNodes, activeTxNodes, nodeTxNodes;
      recent := new uint8[MAX_MASTER_SLOTS_BETWEEN_ACKS](_ => 0);
      nodeTxBufferLevel := new uint8[MAX_NODES](_ => 0);
      gapUpdateCount, unallocatedSlotGap := 0, MIN_SLOTS_BETWEEN_UNALLOCATED;
      tillAllocation, tillService, nextTurn := MIN_SLOTS_BETWEEN_UNALLOCATED, 0, MasterTx;
      new;
      assert recent[..] == [0, 0, 0, 0];
    }

    method NodeRecentlySent(node: uint8) returns (b: bool)
      requires Laid()
      ensures b == RecentlySent(recent[..], node)
    {
      for i := 0 to MAX_MASTER_SLOTS_BETWEEN_ACKS - 1
        invariant forall k :: 0 <= k < i ==> recent[..][k] != node
      {
        if node == recent[i] {
          assert recent[..][..MAX_MASTER_SLOTS_BETWEEN_ACKS - 1][i] == node;
          return true;
        }
      }
      return false;
    }

    /** The source asserts, after every probe that fails, that fewer than four were made. */
    method GetNextMasterRxAckNode() returns (node: uint8)
      requires Laid()
      modifies activeTxNodes`lastIndex
      ensures Laid()
      ensures (node, activeTxNodes.View()) == AckSearch(old(activeTxNodes.View()), recent[..])
    {
      hide RecentlySent, AckSearch, AtProbe, Probe;
      ghost var q, sent := activeTxNodes.View(), recent[..];
      var n := activeTxNodes.numNodes;
      SearchEnds(q, sent);
      if n >= MAX_MASTER_SLOTS_BETWEEN_ACKS { FourProbes(q, sent); }
      for i := 0 to n
        invariant activeTxNodes.Valid() && activeTxNodes.View().ids == q.ids
        invariant n > 0 ==> AtProbe(activeTxNodes.View(), q, i)
        invariant AckSearch(q, sent) == AckSearch(activeTxNodes.View(), sent, i)
        invariant forall k :: 0 <= k < i ==> RecentlySent(sent, Probe(q, k))
      {
        ProbeStep(activeTxNodes.View(), q, sent, i);
        node := activeTxNodes.GetNext();
        var recently := NodeRecentlySent(node);
        if !recently { return node; }
        assert i < MAX_MASTER_SLOTS_BETWEEN_ACKS;
      }
      SearchEnds(activeTxNodes.View(), sent);
      return INVALID_NODE_ID;
    }

    method GetNextNodeTxNode() returns (node: uint8)
      requires Valid()
      modifies nodeTxNodes`lastIndex
      ensures Valid()
      ensures (node, nodeTxNodes.View()) == TxSearch(old(nodeTxNodes.View()))
    {
      if nodeTxNodes.numNodes > 0 {
        node := nodeTxNodes.GetNext();
      } else {
        node := INVALID_NODE_ID;
      }
    }

    method GetNextServiceNode(avoidRecentlyScheduled: bool) returns (node: uint8)
      requires Valid()
      modifies this`tillService, activeNodes`lastIndex
      ensures Valid() && (node, View()) == Service(old(View()), avoidRecentlyScheduled)
    {
      tillService := MAX_SLOTS_BETWEEN_SERVICING;
      node := INVALID_NODE_ID;
      if activeNodes.numNodes > 0 {
        var candidate := activeNodes.GetNext();
        var sent := NodeRecentlySent(candidate);
        if !(avoidRecentlyScheduled && sent) { node := candidate; }
      }
    }

    /** One turn of the loop in scheduleNextAllocatedNode. */
    method TakeTurn(level: nat) returns (node: uint8)
      requires Valid()
      modifies this`nextTurn, activeTxNodes`lastIndex, nodeTxNodes`lastIndex
      ensures Valid() && (node, View()) ==
        (Propose(old(View()), level).0, Propose(old(View()), level).1.(nextTurn := old(nextTurn).Following()))
    {
      ghost var s := View();
      match nextTurn {
        case MasterTx => node := if numTxNodesScheduled > 1 && level > 0 then MASTER_NODE_ID else INVALID_NODE_ID;
        case MasterRxAck => node := GetNextMasterRxAckNode();
        case NodeTx => node := GetNextNodeTxNode();
      }
      ProposeKeepsValid(s, level);
      nextTurn := nextTurn.Following();
    }

    method ScheduleNextAllocatedNode(level: nat) returns (node: uint8)
      requires Valid()
      modifies this`tillService, this`nextTurn, activeNodes`lastIndex, activeTxNodes`lastIndex, nodeTxNodes`lastIndex
      ensures Valid() && (node, View()) == ScheduleAllocated(old(View()), level)
    {
      hide Propose, Service, Queue.Valid, SameSlots;
      if tillService == 0 {
        node := GetNextServiceNode(true);
        if node != INVALID_NODE_ID { return; }
      }
      ghost var s := View();
      for i := 0 to 3
        invariant Valid() && TryTurns(s, level, 3) == TryTurns(View(), level, 3 - i)
      {
        node := TakeTurn(level);
        if node != INVALID_NODE_ID { return; }
      }
      node := GetNextServiceNode(false);
    }

    /** The gap doubles once 128 unallocated slots have gone by. */
    method WidenUnallocatedGap()
      requires Laid()
      modifies this`gapUpdateCount, this`unallocatedSlotGap
      ensures Laid() && View() == WidenGap(old(View()))
    {
      if unallocatedSlotGap != maxSlotsBetweenUnallocated {
        gapUpdateCount := (gapUpdateCount + 1) % 256;
        if gapUpdateCount == NUM_SLOTS_BEFORE_ALLOCATION_CHANGED {
          unallocatedSlotGap := (2 * unallocatedSlotGap) % 256;
          if unallocatedSlotGap > maxSlotsBetweenUnallocated {
            unallocatedSlotGap := maxSlotsBetweenUnallocated;
          }
        }
      }
    }

    /** The source asserts that both counts are positive before it takes one from each. */
    method ScheduleNextNode(level: nat) returns (node: uint8)
      requires Valid()
      modifies this, recent, activeNodes`lastIndex, activeTxNodes`lastIndex, nodeTxNodes`lastIndex
      ensures Valid() && (node, View()) == ScheduleNext(old(View()), level)
    {
      hide ScheduleAllocated, WidenGap;
      ghost var s := View();
      ScheduleNextKeepsValid(s, level);
      if tillAllocation == 0 {
        node := UNALLOCATED_NODE_ID;
        WidenUnallocatedGap();
        tillAllocation := (unallocatedSlotGap - 1) % 256;
      } else {
        node := ScheduleNextAllocatedNode(level);
        assert tillAllocation > 0;
        assert tillService > 0;
        tillAllocation := tillAllocation - 1;
        tillService := tillService - 1;
        RecordSlot(node);
        if node == INVALID_NODE_ID { node := UNALLOCATED_NODE_ID; }
      }
    }

    /** The loop that shifts the recorded slots down. */
    method RecordSlot(node: uint8)
      requires recent.Length == MAX_MASTER_SLOTS_BETWEEN_ACKS
      modifies recent
      ensures recent[..] == old(recent[..])[1..] + [node]
    {
      for i := 0 to MAX_MASTER_SLOTS_BETWEEN_ACKS - 1
        invariant forall k :: 0 <= k < i ==> recent[k] == old(recent[k + 1])
        invariant forall k :: i <= k < MAX_MASTER_SLOTS_BETWEEN_ACKS ==> recent[k] == old(recent[k])
      {
        recent[i] := recent[i + 1];
      }
      recent[MAX_MASTER_SLOTS_BETWEEN_ACKS - 1] := node;
    }

    /** NEW_NODE_HEARD_UPDATE_SCHEDULER. */
    method NewNodeHeard()
      requires Valid()
      modifies this`unallocatedSlotGap, this`tillAllocation
      ensures Valid() && View() == SchedulerSpec.NewNodeHeard(old(View()))
    {
      unallocatedSlotGap := MIN_SLOTS_BETWEEN_UNALLOCATED;
      tillAllocation := MIN_SLOTS_BETWEEN_UNALLOCATED;
    }

    /** The window's buffer is longer than the window; what lies beyond stays as it is. */
    method UpdateAndCalcNextTxNodes(nodesToTx: array<uint8>, level: nat)
      requires Valid() && nodesToTx.Length >= numTxNodesScheduled
      requires nodesToTx != recent && nodesToTx != activeNodes.nodeIds && nodesToTx != activeTxNodes.nodeIds
      requires nodesToTx != nodeTxNodes.nodeIds
      modifies this, recent, activeNodes`lastIndex, activeTxNodes`lastIndex, nodeTxNodes`lastIndex, nodesToTx
      ensures Valid()
      ensures (nodesToTx[..numTxNodesScheduled], View()) ==
        UpdateWindow(old(View()), old(nodesToTx[..numTxNodesScheduled]), level)
      ensures nodesToTx[numTxNodesScheduled..] == old(nodesToTx[numTxNodesScheduled..])
    {
      hide ScheduleNext;
      ghost var w := nodesToTx[..numTxNodesScheduled];
      if numTxNodesScheduled == 1 {
        var node := ScheduleNextNode(0);
        nodesToTx[0] := node;
        assert nodesToTx[..1] == [node];
      } else {
        var remaining, oneMasterTx := ShiftWindow(nodesToTx, level);
        assert nodesToTx[..numTxNodesScheduled - 1] == w[1..];
        if oneMasterTx {
          var node := ScheduleNextNode(remaining);
          nodesToTx[numTxNodesScheduled - 1] := node;
        } else {
          nodesToTx[numTxNodesScheduled - 1] := MASTER_NODE_ID;
        }
        assert nodesToTx[..numTxNodesScheduled] == w[1..] + [nodesToTx[numTxNodesScheduled - 1]];
      }
    }

    /** The shifting loop, which also looks for the master's slots. */
    method ShiftWindow(nodesToTx: array<uint8>, level: nat) returns (remaining: nat, oneMasterTx: bool)
      requires 1 < numTxNodesScheduled <= nodesToTx.Length
      modifies nodesToTx
      ensures nodesToTx[..numTxNodesScheduled - 1] == old(nodesToTx[..numTxNodesScheduled])[1..]
      ensures nodesToTx[numTxNodesScheduled..] == old(nodesToTx[numTxNodesScheduled..])
      ensures var kept := old(nodesToTx[..numTxNodesScheduled])[1..];
        && oneMasterTx == (MASTER_NODE_ID in kept)
        && remaining == if level > MasterSlots(kept) then level - MasterSlots(kept) else 0
    {
      ghost var kept := nodesToTx[..numTxNodesScheduled][1..];
      remaining, oneMasterTx := level, false;
      for i := 0 to numTxNodesScheduled - 1
        invariant nodesToTx[..i] == kept[..i]
        invariant forall k :: i <= k < nodesToTx.Length ==> nodesToTx[k] == old(nodesToTx[k])
        invariant oneMasterTx == (MASTER_NODE_ID in kept[..i])
        invariant remaining == if level > MasterSlots(kept[..i]) then level - MasterSlots(kept[..i]) else 0
      {
        nodesToTx[i] := nodesToTx[i + 1];
        assert kept[..i + 1] == kept[..i] + [nodesToTx[i]];
        MasterSlotsAppend(kept[..i], nodesToTx[i]);
        if nodesToTx[i] == MASTER_NODE_ID {
          if remaining > 0 { remaining := remaining - 1; }
          oneMasterTx := true;
        }
      }
      assert kept[..numTxNodesScheduled - 1] == kept;
    }

    /** nodeQueueAdd asserts room and nodeQueueRemove that the node is in the queue; both hold
        while the queue and the levels agree (LevelUpdateKeepsAgreement). */
    method UpdateNodeTxBufferLevel(src: uint8, level: uint8)
      requires Valid() && FIRST_NODE_ID <= src < MAX_NODES
      requires nodeTxBufferLevel[src] == 0 && level > 0 ==> nodeTxNodes.numNodes < MAX_NODES
      requires nodeTxBufferLevel[src] > 0 && level == 0 ==> src in nodeTxNodes.View().ids
      modifies nodeTxNodes, nodeTxNodes.nodeIds, nodeTxBufferLevel
      ensures Valid()
      ensures nodeTxBufferLevel[..] == old(nodeTxBufferLevel[..])[src := level]
      ensures nodeTxNodes.View() == LevelUpdated(old(nodeTxNodes.View()), old(nodeTxBufferLevel[..]), src, level)
    {
      ghost var q, levels := nodeTxNodes.View(), nodeTxBufferLevel[..];
      if nodeTxNodes.numNodes < MAX_NODES { AddKeepsValid(q, src); }
      RemoveKeepsRest(q, src);
      if nodeTxBufferLevel[src] == 0 && level > 0 {
        var ok := nodeTxNodes.Add(src);
      } else if nodeTxBufferLevel[src] > 0 && level == 0 {
        assert src in q.ids;
        nodeTxNodes.RemoveIfExists(src);
      }
      nodeTxBufferLevel[src] := level;
      assert nodeTxBufferLevel[..] == levels[src := level];
    }
  }
}
