/** The two holders of a schedule, with the buffers the source gives them. */
module ScheduleKeepers {
  import opened Microbus
  import opened SchedulerFairness
  import opened Schedule
  import opened Schedulers

  /** The schedule fields of tNode. */
  class NodeSchedule {
    var nodeId: uint8
    var currentTxNodeId: uint8
    const nextTxNodeId: array<uint8>

    ghost predicate Valid()
      reads this
    {
      nextTxNodeId.Length == MAX_TX_NODES_SCHEDULED + 1
    }

    ghost function View(): Node
      reads this, nextTxNodeId
      requires Valid()
    {
      Node(nodeId, Copy(currentTxNodeId, nextTxNodeId[..MAX_TX_NODES_SCHEDULED]))
    }

    constructor ()
      ensures Valid() && fresh(nextTxNodeId)
      ensures View() == Node(UNALLOCATED_NODE_ID, Copy(MASTER_NODE_ID, NoSchedule))
    {
      nextTxNodeId := new uint8[MAX_TX_NODES_SCHEDULED + 1](_ => 0);
      nodeId, currentTxNodeId := UNALLOCATED_NODE_ID, 0;
      new;
      assert nextTxNodeId[..MAX_TX_NODES_SCHEDULED] == NoSchedule;
    }

    /** nodeQuickProcessPrevRx: a master packet's schedule is copied even if the packet is
        for another node. */
    method RecordSchedule(packet: array<uint8>)
      requires Valid() && packet.Length == MAX_TX_NODES_SCHEDULED && packet != nextTxNodeId
      modifies nextTxNodeId
      ensures Valid() && View() == old(View()).(copy := old(View()).copy.(next := packet[..]))
    {
      for i := 0 to MAX_TX_NODES_SCHEDULED
        invariant nextTxNodeId[..i] == packet[..i]
      {
        nextTxNodeId[i] := packet[i];
      }
    }

    method UpdateSchedule()
      requires Valid()
      modifies this`currentTxNodeId, nextTxNodeId
      ensures Valid() && View() == old(View()).(copy := Shift(old(View()).copy))
    {
      ghost var next := nextTxNodeId[..MAX_TX_NODES_SCHEDULED];
      currentTxNodeId := nextTxNodeId[0];
      for i := 0 to MAX_TX_NODES_SCHEDULED - 1
        modifies nextTxNodeId
        invariant forall k :: 0 <= k < i ==> nextTxNodeId[k] == next[k + 1]
        invariant forall k :: i <= k < MAX_TX_NODES_SCHEDULED ==> nextTxNodeId[k] == next[k]
      {
        nextTxNodeId[i] := nextTxNodeId[i + 1];
      }
      nextTxNodeId[MAX_TX_NODES_SCHEDULED - 1] := INVALID_NODE_ID;
      assert nextTxNodeId[..MAX_TX_NODES_SCHEDULED] == next[1..] + [INVALID_NODE_ID];
    }

    /** nodeRemoveFromNetwork does nothing to a node that is not on the network. */
    method RemoveFromNetwork()
      requires Valid()
      modifies this, nextTxNodeId
      ensures Valid()
      ensures View() == if Joined(old(View())) then Node(UNALLOCATED_NODE_ID, Copy(MASTER_NODE_ID, NoSchedule))
                        else old(View())
    {
      if nodeId != UNALLOCATED_NODE_ID {
        nodeId, currentTxNodeId := UNALLOCATED_NODE_ID, 0;
        for i := 0 to nextTxNodeId.Length
          modifies nextTxNodeId
          invariant forall k :: 0 <= k < i ==> nextTxNodeId[k] == 0
        {
          nextTxNodeId[i] := 0;
        }
        assert nextTxNodeId[..MAX_TX_NODES_SCHEDULED] == NoSchedule;
      }
    }

    /** The schedule's part of nodeDualChannelPipelinedPreProcess. */
    method PreProcess(heard: bool, reset: bool, packet: array<uint8>)
      requires Valid() && packet.Length == MAX_TX_NODES_SCHEDULED && packet != nextTxNodeId
      modifies this, nextTxNodeId
      ensures Valid()
      ensures View() == NodeSlot(old(View()), if reset then Wire.Reset else Slots(old(packet[..])), heard)
    {
      if heard {
        if reset {
          RemoveFromNetwork();
        } else {
          RecordSchedule(packet);
        }
      }
      UpdateSchedule();
    }
  }

  /** The schedule fields of tMaster. */
  class MasterSchedule {
    const scheduler: Scheduler
    var currentTxNodeId: uint8
    const nextTxNodeId: array<uint8>
    var masterResetCycles: nat

    ghost predicate Valid()
      reads this, scheduler, scheduler.recent, scheduler.activeNodes, scheduler.activeNodes.nodeIds
      reads scheduler.activeTxNodes, scheduler.activeTxNodes.nodeIds, scheduler.nodeTxNodes, scheduler.nodeTxNodes.nodeIds
    {
      && scheduler.Valid()
      && nextTxNodeId.Length == MAX_TX_NODES_SCHEDULED + 2
      && nextTxNodeId != scheduler.recent && nextTxNodeId != scheduler.activeNodes.nodeIds
      && nextTxNodeId != scheduler.activeTxNodes.nodeIds && nextTxNodeId != scheduler.nodeTxNodes.nodeIds
    }

    ghost function View(): Bus
      reads this, nextTxNodeId, scheduler, scheduler.recent, scheduler.activeNodes, scheduler.activeNodes.nodeIds
      reads scheduler.activeTxNodes, scheduler.activeTxNodes.nodeIds, scheduler.nodeTxNodes, scheduler.nodeTxNodes.nodeIds
      requires Valid()
    {
      Bus(scheduler.View(), nextTxNodeId[..scheduler.numTxNodesScheduled])
    }

    /** masterInit: an empty schedule and twenty reset cycles. */
    constructor (scheduler: Scheduler)
      requires scheduler.Valid()
      ensures Valid() && this.scheduler == scheduler && fresh(nextTxNodeId)
      ensures currentTxNodeId == MASTER_NODE_ID && masterResetCycles == 20
      ensures View().window == seq(scheduler.numTxNodesScheduled, _ => MASTER_NODE_ID)
    {
      this.scheduler := scheduler;
      nextTxNodeId := new uint8[MAX_TX_NODES_SCHEDULED + 2](_ => 0);
      currentTxNodeId, masterResetCycles := 0, 20;
    }

    /** masterUpdateSchedule. During a reset the slots from the second on become the
        master's, one more than are scheduled. */
    method UpdateSchedule(level: nat)
      requires Valid()
      modifies this`currentTxNodeId, nextTxNodeId, scheduler, scheduler.recent
      modifies scheduler.activeNodes`lastIndex, scheduler.activeTxNodes`lastIndex, scheduler.nodeTxNodes`lastIndex
      ensures Valid() && (currentTxNodeId, View()) == MasterSlot(old(View()), masterResetCycles, level)
    {
      var n := scheduler.numTxNodesScheduled;
      if masterResetCycles > 0 {
        currentTxNodeId := MASTER_NODE_ID;
        for i := 1 to n + 1
          modifies nextTxNodeId
          invariant nextTxNodeId[0] == old(nextTxNodeId[0])
          invariant forall k :: 1 <= k < i ==> nextTxNodeId[k] == MASTER_NODE_ID
        {
          nextTxNodeId[i] := MASTER_NODE_ID;
        }
        assert nextTxNodeId[..n] == old(nextTxNodeId[..n])[..1] + seq(n - 1, _ => MASTER_NODE_ID);
      } else {
        currentTxNodeId := nextTxNodeId[0];
        scheduler.UpdateAndCalcNextTxNodes(nextTxNodeId, level);
      }
    }

    /** The schedule's part of masterQuickUpdateTxPacket: only the slots in use are written. */
    method WriteSchedule(packet: array<uint8>)
      requires Valid() && packet.Length == MAX_TX_NODES_SCHEDULED && packet != nextTxNodeId
      modifies packet
      ensures packet[..] == nextTxNodeId[..scheduler.numTxNodesScheduled] + old(packet[scheduler.numTxNodesScheduled..])
    {
      var n := scheduler.numTxNodesScheduled;
      for i := 0 to n
        invariant packet[..i] == nextTxNodeId[..i] && packet[i..] == old(packet[i..])
      {
        packet[i] := nextTxNodeId[i];
        assert packet[..i + 1] == nextTxNodeId[..i] + [nextTxNodeId[i]];
        assert packet[i + 1..] == old(packet[i..])[1..];
      }
    }
  }
}
