/** The receive paths of the master (src/masterRx.c) and of a node (src/node.c). */
module ReceivePaths {
  import opened Microbus
  import opened TxManagers
  import opened RxSpec
  import opened RxManagers
  import RxPath
  import Membership
  import SignsOfLife
  import opened NetworkManagers

  lemma QuickDrops(role: Role, m: Path, crcError: bool)
    requires m.Shaped() && RxPath.SenderKnown(role, m.rx.packets[m.next], |m.rxSeqNum|)
    ensures !Accepts(role, m.rx.packets[m.next], crcError) ==> Quick(role, m, crcError) == m.(prev := m.next, valid := false)
  {
  }

  method MasterAccepts(p: RxPacket, crcError: bool) returns (ok: bool)
    ensures ok == Accepts(AsMaster, p, crcError)
  {
    if p.versionAndType == 0 || p.versionAndType == 255 { return false; }
    if crcError { return false; }
    if p.Version() != MICROBUS_VERSION { return false; }
    if p.dataSize >= MAX_PACKET_DATA_SIZE { return false; }
    return true;
  }

  /** What the master does with a sign of life. */
  method RefreshSender(nwManager: NetworkManager, id: uint8)
    requires nwManager.Valid() && FIRST_NODE_ID <= id && id as int < MAX_NODES
    modifies nwManager`numNewNodes, nwManager.newNodeUniqueId, nwManager.newNodeId, nwManager.masterNodeTimeToLive
    ensures nwManager.Valid() && nwManager.View() == Membership.HeardBy(old(nwManager.View()), id)
  {
    hide Membership.MembersInv;
    if nwManager.masterNodeTimeToLive[id] > 0 {
      nwManager.RecordRxPacket(id);
    }
  }

  /** The fields of tMasterRx, or of tNode, that the receive path uses, with the numbers
      last accepted, which live in the transmit manager. */
  class ReceivePath {
    const rxPacketManager: RxManager
    const rxSeqNum: array<uint8>
    var nextRxPacketEntry: nat
    var prevRxPacketEntry: nat
    var validRxPacket: bool
    var validRxSeqNum: bool

    ghost function View(): Path
      reads this, rxSeqNum, rxPacketManager, rxPacketManager.inUse, rxPacketManager.packets, rxPacketManager.queue
    {
      Path(rxPacketManager.View(), nextRxPacketEntry, prevRxPacketEntry, validRxPacket, validRxSeqNum, rxSeqNum[..])
    }

    ghost predicate Valid()
      reads this, rxSeqNum, rxPacketManager, rxPacketManager.inUse, rxPacketManager.packets, rxPacketManager.queue
    {
      View().Shaped()
    }

    /** masterRxInit and the receive part of nodeInit. */
    constructor (maxRxPacketEntries: nat, numSenders: nat)
      requires 2 < maxRxPacketEntries <= 255
      ensures Valid() && View() == RxPath.InitPath(maxRxPacketEntries, numSenders)
      ensures fresh(rxSeqNum) && fresh(rxPacketManager)
      ensures fresh(rxPacketManager.inUse) && fresh(rxPacketManager.packets) && fresh(rxPacketManager.queue)
    {
      rxPacketManager := new RxManager(maxRxPacketEntries);
      rxSeqNum := new uint8[numSenders](_ => NULL_SEQUENCE_NUM);
      nextRxPacketEntry, prevRxPacketEntry, validRxPacket, validRxSeqNum := 0, 0, false, false;
      new;
      var entry := rxPacketManager.FindFreeRxPacket();
      nextRxPacketEntry := entry.value;
      assert View().rx == RxPath.InitPath(maxRxPacketEntries, numSenders).rx;
    }

    /** A packet from a node on the network refreshes its time to live, whether or not there
        is room for it. */
    method MasterQuickProcessPrevRx(nwManager: NetworkManager, crcError: bool)
      requires Valid() && nwManager.Valid()
      requires rxSeqNum != nwManager.newNodeId && rxSeqNum != nwManager.masterNodeTimeToLive
      requires rxSeqNum != nwManager.activeNodes.nodeIds
      requires FromNode(View().rx.packets[nextRxPacketEntry]) ==>
        FIRST_NODE_ID as int <= View().rx.packets[nextRxPacketEntry].srcNodeId as int < MAX_NODES
      requires RxPath.SenderKnown(AsMaster, View().rx.packets[nextRxPacketEntry], rxSeqNum.Length)
      modifies this, rxSeqNum, rxPacketManager.inUse
      modifies nwManager`numNewNodes, nwManager.newNodeUniqueId, nwManager.newNodeId, nwManager.masterNodeTimeToLive
      ensures Valid() && View() == Quick(AsMaster, old(View()), crcError)
      ensures nwManager.Valid() && nwManager.View() ==
        SignsOfLife.Refreshed(old(nwManager.View()), old(View().rx.packets[nextRxPacketEntry]), crcError)
    {
      hide Quick, Accepts, Store.Line, Store.InRing, Membership.MembersInv, Membership.HeardBy;
      var p := rxPacketManager.packets[nextRxPacketEntry];
      var ok := MasterAccepts(p, crcError);
      if ok {
        if p.Type() == NODE_DATA_PACKET || p.Type() == NODE_EMPTY_PACKET {
          RefreshSender(nwManager, p.srcNodeId);
        }
        MasterKeepPacket(p, crcError);
      } else {
        QuickDrops(AsMaster, View(), crcError);
        prevRxPacketEntry, validRxPacket := nextRxPacketEntry, false;
      }
    }

    /** The second half of masterQuickProcessPrevRx: the packet is kept if there is room, and
        then its number is tested. */
    method MasterKeepPacket(p: RxPacket, ghost crcError: bool)
      requires Valid() && p == View().rx.packets[nextRxPacketEntry] && Accepts(AsMaster, p, crcError)
      requires RxPath.SenderKnown(AsMaster, p, rxSeqNum.Length)
      modifies this, rxSeqNum, rxPacketManager.inUse
      ensures Valid() && View() == Quick(AsMaster, old(View()), crcError)
    {
      hide FindFree, Store.Line, Store.InRing;
      prevRxPacketEntry, validRxPacket := nextRxPacketEntry, true;
      var freeEntry := rxPacketManager.FindFreeRxPacket();
      if freeEntry.None? {
        validRxPacket := false;
        return;
      }
      nextRxPacketEntry := freeEntry.value;
      if p.Type() == NODE_DATA_PACKET {
        validRxSeqNum := CheckAndUpdateSeqNum(rxSeqNum, p.srcNodeId, p.txSeqNum);
      }
    }

    method MasterProcessRx()
      requires Valid() && ProcessAsserts(AsMaster, View()) && (Stores(AsMaster, View()) ==> !View().rx.Full())
      modifies this, rxPacketManager`end, rxPacketManager.inUse, rxPacketManager.queue
      ensures Valid() && View() == Process(AsMaster, old(View()))
    {
      if !validRxPacket { return; }
      var packetStored := false;
      if rxPacketManager.packets[prevRxPacketEntry].Type() == NODE_DATA_PACKET && validRxSeqNum {
        assert rxPacketManager.packets[prevRxPacketEntry].dataSize > 0;
        rxPacketManager.AddRxDataPacket(prevRxPacketEntry);
        packetStored := true;
      }
      if !packetStored {
        rxPacketManager.inUse[prevRxPacketEntry] := false;
      }
      validRxPacket, validRxSeqNum := false, false;
    }

    /** A reset does not get past the test of its type here; the caller starts the node
        over. */
    method NodeQuickProcessPrevRx(nodeId: uint8, crcError: bool) returns (reset: bool)
      requires Valid() && rxSeqNum.Length == 1
      modifies this, rxSeqNum, rxPacketManager.inUse
      ensures Valid() && View() == Quick(AsNode(nodeId), old(View()), crcError)
      ensures reset == IsReset(AsNode(nodeId), old(View().rx.packets[nextRxPacketEntry]), crcError)
    {
      hide FindFree, Store.Line, Store.InRing;
      prevRxPacketEntry, validRxPacket := nextRxPacketEntry, false;
      var p := rxPacketManager.packets[prevRxPacketEntry];
      if crcError { return false; }
      if p.versionAndType == 0 || p.versionAndType == 255 { return false; }
      if p.Version() != MICROBUS_VERSION { return false; }
      if p.Type() == MASTER_RESET_PACKET { return true; }
      if p.dstNodeId != nodeId { return false; }
      validRxPacket := true;
      var freeEntry := rxPacketManager.FindFreeRxPacket();
      if freeEntry.Some? {
        nextRxPacketEntry := freeEntry.value;
        validRxSeqNum := true;
        if nodeId != UNALLOCATED_NODE_ID {
          if p.Type() == MASTER_DATA_PACKET {
            validRxSeqNum := CheckAndUpdateSeqNum(rxSeqNum, MASTER_NODE_ID, p.txSeqNum);
          }
        }
      } else {
        validRxPacket := false;
      }
      return false;
    }

    method NodeProcessRx(nodeId: uint8)
      requires Valid() && ProcessAsserts(AsNode(nodeId), View()) && (Stores(AsNode(nodeId), View()) ==> !View().rx.Full())
      modifies rxPacketManager`end, rxPacketManager.inUse, rxPacketManager.queue
      ensures Valid() && View() == Process(AsNode(nodeId), old(View()))
    {
      if !validRxPacket { return; }
      var p := rxPacketManager.packets[prevRxPacketEntry];
      var packetStored := false;
      if nodeId != UNALLOCATED_NODE_ID && p.dstNodeId == nodeId && p.Type() == MASTER_DATA_PACKET {
        assert p.dataSize > 0;
        if validRxSeqNum {
          rxPacketManager.AddRxDataPacket(prevRxPacketEntry);
          packetStored := true;
        }
      }
      if !packetStored {
        rxPacketManager.inUse[prevRxPacketEntry] := false;
      }
    }
  }
}
