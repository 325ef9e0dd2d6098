/** The network manager as the source keeps it (src/networkManager.c): the table of times to
    live, the fixed tables of pending joins and the queue of active nodes. */
module NetworkManagers {
  import opened Microbus
  import opened NodeQueues
  import opened Timeouts
  import opened Membership
  import opened JoinResponse

  /** The copy of one entry into a packet. */
  method WriteEntry(data: array<uint8>, at: nat, uniqueId: uint64, nodeId: uint8)
    requires at + NEW_NODE_RESPONSE_ENTRY_SIZE <= data.Length
    modifies data
    ensures data[..] == old(data[..at]) + EntryBytes(Join(uniqueId, nodeId)) + old(data[at + NEW_NODE_RESPONSE_ENTRY_SIZE..])
  {
    ghost var before, bytes := data[..], ToBytes(uniqueId, 8);
    var x: nat := uniqueId;
    for k := 0 to 8
      invariant data[..at + k] == before[..at] + bytes[..k] && data[at + k..] == before[at + k..]
      invariant bytes[k..] == ToBytes(x, 8 - k)
    {
      assert bytes[k] == bytes[k..][0] && bytes[k + 1..] == bytes[k..][1..];
      assert before[at + k + 1..] == before[at + k..][1..];
      data[at + k] := x % 256;
      assert data[..at + k + 1] == data[..at + k] + [bytes[k]];
      assert data[at + k + 1..] == before[at + k + 1..];
      x := x / 256;
    }
    data[at + 8] := nodeId;
    assert data[..] == data[..at + 8] + [nodeId] + before[at + 9..];
  }

  method ReadUniqueId(data: array<uint8>, at: nat) returns (x: nat)
    requires at + 8 <= data.Length
    ensures x == FromBytes(data[at..at + 8])
  {
    x := 0;
    var k := 8;
    while k > 0
      invariant 0 <= k <= 8 && x == FromBytes(data[at + k..at + 8])
    {
      k := k - 1;
      assert data[at + k..at + 8] == [data[at + k]] + data[at + k + 1..at + 8];
      x := data[at + k] + 256 * x;
    }
  }

  /** rxNewNodePacketResponse: a node whose unique id is in the packet takes the id beside it
      and starts its timeout; any other keeps what it has. The number of entries is kept in
      8 bits. */
  method RxNewNodePacketResponse(data: array<uint8>, dataSize1: uint8, dataSize2: uint8, uniqueId: uint64,
                                 nodeId: uint8, timeToLive: int)
    returns (nodeId': uint8, timeToLive': int)
    requires NEW_NODE_RESPONSE_ENTRY_SIZE * ((SizeOf(dataSize1, dataSize2) / NEW_NODE_RESPONSE_ENTRY_SIZE) % 256) <= data.Length
    ensures var n := (SizeOf(dataSize1, dataSize2) / NEW_NODE_RESPONSE_ENTRY_SIZE) % 256;
      match Decode(data[..], n, uniqueId)
      case None => nodeId' == nodeId && timeToLive' == timeToLive
      case Some(id) => nodeId' == id && timeToLive' == NODE_TIMEOUT_US
  {
    var n := (SizeOf(dataSize1, dataSize2) / NEW_NODE_RESPONSE_ENTRY_SIZE) % 256;
    for i := 0 to n
      invariant Decode(data[..], n, uniqueId) == Decode(data[..], n, uniqueId, i)
    {
      var at := NEW_NODE_RESPONSE_ENTRY_SIZE * i;
      var rxUniqueId := ReadUniqueId(data, at);
      assert data[at..at + 8] == data[..][at..at + 8];
      if rxUniqueId == uniqueId { return data[at + 8], NODE_TIMEOUT_US; }
    }
    return nodeId, timeToLive;
  }

  ghost function Paired(uniqueIds: seq<uint64>, nodeIds: seq<uint8>): (r: seq<Join>)
    requires |uniqueIds| == |nodeIds|
    ensures |r| == |nodeIds| && forall i :: 0 <= i < |r| ==> r[i] == Join(uniqueIds[i], nodeIds[i])
  {
    seq(|nodeIds|, i requires 0 <= i < |nodeIds| => Join(uniqueIds[i], nodeIds[i]))
  }

  /** The packet memory after the first n entries. */
  ghost function Encoded(joins: seq<Join>, n: nat, before: seq<uint8>): seq<uint8>
    requires n <= |joins| && NEW_NODE_RESPONSE_ENTRY_SIZE * n <= |before|
  {
    Encode(joins[..n]) + before[NEW_NODE_RESPONSE_ENTRY_SIZE * n..]
  }

  lemma EncodedNext(joins: seq<Join>, n: nat, before: seq<uint8>)
    requires n < |joins| && NEW_NODE_RESPONSE_ENTRY_SIZE * (n + 1) <= |before|
    ensures var at := NEW_NODE_RESPONSE_ENTRY_SIZE * n;
      var now := Encoded(joins, n, before);
      now[..at] + EntryBytes(joins[n]) + now[at + NEW_NODE_RESPONSE_ENTRY_SIZE..] == Encoded(joins, n + 1, before)
  {
    hide EntryBytes;
    assert joins[..n + 1][..n] == joins[..n];
    assert Encode(joins[..n + 1]) == Encode(joins[..n]) + EntryBytes(joins[n]);
  }

  method PutEntry(data: array<uint8>, num: nat, uniqueId: uint64, nodeId: uint8, ghost joins: seq<Join>, ghost before: seq<uint8>)
    requires num < |joins| && joins[num] == Join(uniqueId, nodeId)
    requires NEW_NODE_RESPONSE_ENTRY_SIZE * (num + 1) <= |before| == data.Length
    requires data[..] == Encoded(joins, num, before)
    modifies data
    ensures data[..] == Encoded(joins, num + 1, before)
  {
    hide Encoded, EntryBytes;
    EncodedNext(joins, num, before);
    ghost var now := data[..];
    WriteEntry(data, NEW_NODE_RESPONSE_ENTRY_SIZE * num, uniqueId, nodeId);
    assert now[..NEW_NODE_RESPONSE_ENTRY_SIZE * num] == old(data[..NEW_NODE_RESPONSE_ENTRY_SIZE * num]);
  }

  lemma EncodedEnds(joins: seq<Join>, before: seq<uint8>)
    requires NEW_NODE_RESPONSE_ENTRY_SIZE * |joins| <= |before|
    ensures Encoded(joins, 0, before) == before
    ensures Encoded(joins, |joins|, before) == Encode(joins) + before[NEW_NODE_RESPONSE_ENTRY_SIZE * |joins|..]
  {
    assert joins[..0] == [] && joins[..|joins|] == joins;
  }

  lemma PendingNonzero(m: Members)
    requires MembersInv(m)
    ensures forall i :: 0 <= i < |m.joins| ==> m.joins[i].uniqueId != 0
  {
  }

  class NetworkManager {
    const newNodeUniqueId: array<uint64>
    const newNodeId: array<uint8>
    const masterNodeTimeToLive: array<uint8>
    const activeNodes: NodeQueue
    var numNewNodes: nat
    var timeToLiveTimeUs: uint32

    ghost predicate Laid()
      reads this, activeNodes, activeNodes.nodeIds
    {
      && newNodeUniqueId.Length == newNodeId.Length == MAX_NODES_ALLOCATED_AT_ONCE
      && masterNodeTimeToLive.Length == MAX_NODES && numNewNodes <= MAX_NODES_ALLOCATED_AT_ONCE
      && newNodeId != masterNodeTimeToLive && newNodeId != activeNodes.nodeIds
      && masterNodeTimeToLive != activeNodes.nodeIds
      && activeNodes.Valid()
    }

    ghost function Joins(): (r: seq<Join>)
      reads this, newNodeUniqueId, newNodeId
      requires newNodeUniqueId.Length == newNodeId.Length && numNewNodes <= newNodeId.Length
      ensures |r| == numNewNodes
    {
      Paired(newNodeUniqueId[..numNewNodes], newNodeId[..numNewNodes])
    }

    ghost function View(): Members
      reads this, newNodeUniqueId, newNodeId, masterNodeTimeToLive, activeNodes, activeNodes.nodeIds
      requires Laid()
    {
      Members(masterNodeTimeToLive[..], Joins(), activeNodes.View(), timeToLiveTimeUs)
    }

    ghost predicate Valid()
      reads this, newNodeUniqueId, newNodeId, masterNodeTimeToLive, activeNodes, activeNodes.nodeIds
    {
      Laid() && MembersInv(View())
    }

    constructor ()
      ensures Valid() && View() == InitMembers()
      ensures fresh(newNodeUniqueId) && fresh(newNodeId) && fresh(masterNodeTimeToLive)
      ensures fresh(activeNodes) && fresh(activeNodes.nodeIds)
    {
      newNodeUniqueId := new uint64[MAX_NODES_ALLOCATED_AT_ONCE](_ => 0);
      newNodeId := new uint8[MAX_NODES_ALLOCATED_AT_ONCE](_ => 0);
      masterNodeTimeToLive := new uint8[MAX_NODES](_ => 0);
      activeNodes := new NodeQueue();
      numNewNodes, timeToLiveTimeUs := 0, 0;
      new;
      InitMembersInv();
      assert View() == InitMembers();
    }

    method GetNextFreeNodeId() returns (id: uint8)
      requires Laid()
      ensures id as int == if FreeId(masterNodeTimeToLive[..]) == MAX_NODES then INVALID_NODE_ID as int else FreeId(masterNodeTimeToLive[..])
    {
      for nodeId := 1 to MAX_NODES
        invariant FreeId(masterNodeTimeToLive[..]) == FreeId(masterNodeTimeToLive[..], nodeId)
      {
        if masterNodeTimeToLive[nodeId] == 0 { return nodeId; }
      }
      return INVALID_NODE_ID;
    }

    /** A request for a unique id already pending, or with no room or no free id, changes
        nothing. */
    method RegisterNewNode(uniqueId: uint64)
      requires Valid() && uniqueId != 0
      modifies this`numNewNodes, newNodeUniqueId, newNodeId, masterNodeTimeToLive, activeNodes, activeNodes.nodeIds
      ensures Valid() && View() == Register(old(View()), uniqueId)
    {
      hide MembersInv;
      ghost var m := View();
      if numNewNodes == MAX_NODES_ALLOCATED_AT_ONCE { return; }
      for i := 0 to numNewNodes
        invariant forall k :: 0 <= k < i ==> m.joins[k].uniqueId != uniqueId
      {
        if newNodeUniqueId[i] == uniqueId {
          assert m.joins[i].uniqueId == uniqueId;
          return;
        }
      }
      var nodeId := GetNextFreeNodeId();
      if nodeId == INVALID_NODE_ID { return; }
      ActiveHasRoom(m);
      RegisterKeepsInv(m, uniqueId);
      masterNodeTimeToLive[nodeId] := MASTER_MAX_TIME_TO_LIVE;
      var index := numNewNodes;
      newNodeUniqueId[index] := uniqueId;
      newNodeId[index] := nodeId;
      numNewNodes := numNewNodes + 1;
      assert Joins() == m.joins + [Join(uniqueId, nodeId)];
      var _ := activeNodes.Add(nodeId);
      assert View() == Register(m, uniqueId);
    }

    /** The inner loop of the removal: every later entry moves down by one. */
    method ShiftDown(i: nat)
      requires Laid() && i < numNewNodes
      modifies this`numNewNodes, newNodeUniqueId, newNodeId
      ensures Laid() && Joins() == old(Joins()[..i]) + old(Joins()[i + 1..])
    {
      for j := i to numNewNodes - 1
        modifies newNodeUniqueId, newNodeId
        invariant Laid()
        invariant forall k :: 0 <= k < i || j <= k < numNewNodes ==>
          newNodeUniqueId[k] == old(newNodeUniqueId[k]) && newNodeId[k] == old(newNodeId[k])
        invariant forall k :: i <= k < j ==>
          newNodeUniqueId[k] == old(newNodeUniqueId[k + 1]) && newNodeId[k] == old(newNodeId[k + 1])
      {
        newNodeUniqueId[j] := newNodeUniqueId[j + 1];
        newNodeId[j] := newNodeId[j + 1];
      }
      numNewNodes := numNewNodes - 1;
    }

    method RemoveNewNodeRequest(rxNodeId: uint8) returns (found: bool)
      requires Laid()
      modifies this`numNewNodes, newNodeUniqueId, newNodeId
      ensures Laid() && View() == old(View()).(joins := WithoutJoin(old(Joins()), rxNodeId))
      ensures found <==> exists i :: 0 <= i < |old(Joins())| && old(Joins())[i].nodeId == rxNodeId
    {
      ghost var joins := Joins();
      for i := 0 to numNewNodes
        invariant forall k :: 0 <= k < i ==> joins[k].nodeId != rxNodeId
      {
        if newNodeId[i] == rxNodeId {
          WithoutJoinAt(joins, rxNodeId, i);
          ShiftDown(i);
          return true;
        }
      }
      WithoutJoinAbsent(joins, rxNodeId);
      return false;
    }

    /** Called for a node that is on the network. */
    method RecordRxPacket(rxNodeId: uint8)
      requires Valid() && Live(View(), rxNodeId)
      modifies this`numNewNodes, newNodeUniqueId, newNodeId, masterNodeTimeToLive
      ensures Valid() && View() == Heard(old(View()), rxNodeId)
    {
      HeardKeepsInv(View(), rxNodeId);
      hide MembersInv;
      masterNodeTimeToLive[rxNodeId] := MASTER_MAX_TIME_TO_LIVE;
      var _ := RemoveNewNodeRequest(rxNodeId);
    }

    method UpdateTimeUs(us: uint32)
      requires Valid()
      modifies this`timeToLiveTimeUs, masterNodeTimeToLive
      ensures Valid() && View() == Elapse(old(View()), us)
    {
      ghost var m := View();
      ElapseKeepsInv(m, us);
      hide MembersInv;
      timeToLiveTimeUs := (timeToLiveTimeUs + us) % 0x1_0000_0000;
      if timeToLiveTimeUs >= TIME_TO_LIVE_UPDATE_TIME_US {
        timeToLiveTimeUs := timeToLiveTimeUs - TIME_TO_LIVE_UPDATE_TIME_US;
        for nodeId := 1 to MAX_NODES
          modifies masterNodeTimeToLive
          invariant masterNodeTimeToLive[0] == m.ttl[0]
          invariant forall k :: 1 <= k < nodeId ==> masterNodeTimeToLive[k] == CountDown(m.ttl[k])
          invariant forall k :: nodeId <= k < MAX_NODES ==> masterNodeTimeToLive[k] == m.ttl[k]
        {
          if masterNodeTimeToLive[nodeId] > 0 && masterNodeTimeToLive[nodeId] != REMOVE_NODE_TTL {
            masterNodeTimeToLive[nodeId] := masterNodeTimeToLive[nodeId] - 1;
            if masterNodeTimeToLive[nodeId] == 0 {
              masterNodeTimeToLive[nodeId] := REMOVE_NODE_TTL;
            }
          }
        }
        assert masterNodeTimeToLive[..] == Elapse(m, us).ttl;
      }
      assert View() == Elapse(m, us);
    }

    method RemoveOne(nodeId: uint8)
      requires Valid() && FIRST_NODE_ID <= nodeId && nodeId as int < MAX_NODES
      modifies this`numNewNodes, newNodeUniqueId, newNodeId, masterNodeTimeToLive, activeNodes, activeNodes.nodeIds
      ensures Valid() && View() == RemoveNode(old(View()), nodeId)
    {
      RemoveNodeKeepsInv(View(), nodeId);
      hide MembersInv;
      masterNodeTimeToLive[nodeId] := 0;
      var _ := RemoveNewNodeRequest(nodeId);
      activeNodes.RemoveIfExists(nodeId);
    }

    /** The membership part of masterRemoveAnyTimeoutNodes. */
    method RemoveAnyTimeoutNodes()
      requires Valid()
      modifies this`numNewNodes, newNodeUniqueId, newNodeId, masterNodeTimeToLive, activeNodes, activeNodes.nodeIds
      ensures Valid() && View() == RemoveTimedOut(old(View()))
    {
      hide MembersInv;
      for nodeId := 1 to MAX_NODES
        invariant Valid() && RemoveTimedOut(View(), nodeId) == RemoveTimedOut(old(View()))
      {
        if masterNodeTimeToLive[nodeId] == REMOVE_NODE_TTL { RemoveOne(nodeId); }
      }
    }

    /** Called only while joins are pending: with none, the entries left behind by earlier
        removals would be sent. */
    method TxNewNodeResponse(data: array<uint8>) returns (dataSize1: uint8, dataSize2: uint8)
      requires Valid() && numNewNodes > 0
      requires data.Length == MASTER_PACKET_DATA_SIZE && data != newNodeId && data != masterNodeTimeToLive && data != activeNodes.nodeIds
      modifies data
      ensures data[..] == Encode(View().joins) + old(data[NEW_NODE_RESPONSE_ENTRY_SIZE * numNewNodes..])
      ensures (dataSize1, dataSize2) == SizeField(|Encode(View().joins)|)
    {
      hide MembersInv, Queue.Valid, Encoded, Encode, Paired, EntryBytes;
      PendingNonzero(View());
      ghost var joins, before := Joins(), data[..];
      EncodedEnds(joins, before);
      var room := MASTER_PACKET_DATA_SIZE / NEW_NODE_RESPONSE_ENTRY_SIZE;
      var maxNum := if numNewNodes < room then numNewNodes else room;
      var num := 0;
      for i := 0 to MAX_NODES_ALLOCATED_AT_ONCE
        modifies data
        invariant num == i < numNewNodes
        invariant data[..] == Encoded(joins, num, before)
      {
        assert joins[i] == Join(newNodeUniqueId[i], newNodeId[i]);
        if newNodeUniqueId[i] > 0 {
          PutEntry(data, num, newNodeUniqueId[i], newNodeId[i], joins, before);
          num := num + 1;
          if num == maxNum { break; }
        }
      }
      var dataSize := num * NEW_NODE_RESPONSE_ENTRY_SIZE;
      return (dataSize / 256) % 256, dataSize % 256;
    }
  }
}
