/** The list of node ids with a rotating cursor (tNodeQueue, src/common.c). */
module NodeQueues {
  import opened Microbus

  datatype Queue = Queue(ids: seq<uint8>, last: nat) {
    ghost predicate Valid() {
      && Distinct(ids)
      && |ids| <= MAX_NODES
      && (last < |ids| || last == 0)
    }

    function Add(id: uint8): Queue {
      if id in ids then this else this.(ids := ids + [id])
    }

    function Remove(id: uint8): Queue {
      var rest := Without(ids, id);
      if id !in ids then this
      else Queue(rest, if last >= |rest| then 0 else last)
    }

    function Next(): (r: (uint8, Queue))
      requires last < |ids|
    {
      (ids[last], this.(last := if last + 1 >= |ids| then 0 else last + 1))
    }
  }

  function Without(ids: seq<uint8>, id: uint8): (r: seq<uint8>)
    ensures |r| <= |ids|
  {
    if ids == [] then []
    else if ids[0] == id then ids[1..]
    else [ids[0]] + Without(ids[1..], id)
  }

  lemma {:induction false} WithoutAt(ids: seq<uint8>, id: uint8, i: nat)
    requires i < |ids| && ids[i] == id && id !in ids[..i]
    ensures Without(ids, id) == Drop(ids, i)
  {
    if i > 0 {
      assert ids[0] == ids[..i][0];
      assert id !in ids[1..][..i - 1] by {
        assert ids[..i][1..] == ids[1..][..i - 1];
      }
      WithoutAt(ids[1..], id, i - 1);
      assert ids[..i] == [ids[0]] + ids[1..][..i - 1];
    }
  }

  /** Removal takes away the one id it names and keeps the rest in order, so every
      other id stays a member and no repetition appears. */
  lemma {:induction false} RemoveKeepsRest(q: Queue, id: uint8)
    requires q.Valid()
    ensures q.Remove(id).Valid()
    ensures id !in q.Remove(id).ids
    ensures forall x :: x != id ==> (x in q.Remove(id).ids <==> x in q.ids)
    ensures |q.Remove(id).ids| == |q.ids| - (if id in q.ids then 1 else 0)
  {
    if id in q.ids {
      var i :| 0 <= i < |q.ids| && q.ids[i] == id;
      assert id !in q.ids[..i];
      WithoutAt(q.ids, id, i);
      hide Drop, Without;
      DropDistinct(q.ids, i);
      forall x ensures x in q.ids <==> x in Drop(q.ids, i) || x == id {
        DropHas(q.ids, i, x);
      }
    }
  }

  lemma AddKeepsValid(q: Queue, id: uint8)
    requires q.Valid() && |q.ids| < MAX_NODES
    ensures q.Add(id).Valid()
    ensures forall x :: x in q.Add(id).ids <==> x == id || x in q.ids
  {
  }

  /** A newcomer waits its turn behind the others. */
  lemma AddKeepsTurn(q: Queue, id: uint8)
    requires q.Valid() && q.ids != []
    ensures q.last < |q.Add(id).ids| && q.Add(id).Next().0 == q.Next().0
    ensures id !in q.ids ==> q.Add(id).ids == q.ids + [id]
  {
  }

  /** Whose turn it is after the i-th id was removed: nobody's turn changes if that id was
      still to come; the next one's if it was its own; and one id is passed over if the
      removed one had been served already, because the cursor stays in its place. Past the
      end the turn is the first id's. */
  lemma RemoveMovesTurn(q: Queue, i: nat)
    requires q.Valid() && i < |q.ids| && |q.ids| > 1
    ensures var r := q.Remove(q.ids[i]);
      && r.last < |r.ids|
      && r.Next().0 == if q.last < i then q.ids[q.last]
                       else if q.last + 1 < |q.ids| then q.ids[q.last + 1]
                       else if i == 0 then q.ids[1] else q.ids[0]
  {
    assert q.ids[i] !in q.ids[..i];
    WithoutAt(q.ids, q.ids[i], i);
  }

  /** The queue as the source keeps it: a fixed buffer, a count and a cursor. */
  class NodeQueue {
    const nodeIds: array<uint8>
    var numNodes: nat
    var lastIndex: nat

    ghost predicate Valid()
      reads this, nodeIds
    {
      nodeIds.Length == MAX_NODES && numNodes <= MAX_NODES && View().Valid()
    }

    ghost function View(): Queue
      reads this, nodeIds
      requires numNodes <= nodeIds.Length
    {
      Queue(nodeIds[..numNodes], lastIndex)
    }

    constructor ()
      ensures Valid() && fresh(nodeIds) && View() == Queue([], 0)
    {
      nodeIds := new uint8[MAX_NODES](_ => 0);
      numNodes, lastIndex := 0, 0;
    }

    method Add(nodeId: uint8) returns (ok: bool)
      requires Valid() && numNodes < MAX_NODES
      modifies this, nodeIds
      ensures Valid()
      ensures ok && View() == old(View()).Add(nodeId)
    {
      for i := 0 to numNodes
        invariant numNodes == old(numNodes) && View() == old(View())
        invariant nodeId !in nodeIds[..i]
      {
        if nodeIds[i] == nodeId { return true; }
      }
      AddKeepsValid(View(), nodeId);
      nodeIds[numNodes] := nodeId;
      numNodes := numNodes + 1;
      return true;
    }

    /** The inner loop of the removal: every later id moves down by one. */
    method ShiftDown(i: nat)
      requires nodeIds.Length == MAX_NODES && i < numNodes <= MAX_NODES
      modifies this`numNodes, nodeIds
      ensures numNodes == old(numNodes) - 1
      ensures nodeIds[..numNodes] == Drop(old(nodeIds[..numNodes]), i)
    {
      ghost var ids := nodeIds[..numNodes];
      var j := i;
      while j < numNodes - 1
        invariant i <= j <= numNodes - 1 && numNodes == old(numNodes)
        invariant forall k :: 0 <= k < i || j <= k < numNodes ==> nodeIds[k] == old(nodeIds[k])
        invariant forall k :: i <= k < j ==> nodeIds[k] == old(nodeIds[k + 1])
      {
        nodeIds[j] := nodeIds[j + 1];
        j := j + 1;
      }
      numNodes := numNodes - 1;
      assert nodeIds[..numNodes] == ids[..i] + ids[i + 1..];
    }

    method RemoveIfExists(nodeId: uint8)
      requires Valid()
      modifies this, nodeIds
      ensures Valid()
      ensures View() == old(View()).Remove(nodeId)
    {
      ghost var q := View();
      var i := 0;
      while i < numNodes && nodeIds[i] != nodeId
        invariant 0 <= i <= numNodes && nodeId !in q.ids[..i]
      {
        assert q.ids[..i + 1] == q.ids[..i] + [nodeIds[i]];
        i := i + 1;
      }
      if i < numNodes {
        assert q.ids[i] == nodeId;
        WithoutAt(q.ids, nodeId, i);
        hide Drop, Without;
        ShiftDown(i);
        if lastIndex >= numNodes { lastIndex := 0; }
        assert View() == q.Remove(nodeId);
        RemoveKeepsRest(q, nodeId);
      } else {
        assert q.ids[..i] == q.ids;
      }
    }

    /** The ids come out in cyclic order; the source reads a stale slot when the
        queue is empty, so its callers test for that first. */
    method GetNext() returns (node: uint8)
      requires Valid() && numNodes > 0
      modifies this`lastIndex
      ensures Valid()
      ensures (node, View()) == old(View()).Next()
    {
      node := nodeIds[lastIndex];
      lastIndex := lastIndex + 1;
      if lastIndex >= numNodes { lastIndex := 0; }
    }
  }
}
