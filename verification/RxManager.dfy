/** The receive store as the source keeps it (src/rxManager.c), and the receive paths of the
    master (src/masterRx.c) and of a node (src/node.c) around it. */
module RxManagers {
  import opened Microbus
  import opened RxSpec
  import opened RxStore
  import RxPath

  class RxManager {
    const inUse: array<bool>
    const packets: array<RxPacket>
    const queue: array<Option<nat>>
    var start: nat
    var end: nat

    ghost function View(): Store
      reads this, inUse, packets, queue
    {
      Store(inUse[..], packets[..], queue[..], start, end)
    }

    ghost predicate Valid()
      reads this, inUse, packets, queue
    {
      View().Shaped()
    }

    constructor (maxRxPacketEntries: nat)
      requires 2 < maxRxPacketEntries <= 255
      ensures Valid() && fresh(inUse) && fresh(packets) && fresh(queue)
      ensures View() == RxPath.InitPath(maxRxPacketEntries, 0).rx.(inUse := seq(maxRxPacketEntries, _ => false))
    {
      inUse := new bool[maxRxPacketEntries](_ => false);
      packets := new RxPacket[maxRxPacketEntries](_ => ZeroPacket);
      queue := new Option<nat>[maxRxPacketEntries](_ => None);
      start, end := 0, 0;
    }

    method FindFreeRxPacket() returns (r: Option<nat>)
      requires Valid()
      modifies inUse
      ensures Valid() && (r, View()) == FindFree(old(View()))
    {
      if start == IncrAndWrap(end, 1, queue.Length) { return None; }
      var i := 0;
      while i < inUse.Length && inUse[i]
        invariant i <= inUse.Length && forall k :: 0 <= k < i ==> inUse[k]
      {
        i := i + 1;
      }
      if i == inUse.Length { return None; }
      inUse[i] := true;
      return Some(i);
    }

    /** The source asserts that the queue is not full. */
    method AddRxDataPacket(e: nat)
      requires Valid() && e < inUse.Length && !View().Full()
      modifies this`end, queue
      ensures Valid() && View() == Append(old(View()), e)
    {
      queue[end] := Some(e);
      end := IncrAndWrap(end, 1, queue.Length);
    }

    /** The index wraps after the test against the end, so the loop is left only under
        RemovalStopsIff. */
    method RemoveAllPackets(src: uint8)
      requires Valid() && Stops(View())
      modifies inUse, queue
      ensures Valid() && View() == RemoveAll(old(View()), src)
    {
      hide RemoveAll, Removing, Store.Line, Store.InRing;
      ghost var s := View();
      ghost var n := 0;
      var i := start;
      RemovingStarts(s, src);
      RemovingEnds(s, src);
      while i != end
        invariant n <= |s.Line()| && View() == Removing(s, src, n)
        invariant start == s.start && end == s.end && queue.Length == s.Size()
        invariant (i == s.start + n && i <= if s.start <= s.end then s.end else s.Size())
          || (s.start > s.end && i == s.start + n - s.Size() && 0 < i <= s.end)
        decreases |s.Line()| - n
      {
        if i >= queue.Length { i := 0; }
        RemovingStep(s, src, n);
        assert i == IncrAndWrap(s.start, n, s.Size());
        if queue[i].Some? {
          if packets[queue[i].value].srcNodeId == src {
            inUse[queue[i].value] := false;
            queue[i] := None;
          }
        }
        assert View() == Removing(s, src, n + 1);
        i := i + 1;
        n := n + 1;
      }
      assert n == |s.Line()|;
    }

    /** At most one slot short of the buffer is dropped, so the loop always returns: the
        assertion behind it cannot be reached. */
    method PeekNextRxDataPacket() returns (r: Option<nat>)
      requires Valid()
      modifies this`start
      ensures Valid() && View() == Skip(old(View()))
      ensures r == if View().Line() == [] then None else View().Line()[0]
    {
      hide Store.Line, Store.InRing;
      ghost var s := View();
      for i := 0 to queue.Length
        invariant Valid() && Skip(View()) == Skip(s)
        invariant |View().Line()| + i < queue.Length
      {
        LineHead(View());
        if start == end { return None; }
        if queue[start].Some? { return queue[start]; }
        AdvanceLine(View());
        start := IncrAndWrap(start, 1, queue.Length);
      }
      assert false;
    }

    /** Called after a peek that found a packet. */
    method PopNextDataPacket()
      requires Valid() && View().Line() != [] && View().Line()[0].Some?
      modifies this`start, inUse
      ensures Valid() && View() == Pop(old(View()))
    {
      inUse[queue[start].value] := false;
      start := IncrAndWrap(start, 1, queue.Length);
    }
  }
}
