/** The transmit manager as the source keeps it: fixed arrays updated in place
    (src/txManager.c). Every method is proved to compute its function of TxSpec, to keep
    the invariant of TxInvariant, and to meet the assertions the source makes. */
module TxManagers {
  import opened Microbus
  import opened NodeQueues
  import opened TxSpec
  import opened TxInvariant
  import opened TxConservation

  method Filled(n: nat, value: uint8) returns (a: array<uint8>)
    ensures fresh(a) && a.Length == n && a[..] == seq(n, _ => value)
  {
    a := new uint8[n](_ => value);
  }

  method FreeEntries(memory: seq<Packet>) returns (a: array<Entry>)
    ensures fresh(a) && a.Length == |memory| && a[..] == Init(true, 0, memory).entries
  {
    a := new Entry[|memory|](i requires 0 <= i < |memory| => Entry(false, memory[i]));
  }

  /** rxPacketCheckAndUpdateSeqNum on the table of numbers last accepted. */
  method CheckAndUpdateSeqNum(rxSeqNum: array<uint8>, src: uint8, q: uint8) returns (ok: bool)
    requires src as int < rxSeqNum.Length
    modifies rxSeqNum
    ensures (rxSeqNum[src], ok) == Receive(old(rxSeqNum[src]), q)
    ensures rxSeqNum[..] == old(rxSeqNum[..])[src := rxSeqNum[src]]
  {
    var expected := if rxSeqNum[src] == NULL_SEQUENCE_NUM then 0 else IncrSeq(rxSeqNum[src]);
    ok := q == expected;
    if ok { rxSeqNum[src] := q; }
  }

  lemma FreeingEnds(t: TxState, fs: seq<Flow>, d: uint8, q: uint8, newStart: uint8, k: nat)
    requires StoreInv(t, fs) && d as int < |fs| && Freeing(fs[d], q, newStart, k)
    ensures k == 0 <==> q == newStart
    ensures newStart < MAX_SEQUENCE_NUM
  {
    if k > 0 { OldestNumber(t, fs, d, k, q, newStart); }
  }

  /** An acknowledgement in the window asks for the packets it covers to be freed. */
  lemma AckFrees(t: TxState, fs: seq<Flow>, d: uint8, ack: uint8)
    requires Inv(t, fs) && d as int < |fs| && ack != NULL_SEQUENCE_NUM && AckInRange(t.start[d], t.end[d], ack)
    ensures StoreInv(t, fs) && t.start[d] < MAX_SEQUENCE_NUM
    ensures Freeing(fs[d], t.start[d], IncrSeq(ack), Covered(t, d, ack))
  {
    CoveredInWindow(t, fs, d, ack);
    AckNumberFollows(fs[d].base + Covered(t, d, ack));
    assert WindowOk(t, fs[d], d);
  }

  class TxManager {
    const isMaster: bool
    const entries: array<Entry>
    const start: array<uint8>
    const end: array<uint8>
    const next: array<uint8>
    const pause: array<uint8>
    const rxSeqNum: array<uint8>
    /** The master's queue of destinations with unacknowledged packets; a node has none
        and leaves this one empty. */
    const active: NodeQueue
    var numStored: uint32
    var numFreed: uint32
    var pending: Option<nat>
    var lastTxQueueIndex: nat
    ghost var flows: seq<Flow>

    /** The arrays are separate and one destination's counters share an index. */
    ghost predicate Laid()
      reads this, active, active.nodeIds
    {
      && start.Length == end.Length == next.Length == pause.Length == rxSeqNum.Length
      && start != end && start != next && start != pause && start != rxSeqNum && start != active.nodeIds
      && end != next && end != pause && end != rxSeqNum && end != active.nodeIds
      && next != pause && next != rxSeqNum && next != active.nodeIds
      && pause != rxSeqNum && pause != active.nodeIds && rxSeqNum != active.nodeIds
      && active.Valid()
    }

    ghost function View(): (s: TxState)
      reads this, entries, start, end, next, pause, rxSeqNum, active, active.nodeIds
      requires Laid()
      ensures s.Shaped() && |s.start| == start.Length && |s.entries| == entries.Length
    {
      TxState(isMaster, entries[..], numStored, numFreed, pending, start[..], end[..], next[..], pause[..],
              rxSeqNum[..], active.View(), lastTxQueueIndex)
    }

    ghost predicate Valid()
      reads this, entries, start, end, next, pause, rxSeqNum, active, active.nodeIds
    {
      Laid() && Inv(View(), flows)
    }

    constructor (isMaster: bool, numDst: nat, memory: seq<Packet>)
      requires |memory| <= MAX_STORE && numDst <= MAX_NODES && (!isMaster ==> numDst == 1)
      ensures Valid() && View() == Init(isMaster, numDst, memory)
      ensures flows == seq(numDst, _ => EmptyFlow)
      ensures fresh(entries) && fresh(start) && fresh(end) && fresh(next) && fresh(pause) && fresh(rxSeqNum)
      ensures fresh(active) && fresh(active.nodeIds)
    {
      this.isMaster := isMaster;
      var es := FreeEntries(memory);
      var starts := Filled(numDst, 0);
      var ends := Filled(numDst, 0);
      var nexts := Filled(numDst, 0);
      var pauses := Filled(numDst, 0);
      var rxSeqNums := Filled(numDst, NULL_SEQUENCE_NUM);
      entries, start, end, next, pause, rxSeqNum := es, starts, ends, nexts, pauses, rxSeqNums;
      active := new NodeQueue();
      numStored, numFreed, pending, lastTxQueueIndex := 0, 0, None, 0;
      flows := seq(numDst, _ => EmptyFlow);
      new;
      hide Inv;
      InitEstablishesInv(isMaster, numDst, memory);
      assert View() == Init(isMaster, numDst, memory);
    }

    /** The source asserts that the previous allocation was submitted. */
    method Allocate() returns (ok: bool)
      requires Valid() && pending.None?
      modifies this`numStored, this`pending, entries
      ensures Laid() && (View(), ok) == TxSpec.Allocate(old(View()))
      ensures (isMaster && active.numNodes >= MAX_NODES) || Valid()
    {
      ghost var s := View();
      var i := 0;
      while i < entries.Length && entries[i].inUse
        invariant 0 <= i <= entries.Length
        invariant forall k :: 0 <= k < i ==> entries[k].inUse
      {
        i := i + 1;
      }
      assert i == LowestFree(s.entries);
      if !(isMaster && active.numNodes >= MAX_NODES) { AllocateKeepsInv(s, flows); }
      if i == entries.Length { return false; }
      entries[i] := entries[i].(inUse := true);
      numStored := Bump(numStored);
      assert entries[..] == s.entries[i := s.entries[i].(inUse := true)];
      if isMaster && active.numNodes >= MAX_NODES { return false; }
      pending := Some(i);
      return true;
    }

    /** `payload` is what the user wrote into the allocated entry. */
    method Submit(ttl: uint8, d: uint8, payload: Payload)
      requires Valid() && pending.Some? && d as int < start.Length
      requires isMaster ==> active.numNodes < MAX_NODES
      modifies this`pending, this`flows, entries, end, active, active.nodeIds
      ensures Laid() && View() == TxSpec.Submit(old(View()), ttl, d, payload)
      ensures (isMaster && ttl == 0) ||
        (Valid() && flows == old(flows[d := SubmittedFlow(flows[d], payload, pending.value)]))
    {
      ghost var s := View();
      if isMaster && ttl == 0 {
        pending := None;
        return;
      }
      SubmitKeepsInv(s, flows, ttl, d, payload);
      var i := pending.value;
      var q := end[d];
      var p := Packet(if isMaster then d else entries[i].packet.dstNodeId, q, payload);
      entries[i] := entries[i].(packet := p);
      end[d] := IncrSeq(end[d]);
      if isMaster && q == start[d] {
        var ok := active.Add(d);
        assert ok;
      }
      flows := flows[d := SubmittedFlow(flows[d], payload, i)];
      pending := None;
      assert View() == TxSpec.Submit(s, ttl, d, payload);
    }

    method FindPacketEntry(d: uint8, q: uint8) returns (i: nat)
      requires Laid()
      ensures i == Find(View(), d, q)
    {
      ghost var s := View();
      i := 0;
      while i < entries.Length
        && !(entries[i].inUse && (!isMaster || entries[i].packet.dstNodeId == d) && entries[i].packet.txSeqNum == q)
        invariant 0 <= i <= entries.Length
        invariant forall k :: 0 <= k < i ==> !s.Matches(k, d, q)
      {
        i := i + 1;
      }
      assert i < entries.Length ==> s.Matches(i, d, q);
    }

    /** The source asserts that the search succeeds. */
    method FreePacket(d: uint8, q: uint8)
      requires Laid() && Find(View(), d, q) < entries.Length
      modifies this`numFreed, entries
      ensures Laid()
      ensures View() == old(View()).(
        entries := ClearInUse(old(entries[..]), Find(old(View()), d, q)), numFreed := Bump(old(numFreed)))
    {
      var i := FindPacketEntry(d, q);
      assert i < entries.Length;
      entries[i] := entries[i].(inUse := false);
      numFreed := Bump(numFreed);
    }

    method GetNextTxPacketForNode(d: uint8) returns (r: Option<nat>)
      requires Valid() && d as int < start.Length
      modifies this`flows, next, pause
      ensures Valid() && (View(), r) == Poll(old(View()), d)
      ensures flows == old(flows[d := PolledFlow(flows[d], pause[d])])
    {
      ghost var s := View();
      PollBranches(s, flows, d);
      PollKeepsInv(s, flows, d);
      ghost var gs := flows[d := PolledFlow(flows[d], pause[d])];
      assert PolledFlow(flows[d], pause[d]) == flows[d] ==> gs == flows;
      if pause[d] > 0 { return None; }
      if start[d] == end[d] { return None; }
      NextInRange(s, flows, d);
      assert if end[d] >= start[d] then start[d] <= next[d] <= end[d] else next[d] >= start[d] || next[d] <= end[d];
      var windowEnd: uint8 := (start[d] + SLIDING_WINDOW_SIZE) % 256;
      if next[d] == end[d] || next[d] == windowEnd {
        pause[d] := 2;
        assert View() == Poll(s, d).0;
        flows := gs;
        return None;
      }
      var i := FindPacketEntry(d, next[d]);
      assert i < entries.Length;
      next[d] := IncrSeq(next[d]);
      assert View() == Poll(s, d).0;
      flows := gs;
      return Some(i);
    }

    /** The do-while loop of masterGetNextTxDataPacket. */
    method ScanActive(last: nat) returns (r: Option<nat>, i: nat)
      requires Valid() && isMaster && last < active.numNodes
      modifies this`flows, next, pause
      ensures Valid() && ActiveInRange(old(View())) && i < active.numNodes
      ensures (View(), r, i) == Scan(old(View()), last, last)
    {
      hide Inv, Poll, Scan;
      ghost var s := View();
      ActiveHasWindows(s, flows);
      i := last;
      ghost var t := s;
      while true
        invariant Valid() && i < active.numNodes && t == View()
        invariant t.active == s.active && t.start == s.start
        invariant Scan(t, i, last) == Scan(s, last, last)
        decreases StepsTo(NextIndex(i, active.numNodes), last, active.numNodes)
      {
        ghost var i0, t0 := i, t;
        i := i + 1;
        if i >= active.numNodes { i := 0; }
        r := GetNextTxPacketForNode(active.nodeIds[i]);
        t := View();
        ScanStep(t0, i0, last, t, r);
        if i == last || r.Some? { return; }
      }
    }

    method MasterGetNextTxDataPacket() returns (r: Option<nat>)
      requires Valid() && isMaster
      modifies this`flows, this`lastTxQueueIndex, next, pause
      ensures Valid() && ActiveInRange(old(View())) && (View(), r) == MasterGetNext(old(View()))
    {
      ActiveHasWindows(View(), flows);
      if active.numNodes == 0 { return None; }
      var last := lastTxQueueIndex;
      if last >= active.numNodes { last := active.numNodes - 1; }
      var i;
      r, i := ScanActive(last);
      QueueIndexKeepsInv(View(), flows, i);
      lastTxQueueIndex := i;
    }

    /** One turn of the loop of rxAckSeqNum; `k` packets are still to be freed. */
    method FreeNext(d: uint8, q: uint8, newStart: uint8, ghost t: TxState, ghost fs: seq<Flow>, ghost k: nat)
      returns (q1: uint8, ghost t2: TxState, ghost g: Flow)
      requires Laid() && t == View() && StoreInv(t, fs) && d as int < start.Length
      requires k > 0 && Freeing(fs[d], q, newStart, k)
      modifies this`numFreed, entries, next
      ensures Laid() && t2 == View() && StoreInv(t2, fs[d := g])
      ensures Freeing(g, q1, newStart, k - 1)
      ensures FreeUpTo(t, d, q, newStart).0 == FreeUpTo(t2, d, q1, newStart).0
      ensures FreeUpTo(t, d, q, newStart).1 == FreeUpTo(t2, d, q1, newStart).1 + 1
    {
      OldestNumber(t, fs, d, k, q, newStart);
      q1 := IncrSeq(q);
      t2, g := FreeUpToStep(t, fs, d, k, q, q1, newStart);
      FreePacket(d, q);
      if q == next[d] { next[d] := newStart; }
      assert View() == t2;
    }

    /** The loop of rxAckSeqNum. */
    method FreeWindow(d: uint8, newStart: uint8, ghost m: nat) returns (packetsFreed: nat)
      requires Laid() && StoreInv(View(), flows) && d as int < start.Length
      requires Freeing(flows[d], start[d], newStart, m)
      modifies this`numFreed, entries, next
      ensures Laid() && (View(), packetsFreed) == FreeUpTo(old(View()), d, old(start[d]), newStart)
    {
      assert |flows| == start.Length;
      hide StoreInv, Freeing, FreeUpTo, Queue.Valid, IncrSeq, Find, SeqDistance;
      ghost var fs, t := flows, View();
      ghost var k: nat := m;
      var q := start[d];
      FreeingEnds(t, fs, d, q, newStart, k);
      ghost var (last, total) := FreeUpTo(t, d, q, newStart);
      packetsFreed := 0;
      while q != newStart
        invariant Laid() && t == View() && StoreInv(t, fs) && |fs| == start.Length
        invariant Freeing(fs[d], q, newStart, k) && (k == 0 <==> q == newStart)
        invariant last == FreeUpTo(t, d, q, newStart).0 && total == FreeUpTo(t, d, q, newStart).1 + packetsFreed
        decreases k
      {
        ghost var g;
        q, t, g := FreeNext(d, q, newStart, t, fs, k);
        packetsFreed := packetsFreed + 1;
        fs, k := fs[d := g], k - 1;
        FreeingEnds(t, fs, d, q, newStart, k);
      }
      FreeUpToDone(t, d, q);
    }

    /** What rxAckSeqNum does with an acknowledgement in the window. */
    method TakeAck(d: uint8, ack: uint8) returns (packetsFreed: nat)
      requires Laid() && StoreInv(View(), flows) && d as int < start.Length && ack != NULL_SEQUENCE_NUM
      requires start[d] < MAX_SEQUENCE_NUM && AckInRange(start[d], end[d], ack)
      requires Freeing(flows[d], start[d], IncrSeq(ack), Covered(View(), d, ack))
      modifies this`numFreed, entries, start, next, pause, active, active.nodeIds
      ensures Laid() && (View(), packetsFreed) == Ack(old(View()), d, ack)
    {
      hide StoreInv, Freeing, FreeUpTo, Queue.Valid, Queue.Remove, Covered;
      ghost var s := View();
      var newStart := IncrSeq(ack);
      packetsFreed := FreeWindow(d, newStart, Covered(s, d, ack));
      ghost var t := View();
      start[d] := newStart;
      pause[d] := 0;
      assert View() == t.(start := t.start[d := newStart], pause := t.pause[d := 0]);
      if start[d] == end[d] && isMaster {
        active.RemoveIfExists(d);
      }
    }

    /** What it does with one outside the window. */
    method RefuseAck(d: uint8, ack: uint8)
      requires Laid() && d as int < start.Length && ack != NULL_SEQUENCE_NUM
      requires start[d] < MAX_SEQUENCE_NUM && !AckInRange(start[d], end[d], ack)
      modifies next, pause
      ensures Laid() && (View(), 0) == Ack(old(View()), d, ack)
    {
      ghost var s := View();
      if pause[d] > 0 {
        pause[d] := pause[d] - 1;
        if pause[d] == 0 { next[d] := start[d]; }
      }
      assert View() == s.(next := next[..], pause := pause[..]);
    }

    /** Whatever the 8-bit value, the windows stay sound; AckRefines says what a genuine
        acknowledgement does. */
    method RxAckSeqNum(d: uint8, ack: uint8) returns (packetsFreed: nat)
      requires Valid() && d as int < start.Length
      modifies this`numFreed, this`flows, entries, start, next, pause, active, active.nodeIds
      ensures Valid() && old(start[d]) < MAX_SEQUENCE_NUM
      ensures (View(), packetsFreed) == Ack(old(View()), d, ack)
      ensures flows == old(flows[d := AckOutcome(View(), flows[d], d, ack)])
    {
      assert |flows| == start.Length;
      ghost var s := View();
      AckKeepsInv(s, flows, d, ack);
      ghost var gs := flows[d := AckOutcome(s, flows[d], d, ack)];
      hide Inv, StoreInv, Freeing, Queue.Valid, AckOutcome;
      if ack == NULL_SEQUENCE_NUM {
        packetsFreed := 0;
      } else {
        hide Ack;
        var valid := if end[d] < start[d] then ack >= start[d] || ack < end[d] else start[d] <= ack < end[d];
        assert valid == AckInRange(s.start[d], s.end[d], ack);
        if valid {
          AckFrees(s, flows, d, ack);
          packetsFreed := TakeAck(d, ack);
        } else {
          RefuseAck(d, ack);
          packetsFreed := 0;
        }
      }
      flows := gs;
    }

    method RxPacketCheckAndUpdateSeqNum(src: uint8, q: uint8) returns (ok: bool)
      requires Valid() && src as int < start.Length
      modifies rxSeqNum
      ensures Valid()
      ensures (rxSeqNum[src], ok) == Receive(old(rxSeqNum[src]), q)
      ensures View() == old(View()).(rxSeqNum := old(rxSeqNum[..])[src := rxSeqNum[src]])
    {
      ghost var s := View();
      ok := CheckAndUpdateSeqNum(rxSeqNum, src, q);
      StoreFrame(s, flows, View(), flows);
    }

    /** The loop of masterTxManagerRemoveNode. */
    method FreeEntriesOf(d: uint8) returns (n: nat)
      modifies this`numFreed, entries
      ensures entries[..] == FreeNode(old(entries[..]), d) && n == CountNode(old(entries[..]), d)
      ensures numFreed == BumpBy(old(numFreed), n)
    {
      ghost var es := entries[..];
      n := 0;
      for i := 0 to entries.Length
        invariant n == CountNode(es[..i], d) && numFreed == BumpBy(old(numFreed), n)
        invariant forall k :: i <= k < entries.Length ==> entries[k] == es[k]
        invariant forall k :: 0 <= k < i ==>
          entries[k] == if es[k].inUse && es[k].packet.dstNodeId == d then es[k].(inUse := false) else es[k]
      {
        assert es[..i + 1][..i] == es[..i];
        if entries[i].packet.dstNodeId == d && entries[i].inUse {
          entries[i] := entries[i].(inUse := false);
          BumpNext(old(numFreed), n);
          numFreed := Bump(numFreed);
          n := n + 1;
        }
      }
      assert es[..entries.Length] == es;
    }

    method RemoveNode(d: uint8) returns (numTxPacketsFreed: nat)
      requires Valid() && isMaster && d as int < start.Length
      modifies this`numFreed, this`flows, entries, start, end, next, pause, rxSeqNum, active, active.nodeIds
      ensures Laid() && (View(), numTxPacketsFreed) == TxSpec.RemoveNode(old(View()), d)
      ensures flows == old(flows)[d := EmptyFlow]
      ensures Valid() <==> RemovalSafe(old(View()), d)
    {
      assert |flows| == start.Length;
      hide Inv, RemovalSafe, Queue.Valid, Queue.Remove, FreeNode, CountNode;
      ghost var s := View();
      RemoveKeepsInvIff(s, flows, d);
      ghost var gs := flows[d := EmptyFlow];
      active.RemoveIfExists(d);
      numTxPacketsFreed := FreeEntriesOf(d);
      ResetCounters(d);
      flows := gs;
    }

    method ResetCounters(d: uint8)
      requires Laid() && d as int < start.Length
      modifies start, end, next, pause, rxSeqNum
      ensures start[..] == old(start[..])[d := 0] && end[..] == old(end[..])[d := 0] && next[..] == old(next[..])[d := 0]
      ensures pause[..] == old(pause[..])[d := 0] && rxSeqNum[..] == old(rxSeqNum[..])[d := NULL_SEQUENCE_NUM]
    {
      start[d], end[d], next[d], pause[d], rxSeqNum[d] := 0, 0, 0, 0, NULL_SEQUENCE_NUM;
    }
  }
}
