/** Initialisation and node removal keep the invariant, and the store loses no entry. */
module TxConservation {
  import opened Microbus
  import opened NodeQueues
  import opened TxSpec
  import opened TxInvariant

  lemma InitEstablishesInv(isMaster: bool, numDst: nat, memory: seq<Packet>, windowWrap: nat := WINDOW_WRAP)
    requires windowWrap == WINDOW_WRAP || windowWrap == MAX_SEQUENCE_NUM
    requires |memory| <= MAX_STORE && numDst <= MAX_NODES && (!isMaster ==> numDst == 1)
    ensures Inv(Init(isMaster, numDst, memory, windowWrap), seq(numDst, _ => EmptyFlow))
  {
  }

  // ---------- removal ----------

  /** Removing a node while an entry is allocated endangers the store in two ways: the
      allocated entry may carry the node's old header and is then freed under the user's
      hands, or a freed entry below it keeps the number 0 that the node's next packet
      will get. */
  predicate RemovalSafe(s: TxState, d: uint8) {
    s.pending.Some? && s.pending.value < |s.entries| ==>
      && s.entries[s.pending.value].packet.dstNodeId != d
      && forall i :: 0 <= i < s.pending.value ==>
           !(s.entries[i].packet.dstNodeId == d && s.entries[i].packet.txSeqNum == 0)
  }

  lemma RemoveKeepsFlow(s: TxState, fs: seq<Flow>, d: uint8, e: nat)
    requires Inv(s, fs) && s.isMaster && d as int < |fs| && e < |fs|
    ensures FlowStored(RemoveNode(s, d).0, fs[d := EmptyFlow][e], e)
    ensures WindowOk(RemoveNode(s, d).0, fs[d := EmptyFlow][e], e)
  {
    var t, gs := RemoveNode(s, d).0, fs[d := EmptyFlow];
    assert FlowStored(s, fs[e], e) && WindowOk(s, fs[e], e);
    forall k | 0 <= k < |gs[e].slots| ensures SlotHolds(t, gs[e], e, k) {
      assert SlotHolds(s, fs[e], e, k);
    }
  }

  /** Removal empties one node's window, leaves every other window and its packets as they
      were, and keeps the store's invariant exactly when it is safe. */
  lemma RemoveKeepsInvIff(s: TxState, fs: seq<Flow>, d: uint8)
    requires Inv(s, fs) && s.isMaster && d as int < |fs|
    ensures Inv(RemoveNode(s, d).0, fs[d := EmptyFlow]) <==> RemovalSafe(s, d)
  {
    var t, gs := RemoveNode(s, d).0, fs[d := EmptyFlow];
    if RemovalSafe(s, d) {
      forall e | 0 <= e < |gs| ensures FlowStored(t, gs[e], e) && WindowOk(t, gs[e], e) {
        RemoveKeepsFlow(s, fs, d, e);
      }
      forall i | 0 <= i < |t.entries| && Submitted(t, i) ensures Owned(t, gs, i) {
        assert Submitted(s, i) && Owned(s, fs, i);
      }
      forall i, j | 0 <= i < j < |t.entries| && Submitted(t, j) ensures !SameKey(t, i, j) {
        assert Submitted(s, j) && !SameKey(s, i, j);
      }
      RemoveKeepsRest(s.active, d);
    } else {
      var a := s.pending.value;
      if s.entries[a].packet.dstNodeId == d {
        assert !t.entries[a].inUse;
      } else {
        var i :| 0 <= i < a && s.entries[i].packet.dstNodeId == d && s.entries[i].packet.txSeqNum == 0;
        assert t.DstOf(i) == d && t.entries[i].packet.txSeqNum == t.end[d];
      }
      assert !PendingFresh(t);
    }
  }

  /** What an unsafe removal leads to, on a zeroed store of two entries: the next poll but
      one hands out a packet the user has not submitted in place of the one he has. */
  lemma UnsafeRemovalSendsStalePacket(first: Payload, second: Payload)
    requires first != second
    ensures var s1 := Submit(Allocate(Init(true, 2, [Packet(0, 0, []), Packet(0, 0, [])])).0, 1, 1, first);
      var s2 := RemoveNode(Allocate(s1).0, 1).0;
      var s3 := Submit(s2, 1, 1, second);
      var s4 := Allocate(s3).0;
      && Poll(s3, 1).1 == Some(1) && s3.entries[1].packet.payload == second
      && Poll(s4, 1).1 == Some(0) && s4.entries[0].packet.payload == first && s4.pending == Some(0)
  {
    var s0 := Init(true, 2, [Packet(0, 0, []), Packet(0, 0, [])]);
    assert LowestFree(s0.entries) == 0;
    var s1 := Submit(Allocate(s0).0, 1, 1, first);
    assert s1.entries == [Entry(true, Packet(1, 0, first)), Entry(false, Packet(0, 0, []))];
    assert LowestFree(s1.entries) == 1;
    var s2 := RemoveNode(Allocate(s1).0, 1).0;
    assert s2.entries == [Entry(false, Packet(1, 0, first)), Entry(true, Packet(0, 0, []))];
    var s3 := Submit(s2, 1, 1, second);
    assert s3.entries == [Entry(false, Packet(1, 0, first)), Entry(true, Packet(1, 0, second))];
    assert Find(s3, 1, 0) == 1;
    assert LowestFree(s3.entries) == 0;
    assert Find(Allocate(s3).0, 1, 0) == 0;
  }

  // ---------- conservation ----------

  function InUse(es: seq<Entry>): (r: set<nat>) {
    set i: nat | i < |es| && es[i].inUse
  }

  /** The two 32-bit counters differ by the number of entries in use. */
  ghost predicate Balanced(s: TxState) {
    (s.numStored - s.numFreed - |InUse(s.entries)|) % 0x1_0000_0000 == 0
  }

  lemma ClearInUseCount(es: seq<Entry>, i: nat)
    requires i < |es| && es[i].inUse
    ensures |InUse(ClearInUse(es, i))| == |InUse(es)| - 1
  {
    assert InUse(ClearInUse(es, i)) == InUse(es) - {i};
  }

  lemma AllocateKeepsBalance(s: TxState)
    requires Balanced(s)
    ensures Balanced(Allocate(s).0)
  {
    var a := LowestFree(s.entries);
    if a < |s.entries| {
      assert InUse(Allocate(s).0.entries) == InUse(s.entries) + {a};
    }
  }

  lemma SubmitKeepsBalance(s: TxState, ttl: uint8, d: uint8, payload: Payload)
    requires s.Shaped() && d as int < |s.start| && s.pending.Some? && s.pending.value < |s.entries|
    requires Balanced(s)
    ensures Balanced(Submit(s, ttl, d, payload))
  {
    assert InUse(Submit(s, ttl, d, payload).entries) == InUse(s.entries);
  }

  lemma {:induction false} FreeUpToKeepsBalance(s: TxState, d: uint8, q: uint8, stop: uint8)
    requires s.Shaped() && d as int < |s.start| && q < MAX_SEQUENCE_NUM && stop < MAX_SEQUENCE_NUM
    requires Balanced(s)
    ensures Balanced(FreeUpTo(s, d, q, stop).0)
    decreases SeqDistance(q, stop)
  {
    if q != stop {
      SeqDistanceStep(q, stop);
      var i := Find(s, d, q);
      var s1 := if i == |s.entries| then s
                else s.(entries := ClearInUse(s.entries, i), numFreed := Bump(s.numFreed));
      if i < |s.entries| { ClearInUseCount(s.entries, i); }
      var s2 := if q == s1.next[d] then s1.(next := s1.next[d := stop]) else s1;
      FreeUpToKeepsBalance(s2, d, IncrSeq(q), stop);
    }
  }

  lemma AckKeepsBalance(s: TxState, d: uint8, ack: uint8)
    requires s.Shaped() && d as int < |s.start| && s.start[d] < MAX_SEQUENCE_NUM
    requires Balanced(s)
    ensures Balanced(Ack(s, d, ack).0)
  {
    if ack != NULL_SEQUENCE_NUM && AckInRange(s.start[d], s.end[d], ack) {
      FreeUpToKeepsBalance(s, d, s.start[d], IncrSeq(ack));
    }
  }

  lemma {:induction false} FreeNodeCount(es: seq<Entry>, d: uint8)
    ensures |InUse(FreeNode(es, d))| == |InUse(es)| - CountNode(es, d)
  {
    if es != [] {
      var n := |es| - 1;
      FreeNodeCount(es[..n], d);
      LastInUse(es);
      LastInUse(FreeNode(es, d));
      assert FreeNode(es, d)[..n] == FreeNode(es[..n], d);
    }
  }

  lemma LastInUse(es: seq<Entry>)
    requires es != []
    ensures |InUse(es)| == |InUse(es[..|es| - 1])| + if es[|es| - 1].inUse then 1 else 0
  {
    var n := |es| - 1;
    assert InUse(es) == InUse(es[..n]) + if es[n].inUse then {n} else {};
  }

  lemma RemoveKeepsBalance(s: TxState, d: uint8)
    requires s.Shaped() && d as int < |s.start| && Balanced(s)
    ensures Balanced(RemoveNode(s, d).0)
  {
    FreeNodeCount(s.entries, d);
  }

  /** The count a removal returns is that of the entries it freed. */
  lemma RemovalCount(s: TxState, d: uint8)
    requires s.Shaped() && d as int < |s.start|
    ensures var (t, n) := RemoveNode(s, d);
      && n == |InUse(s.entries)| - |InUse(t.entries)|
      && forall i :: 0 <= i < |s.entries| ==>
           (i in InUse(t.entries) <==> i in InUse(s.entries) && s.entries[i].packet.dstNodeId != d)
  {
    FreeNodeCount(s.entries, d);
  }

  // ---------- the windows' share ----------

  function Outstanding(fs: seq<Flow>): nat {
    if fs == [] then 0 else Outstanding(fs[..|fs| - 1]) + |fs[|fs| - 1].slots|
  }

  function SubmittedBelow(s: TxState, m: nat): set<nat> {
    set i: nat | i < |s.entries| && Submitted(s, i) && s.DstOf(i) as int < m
  }

  /** A destination's submitted entries are those its window names, each once. */
  lemma WindowEntries(s: TxState, fs: seq<Flow>, d: nat)
    requires StoreInv(s, fs) && d < |fs|
    ensures |Elements(fs[d].slots)| == |fs[d].slots|
    ensures forall i: nat :: i in Elements(fs[d].slots) <==>
      i < |s.entries| && Submitted(s, i) && s.DstOf(i) as int == d
  {
    var f := fs[d];
    assert FlowStored(s, f, d);
    SlotsDistinct(s, f, d);
    DistinctCardinality(f.slots);
    forall i: nat | i in f.slots ensures i < |s.entries| && Submitted(s, i) && s.DstOf(i) as int == d {
      var k :| 0 <= k < |f.slots| && f.slots[k] == i;
      assert SlotHolds(s, f, d, k);
    }
    forall i: nat | i < |s.entries| && Submitted(s, i) && s.DstOf(i) as int == d ensures i in f.slots {
      assert Owned(s, fs, i);
    }
  }

  /** The submitted entries of the first m destinations are as many as their windows hold. */
  lemma {:induction false} SubmittedCount(s: TxState, fs: seq<Flow>, m: nat)
    requires StoreInv(s, fs) && m <= |fs|
    ensures |SubmittedBelow(s, m)| == Outstanding(fs[..m])
  {
    if m > 0 {
      var mine := Elements(fs[m - 1].slots);
      SubmittedCount(s, fs, m - 1);
      assert fs[..m][..m - 1] == fs[..m - 1];
      WindowEntries(s, fs, m - 1);
      assert SubmittedBelow(s, m) == SubmittedBelow(s, m - 1) + mine;
      assert SubmittedBelow(s, m - 1) !! mine;
    } else {
      assert SubmittedBelow(s, m) == {};
    }
  }

  /** Conservation: the entries in use are those of the windows and the allocated one. */
  lemma InUseIsOutstanding(s: TxState, fs: seq<Flow>)
    requires StoreInv(s, fs)
    ensures |InUse(s.entries)| == Outstanding(fs) + if s.pending.Some? then 1 else 0
  {
    SubmittedCount(s, fs, |fs|);
    assert fs[..|fs|] == fs;
    forall i: nat | i < |s.entries| && Submitted(s, i) ensures s.DstOf(i) as int < |fs| {
      assert Owned(s, fs, i);
    }
    assert InUse(s.entries) == SubmittedBelow(s, |fs|) + if s.pending.Some? then {s.pending.value} else {};
  }

  /** Submitting to a destination that has just been removed forgets the allocated entry
      but leaves it in use: the count of entries agrees with the windows afterwards
      exactly when the destination was alive. */
  lemma SubmitConservesIffAlive(s: TxState, fs: seq<Flow>, ttl: uint8, d: uint8, payload: Payload)
    requires Inv(s, fs) && s.isMaster && d as int < |fs| && s.pending.Some? && |s.active.ids| < MAX_NODES
    ensures var gs := if ttl > 0 then fs[d := SubmittedFlow(fs[d], payload, s.pending.value)] else fs;
      |InUse(Submit(s, ttl, d, payload).entries)| == Outstanding(gs) <==> ttl > 0
  {
    InUseIsOutstanding(s, fs);
    if ttl > 0 {
      SubmitKeepsInv(s, fs, ttl, d, payload);
      InUseIsOutstanding(Submit(s, ttl, d, payload), fs[d := SubmittedFlow(fs[d], payload, s.pending.value)]);
    }
  }

  // ---------- what is expected of each sender ----------

  /** Packet 0, and no other, starts a new exchange with every sender. */
  lemma InitExpectsFirst(isMaster: bool, numDst: nat, memory: seq<Packet>, d: nat, q: uint8)
    requires d < numDst
    ensures Receive(Init(isMaster, numDst, memory).rxSeqNum[d], q).1 <==> q == 0
  {
  }

  /** A removed node starts over, and nobody else does. */
  lemma RemovalExpectsFirst(s: TxState, d: uint8, e: nat, q: uint8)
    requires s.Shaped() && d as int < |s.start| && e < |s.start|
    ensures var t := RemoveNode(s, d).0;
      && |t.rxSeqNum| == |s.rxSeqNum|
      && if e == d as int then Receive(t.rxSeqNum[e], q).1 <==> q == 0
         else Receive(t.rxSeqNum[e], q) == Receive(s.rxSeqNum[e], q)
  {
  }

  /** Sending has no effect on what is expected. */
  lemma SendingKeepsNumbers(s: TxState, d: uint8, ttl: uint8, payload: Payload, ack: uint8)
    requires s.Shaped() && d as int < |s.start| && s.start[d] < MAX_SEQUENCE_NUM
    ensures Allocate(s).0.rxSeqNum == s.rxSeqNum && Poll(s, d).0.rxSeqNum == s.rxSeqNum
    ensures Ack(s, d, ack).0.rxSeqNum == s.rxSeqNum
    ensures s.pending.Some? && s.pending.value < |s.entries| ==> Submit(s, ttl, d, payload).rxSeqNum == s.rxSeqNum
  {
    hide FreeUpTo;
    if ack != NULL_SEQUENCE_NUM && AckInRange(s.start[d], s.end[d], ack) {
      FreeUpToFrame(s, d, s.start[d], IncrSeq(ack));
    }
  }

  /** A submit always ends the allocation, whatever became of the destination. */
  lemma SubmitEndsAllocation(s: TxState, ttl: uint8, d: uint8, payload: Payload)
    requires s.Shaped() && d as int < |s.start| && s.pending.Some? && s.pending.value < |s.entries|
    ensures Submit(s, ttl, d, payload).pending.None?
    ensures s.isMaster && ttl == 0 ==> InUse(Submit(s, ttl, d, payload).entries) == InUse(s.entries)
  {
  }

  /** The master's allocation fails when its queue of destinations is full, and then the
      entry it found is in use and held by nobody. */
  lemma FullQueueLosesEntry(s: TxState)
    requires s.isMaster && s.pending.None? && |s.active.ids| >= MAX_NODES
    ensures !Allocate(s).1 && Allocate(s).0.pending.None?
    ensures |InUse(Allocate(s).0.entries)| ==
      |InUse(s.entries)| + if exists i :: 0 <= i < |s.entries| && !s.entries[i].inUse then 1 else 0
  {
    var a := LowestFree(s.entries);
    if a < |s.entries| {
      assert InUse(Allocate(s).0.entries) == InUse(s.entries) + {a};
    }
  }
}
