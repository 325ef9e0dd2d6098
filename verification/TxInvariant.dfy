/** The 8-bit windows over one shared packet store refine unbounded queues, one per
    destination. A Flow is such a queue: everything submitted so far, how much of it has
    been acknowledged, what is sent next, and which entry holds each outstanding packet. */
module TxInvariant {
  import opened Microbus
  import opened NodeQueues
  import opened TxSpec

  const MAX_STORE := 254

  datatype Flow = Flow(sent: seq<Payload>, base: nat, next: nat, slots: seq<nat>)

  const EmptyFlow := Flow([], 0, 0, [])

  // ---------- the invariant ----------

  /** The flow's k-th outstanding packet sits, submitted and unaltered, in its entry. */
  ghost predicate SlotHolds(s: TxState, f: Flow, d: nat, k: nat)
    requires k < |f.slots|
  {
    && f.slots[k] < |s.entries|
    && s.pending != Some(f.slots[k])
    && s.entries[f.slots[k]].inUse
    && s.DstOf(f.slots[k]) as int == d
    && s.entries[f.slots[k]].packet.txSeqNum == (f.base + k) % MAX_SEQUENCE_NUM
    && f.base + k < |f.sent|
    && s.entries[f.slots[k]].packet.payload == f.sent[f.base + k]
  }

  ghost predicate FlowStored(s: TxState, f: Flow, d: nat)
    requires s.Shaped() && d < |s.start|
  {
    && f.base <= f.next <= |f.sent|
    && |f.slots| == |f.sent| - f.base
    && |f.slots| <= MAX_STORE
    && s.end[d] == |f.sent| % MAX_SEQUENCE_NUM
    && s.next[d] == f.next % MAX_SEQUENCE_NUM
    && forall k :: 0 <= k < |f.slots| ==> SlotHolds(s, f, d, k)
  }

  predicate Submitted(s: TxState, i: nat)
    requires i < |s.entries|
  {
    s.entries[i].inUse && s.pending != Some(i)
  }

  predicate SameKey(s: TxState, i: nat, j: nat)
    requires i < |s.entries| && j < |s.entries|
  {
    s.DstOf(i) == s.DstOf(j) && s.entries[i].packet.txSeqNum == s.entries[j].packet.txSeqNum
  }

  /** Every submitted entry belongs to its destination's window. */
  ghost predicate Owned(s: TxState, fs: seq<Flow>, i: nat)
    requires i < |s.entries|
  {
    s.DstOf(i) as int < |fs| && i in fs[s.DstOf(i)].slots
  }

  /** No entry below a submitted one, in use or stale, carries the same header: an
      ascending search cannot stop early. */
  ghost predicate HeadersOrdered(s: TxState) {
    forall i, j :: 0 <= i < j < |s.entries| && Submitted(s, j) ==> !SameKey(s, i, j)
  }

  /** No entry below the allocated one carries the header that entry may be given. */
  ghost predicate PendingFresh(s: TxState)
    requires s.Shaped()
  {
    s.pending.Some? ==>
      && s.pending.value < |s.entries|
      && s.entries[s.pending.value].inUse
      && forall i :: 0 <= i < s.pending.value && s.DstOf(i) as int < |s.end| ==>
           s.entries[i].packet.txSeqNum != s.end[s.DstOf(i)]
  }

  ghost predicate StoreInv(s: TxState, fs: seq<Flow>) {
    && s.Shaped() && |fs| == |s.start| && |s.entries| <= MAX_STORE
    && (forall d :: 0 <= d < |fs| ==> FlowStored(s, fs[d], d))
    && (forall i :: 0 <= i < |s.entries| && Submitted(s, i) ==> Owned(s, fs, i))
    && HeadersOrdered(s)
    && PendingFresh(s)
  }

  ghost predicate WindowOk(s: TxState, f: Flow, d: nat)
    requires s.Shaped() && d < |s.start|
  {
    && s.start[d] == f.base % MAX_SEQUENCE_NUM
    && s.pause[d] <= 2
    && (s.pause[d] > 0 ==> f.next > f.base)
  }

  /** The queue of active destinations lists exactly those with unacknowledged packets. */
  ghost predicate ActiveOk(s: TxState, fs: seq<Flow>) {
    s.isMaster ==>
      && s.active.Valid()
      && (forall x :: x in s.active.ids ==> x as int < |fs|)
      && (forall d: uint8 :: d as int < |fs| ==> (d in s.active.ids <==> fs[d].base < |fs[d].sent|))
  }

  ghost predicate Inv(s: TxState, fs: seq<Flow>) {
    && StoreInv(s, fs)
    && (forall d :: 0 <= d < |fs| ==> WindowOk(s, fs[d], d))
    && ActiveOk(s, fs)
    && (!s.isMaster ==> |fs| == 1)
    && (s.windowWrap == WINDOW_WRAP || s.windowWrap == MAX_SEQUENCE_NUM)
  }

  // ---------- consequences ----------

  lemma ActiveHasWindows(s: TxState, fs: seq<Flow>)
    requires Inv(s, fs) && s.isMaster
    ensures ActiveInRange(s)
  {
    forall k | 0 <= k < |s.active.ids| ensures s.active.ids[k] as int < |s.start| {
      assert s.active.ids[k] in s.active.ids;
    }
  }

  /** Store/window agreement: the search for a number in the window returns the entry of
      that window position, whatever stale or unsubmitted headers the store still holds. */
  lemma FindsSlot(s: TxState, fs: seq<Flow>, d: uint8, k: nat)
    requires StoreInv(s, fs) && d as int < |fs| && k < |fs[d].slots|
    ensures Find(s, d, (fs[d].base + k) % MAX_SEQUENCE_NUM) == fs[d].slots[k]
  {
    assert SlotHolds(s, fs[d], d, k);
    var r := Find(s, d, (fs[d].base + k) % MAX_SEQUENCE_NUM);
    var j := fs[d].slots[k];
    assert s.Matches(j, d, (fs[d].base + k) % MAX_SEQUENCE_NUM);
    if r < j {
      assert Submitted(s, j) && SameKey(s, r, j);
    }
  }

  /** Exactly one submitted entry carries a given number of the window. */
  lemma SlotIsUnique(s: TxState, fs: seq<Flow>, i: nat, d: nat, k: nat)
    requires StoreInv(s, fs) && d < |fs| && k < |fs[d].slots|
    requires i < |s.entries| && Submitted(s, i) && s.DstOf(i) as int == d
    requires s.entries[i].packet.txSeqNum == (fs[d].base + k) % MAX_SEQUENCE_NUM
    ensures i == fs[d].slots[k]
  {
    assert SlotHolds(s, fs[d], d, k);
    var j := fs[d].slots[k];
    assert SameKey(s, i, j) && SameKey(s, j, i);
  }

  lemma SlotsDistinct(s: TxState, f: Flow, d: nat)
    requires s.Shaped() && d < |s.start| && FlowStored(s, f, d)
    ensures Distinct(f.slots)
  {
    forall i, j | 0 <= i < j < |f.slots| ensures f.slots[i] != f.slots[j] {
      assert SlotHolds(s, f, d, i) && SlotHolds(s, f, d, j);
      if f.slots[i] == f.slots[j] { SameResidue(f.base + i, f.base + j); }
    }
  }

  /** The store's invariant survives any change of windows, as long as each `next` stays
      within its queue. */
  lemma StoreFrame(s: TxState, fs: seq<Flow>, t: TxState, gs: seq<Flow>)
    requires StoreInv(s, fs) && t.Shaped() && |t.start| == |s.start| && |gs| == |fs|
    requires t.isMaster == s.isMaster && t.entries == s.entries && t.pending == s.pending && t.end == s.end
    requires forall e :: 0 <= e < |gs| ==>
      && gs[e] == fs[e].(next := gs[e].next)
      && gs[e].base <= gs[e].next <= |gs[e].sent|
      && t.next[e] == gs[e].next % MAX_SEQUENCE_NUM
    ensures StoreInv(t, gs)
  {
    forall e | 0 <= e < |gs| ensures FlowStored(t, gs[e], e) {
      assert FlowStored(s, fs[e], e);
      forall k | 0 <= k < |gs[e].slots| ensures SlotHolds(t, gs[e], e, k) {
        assert SlotHolds(s, fs[e], e, k);
      }
    }
    forall i | 0 <= i < |t.entries| && Submitted(t, i) ensures Owned(t, gs, i) {
      assert Submitted(s, i) && Owned(s, fs, i);
    }
    forall i, j | 0 <= i < j < |t.entries| && Submitted(t, j) ensures !SameKey(t, i, j) {
      assert Submitted(s, j) && !SameKey(s, i, j);
    }
  }

  lemma QueueIndexKeepsInv(s: TxState, fs: seq<Flow>, i: nat)
    requires Inv(s, fs)
    ensures Inv(s.(lastTxQueueIndex := i), fs)
  {
    var t := s.(lastTxQueueIndex := i);
    forall e | 0 <= e < |fs|
      ensures fs[e].base <= fs[e].next <= |fs[e].sent|
      ensures t.next[e] == fs[e].next % MAX_SEQUENCE_NUM && WindowOk(t, fs[e], e)
    {
      assert FlowStored(s, fs[e], e) && WindowOk(s, fs[e], e);
    }
    StoreFrame(s, fs, t, fs);
  }

  /** Why a store holds at most 254 packets: with 255 of them for one destination its window
      would look empty. */
  lemma WindowLooksEmptyIff(base: nat, outstanding: nat)
    requires outstanding <= MAX_SEQUENCE_NUM
    ensures (base + outstanding) % MAX_SEQUENCE_NUM == base % MAX_SEQUENCE_NUM
            <==> outstanding == 0 || outstanding == MAX_SEQUENCE_NUM
  {
    if outstanding < MAX_SEQUENCE_NUM { ResidueAfter(base, outstanding); }
  }

  // ---------- allocation and submission ----------

  lemma AllocateKeepsInv(s: TxState, fs: seq<Flow>)
    requires Inv(s, fs) && s.pending.None?
    requires s.isMaster ==> |s.active.ids| < MAX_NODES
    ensures Inv(Allocate(s).0, fs)
    ensures Allocate(s).1 <==> exists i :: 0 <= i < |s.entries| && !s.entries[i].inUse
  {
    var a := LowestFree(s.entries);
    if a < |s.entries| {
      var t := Allocate(s).0;
      forall i | 0 <= i < a && t.DstOf(i) as int < |t.end|
        ensures t.entries[i].packet.txSeqNum != t.end[t.DstOf(i)]
      {
        assert Submitted(s, i) && Owned(s, fs, i);
        var f := fs[s.DstOf(i)];
        var k :| 0 <= k < |f.slots| && f.slots[k] == i;
        assert SlotHolds(s, f, s.DstOf(i), k);
        if t.entries[i].packet.txSeqNum == t.end[t.DstOf(i)] { SameResidue(f.base + k, |f.sent|); }
      }
      forall d | 0 <= d < |fs| ensures FlowStored(t, fs[d], d) && WindowOk(t, fs[d], d) {
        assert FlowStored(s, fs[d], d) && WindowOk(s, fs[d], d);
        forall k | 0 <= k < |fs[d].slots| ensures SlotHolds(t, fs[d], d, k) {
          assert SlotHolds(s, fs[d], d, k);
        }
      }
      forall i | 0 <= i < |t.entries| && Submitted(t, i) ensures Owned(t, fs, i) {
        assert Submitted(s, i) && Owned(s, fs, i);
      }
      forall i, j | 0 <= i < j < |t.entries| && Submitted(t, j) ensures !SameKey(t, i, j) {
        assert Submitted(s, j) && !SameKey(s, i, j);
      }
    }
  }

  function SubmittedFlow(f: Flow, payload: Payload, slot: nat): Flow {
    f.(sent := f.sent + [payload], slots := f.slots + [slot])
  }

  /** The allocated entry is outside the window, so the window still fits the store. */
  lemma SubmitFitsStore(s: TxState, fs: seq<Flow>, d: uint8)
    requires StoreInv(s, fs) && d as int < |fs| && s.pending.Some?
    ensures |fs[d].slots| + 1 <= MAX_STORE
  {
    var a := s.pending.value;
    var f := fs[d];
    assert FlowStored(s, f, d);
    SlotsDistinct(s, f, d);
    forall k | 0 <= k < |f.slots| ensures f.slots[k] != a && f.slots[k] < |s.entries| {
      assert SlotHolds(s, f, d, k);
    }
    DistinctBelow(f.slots + [a], |s.entries|);
  }

  lemma SubmitKeepsFlows(s: TxState, fs: seq<Flow>, ttl: uint8, d: uint8, payload: Payload, e: nat)
    requires StoreInv(s, fs) && (!s.isMaster ==> |fs| == 1)
    requires d as int < |fs| && e < |fs| && s.pending.Some? && (s.isMaster ==> ttl > 0)
    ensures FlowStored(Submit(s, ttl, d, payload), fs[d := SubmittedFlow(fs[d], payload, s.pending.value)][e], e)
  {
    var t, gs := Submit(s, ttl, d, payload), fs[d := SubmittedFlow(fs[d], payload, s.pending.value)];
    assert FlowStored(s, fs[e], e);
    if e == d as int {
      SubmitFitsStore(s, fs, d);
      assert SlotHolds(t, gs[e], e, |fs[e].slots|);
    }
    forall k | 0 <= k < |gs[e].slots| ensures SlotHolds(t, gs[e], e, k) {
      if k < |fs[e].slots| { assert SlotHolds(s, fs[e], e, k); }
    }
  }

  /** The number a submission gives to the allocated entry is on no lower entry and on no
      submitted one. */
  lemma SubmitKeepsHeaders(s: TxState, fs: seq<Flow>, ttl: uint8, d: uint8, payload: Payload)
    requires Inv(s, fs) && d as int < |fs| && s.pending.Some? && (s.isMaster ==> ttl > 0)
    ensures HeadersOrdered(Submit(s, ttl, d, payload))
  {
    var a := s.pending.value;
    var t := Submit(s, ttl, d, payload);
    forall i, j | 0 <= i < j < |t.entries| && Submitted(t, j) ensures !SameKey(t, i, j) {
      if j != a {
        assert Submitted(s, j) && Owned(s, fs, j) && !SameKey(s, i, j);
        var h := fs[s.DstOf(j)];
        var k :| 0 <= k < |h.slots| && h.slots[k] == j;
        assert FlowStored(s, h, s.DstOf(j)) && SlotHolds(s, h, s.DstOf(j), k);
        if i == a && SameKey(t, i, j) { SameResidue(h.base + k, |h.sent|); }
      }
    }
  }

  lemma SubmitKeepsStore(s: TxState, fs: seq<Flow>, ttl: uint8, d: uint8, payload: Payload)
    requires Inv(s, fs) && d as int < |fs| && s.pending.Some? && (s.isMaster ==> ttl > 0)
    ensures StoreInv(Submit(s, ttl, d, payload),
                     fs[d := SubmittedFlow(fs[d], payload, s.pending.value)])
  {
    SubmitKeepsHeaders(s, fs, ttl, d, payload);
    var a := s.pending.value;
    var t, gs := Submit(s, ttl, d, payload), fs[d := SubmittedFlow(fs[d], payload, a)];
    forall e | 0 <= e < |gs| ensures FlowStored(t, gs[e], e) {
      SubmitKeepsFlows(s, fs, ttl, d, payload, e);
    }
    forall i | 0 <= i < |t.entries| && Submitted(t, i) ensures Owned(t, gs, i) {
      if i == a {
        assert gs[d].slots[|fs[d].slots|] == a;
      } else {
        assert Submitted(s, i) && Owned(s, fs, i);
        var k :| 0 <= k < |fs[s.DstOf(i)].slots| && fs[s.DstOf(i)].slots[k] == i;
        assert gs[s.DstOf(i)].slots[k] == i;
      }
    }
  }

  /** A submission to a live destination appends to that destination's queue alone. */
  lemma SubmitKeepsInv(s: TxState, fs: seq<Flow>, ttl: uint8, d: uint8, payload: Payload)
    requires Inv(s, fs) && d as int < |fs| && s.pending.Some? && (s.isMaster ==> ttl > 0)
    requires s.isMaster ==> |s.active.ids| < MAX_NODES
    ensures Inv(Submit(s, ttl, d, payload),
                fs[d := SubmittedFlow(fs[d], payload, s.pending.value)])
  {
    SubmitKeepsStore(s, fs, ttl, d, payload);
    var f, t := fs[d], Submit(s, ttl, d, payload);
    var gs := fs[d := SubmittedFlow(f, payload, s.pending.value)];
    assert WindowOk(s, f, d) && FlowStored(s, f, d);
    if s.end[d] == s.start[d] { SameResidue(f.base, |f.sent|); }
    forall e | 0 <= e < |gs| ensures WindowOk(t, gs[e], e) {
      assert WindowOk(s, fs[e], e);
    }
    if s.isMaster { AddKeepsValid(s.active, d); }
  }

  // ---------- sending ----------

  /** How far `next` may run ahead of `base`. With a window end that wraps at 256 while the
      numbers wrap at 255, the window is short at 252..254 and has no end at 251. */
  predicate WindowClosed(base: nat, next: nat, windowWrap: nat) {
    var start := base % MAX_SEQUENCE_NUM;
    if windowWrap == MAX_SEQUENCE_NUM || start <= 250 then next - base == SLIDING_WINDOW_SIZE
    else start > 251 && next - base == SLIDING_WINDOW_SIZE - 1
  }

  lemma WindowEndExact(base: nat, next: nat, windowWrap: nat)
    requires windowWrap == WINDOW_WRAP || windowWrap == MAX_SEQUENCE_NUM
    requires base <= next <= base + MAX_STORE
    ensures next % MAX_SEQUENCE_NUM == (base % MAX_SEQUENCE_NUM + SLIDING_WINDOW_SIZE) % windowWrap
            <==> WindowClosed(base, next, windowWrap)
  {
    ResidueAfter(base, next - base);
    ResidueAfter(base, SLIDING_WINDOW_SIZE);
  }

  predicate CanSend(f: Flow, pause: uint8, windowWrap: nat := WINDOW_WRAP) {
    pause == 0 && f.next < |f.sent| && !WindowClosed(f.base, f.next, windowWrap)
  }

  /** Which of the poll's branches runs. */
  lemma PollBranches(s: TxState, fs: seq<Flow>, d: uint8)
    requires Inv(s, fs) && d as int < |fs|
    ensures FlowStored(s, fs[d], d) && WindowOk(s, fs[d], d)
    ensures Poll(s, d) ==
      if CanSend(fs[d], s.pause[d], s.windowWrap) then
        (s.(next := s.next[d := IncrSeq(s.next[d])]), Some(fs[d].slots[fs[d].next - fs[d].base]))
      else
        (s.(pause := s.pause[d := if s.pause[d] == 0 && fs[d].base < |fs[d].sent| then 2 else s.pause[d]]), None)
  {
    var f := fs[d];
    assert FlowStored(s, f, d) && WindowOk(s, f, d);
    WindowEndExact(f.base, f.next, s.windowWrap);
    if s.start[d] == s.end[d] { SameResidue(f.base, |f.sent|); }
    if s.next[d] == s.end[d] { SameResidue(f.next, |f.sent|); }
    if CanSend(f, s.pause[d], s.windowWrap) {
      FindsSlot(s, fs, d, f.next - f.base);
      assert SlotHolds(s, f, d, f.next - f.base);
    } else {
      assert s.pause == s.pause[d := s.pause[d]];
    }
  }

  function PolledFlow(f: Flow, pause: uint8, windowWrap: nat := WINDOW_WRAP): Flow {
    if CanSend(f, pause, windowWrap) then f.(next := f.next + 1) else f
  }

  lemma PollKeepsInv(s: TxState, fs: seq<Flow>, d: uint8)
    requires Inv(s, fs) && d as int < |fs|
    ensures Inv(Poll(s, d).0, fs[d := PolledFlow(fs[d], s.pause[d], s.windowWrap)])
  {
    PollBranches(s, fs, d);
    var f := fs[d];
    var t, gs := Poll(s, d).0, fs[d := PolledFlow(f, s.pause[d], s.windowWrap)];
    forall e | 0 <= e < |fs| ensures t.next[e] == gs[e].next % MAX_SEQUENCE_NUM && WindowOk(t, gs[e], e) {
      assert FlowStored(s, fs[e], e) && WindowOk(s, fs[e], e);
    }
    StoreFrame(s, fs, t, gs);
  }

  /** A poll that sends hands out the packet numbered `next`, with its own payload, and
      it sends exactly when the window, the buffer and the pause allow. */
  lemma PollRefines(s: TxState, fs: seq<Flow>, d: uint8)
    requires Inv(s, fs) && d as int < |fs|
    ensures fs[d].base <= fs[d].next
    ensures Poll(s, d).1.Some? <==> CanSend(fs[d], s.pause[d], s.windowWrap)
    ensures Poll(s, d).1.Some? ==>
      var i := Poll(s, d).1.value;
      && s.entries[i].packet.txSeqNum == fs[d].next % MAX_SEQUENCE_NUM
      && s.entries[i].packet.payload == fs[d].sent[fs[d].next]
      && s.DstOf(i) == d
  {
    PollBranches(s, fs, d);
    if CanSend(fs[d], s.pause[d], s.windowWrap) {
      assert SlotHolds(s, fs[d], d, fs[d].next - fs[d].base);
    }
  }

  /** The source's assertion on the window: `next` lies in the circular range. */
  lemma NextInRange(s: TxState, fs: seq<Flow>, d: uint8)
    requires Inv(s, fs) && d as int < |fs| && s.start[d] != s.end[d]
    ensures if s.end[d] >= s.start[d] then s.start[d] <= s.next[d] <= s.end[d]
            else s.next[d] >= s.start[d] || s.next[d] <= s.end[d]
  {
    var f := fs[d];
    assert FlowStored(s, f, d) && WindowOk(s, f, d);
    ResidueAfter(f.base, |f.sent| - f.base);
    ResidueAfter(f.base, f.next - f.base);
  }

  // ---------- acknowledgements ----------

  function AckedFlow(f: Flow, m: nat): Flow
    requires m <= |f.slots|
  {
    Flow(f.sent, f.base + m, if f.next < f.base + m then f.base + m else f.next, f.slots[m..])
  }

  function FreedFlow(f: Flow, next: nat): Flow
    requires |f.slots| > 0
  {
    Flow(f.sent, f.base + 1, next, f.slots[1..])
  }

  /** Freeing the oldest outstanding packet. */
  lemma FreeOldest(s: TxState, fs: seq<Flow>, d: uint8, next: nat, t: TxState)
    requires StoreInv(s, fs) && d as int < |fs| && |fs[d].slots| > 0
    requires fs[d].base < next <= |fs[d].sent|
    requires fs[d].slots[0] < |s.entries|
    requires t.Shaped() && |t.start| == |s.start|
    requires t == s.(entries := ClearInUse(s.entries, fs[d].slots[0]), numFreed := t.numFreed,
                     next := s.next[d := t.next[d]])
    requires t.next[d] == next % MAX_SEQUENCE_NUM
    ensures StoreInv(t, fs[d := FreedFlow(fs[d], next)])
  {
    var f := fs[d];
    var g := FreedFlow(f, next);
    var gs := fs[d := g];
    var z := f.slots[0];
    assert FlowStored(s, f, d) && SlotHolds(s, f, d, 0);
    SlotsDistinct(s, f, d);
    forall e | 0 <= e < |gs| ensures FlowStored(t, gs[e], e) {
      assert FlowStored(s, fs[e], e);
      forall k | 0 <= k < |gs[e].slots| ensures SlotHolds(t, gs[e], e, k) {
        if e == d as int {
          assert SlotHolds(s, f, d, k + 1);
        } else {
          assert SlotHolds(s, fs[e], e, k);
        }
      }
    }
    forall i | 0 <= i < |t.entries| && Submitted(t, i) ensures Owned(t, gs, i) {
      assert Submitted(s, i) && Owned(s, fs, i);
      if s.DstOf(i) == d {
        var k :| 0 <= k < |f.slots| && f.slots[k] == i;
        assert g.slots[k - 1] == i;
      }
    }
    forall i, j | 0 <= i < j < |t.entries| && Submitted(t, j) ensures !SameKey(t, i, j) {
      assert Submitted(s, j) && !SameKey(s, i, j);
    }
  }

  /** One turn of the acknowledgement loop, as the code runs it. */
  lemma FreeUpToUnfold(s: TxState, d: uint8, q: uint8, q1: uint8, stop: uint8, i: nat, s2: TxState)
    requires s.Shaped() && d as int < |s.start| && q < MAX_SEQUENCE_NUM && stop < MAX_SEQUENCE_NUM
    requires q1 == IncrSeq(q) && q != stop && i == Find(s, d, q) < |s.entries|
    requires s2 == s.(entries := ClearInUse(s.entries, i), numFreed := Bump(s.numFreed),
                      next := if q == s.next[d] then s.next[d := stop] else s.next)
    ensures FreeUpTo(s, d, q, stop) == (FreeUpTo(s2, d, q1, stop).0, FreeUpTo(s2, d, q1, stop).1 + 1)
  {
    hide Find, ClearInUse, IncrSeq, SeqDistance;
    var s1 := s.(entries := ClearInUse(s.entries, i), numFreed := Bump(s.numFreed));
    assert s2 == if q == s1.next[d] then s1.(next := s1.next[d := stop]) else s1;
  }

  lemma NextNumber(base: nat)
    ensures IncrSeq(base % MAX_SEQUENCE_NUM) == (base + 1) % MAX_SEQUENCE_NUM < MAX_SEQUENCE_NUM
  {
  }

  lemma OldestNumber(s: TxState, fs: seq<Flow>, d: uint8, m: nat, q: uint8, stop: uint8)
    requires StoreInv(s, fs) && d as int < |fs| && 0 < m <= |fs[d].slots|
    requires q == fs[d].base % MAX_SEQUENCE_NUM && stop == (fs[d].base + m) % MAX_SEQUENCE_NUM
    ensures q != stop && (q == s.next[d] <==> fs[d].next == fs[d].base)
    ensures Find(s, d, q) == fs[d].slots[0] < |s.entries|
    ensures fs[d].base <= fs[d].next <= |fs[d].sent| && fs[d].base + m <= |fs[d].sent|
    ensures s.next[d] == fs[d].next % MAX_SEQUENCE_NUM
  {
    var f := fs[d];
    assert FlowStored(s, f, d);
    FindsSlot(s, fs, d, 0);
    assert SlotHolds(s, f, d, 0);
    ResidueAfter(f.base, m);
    ResidueAfter(f.base, f.next - f.base);
  }

  lemma FreeUpToStep(s: TxState, fs: seq<Flow>, d: uint8, m: nat, q: uint8, q1: uint8, stop: uint8)
    returns (s2: TxState, g: Flow)
    requires StoreInv(s, fs) && d as int < |fs| && 0 < m <= |fs[d].slots|
    requires q == fs[d].base % MAX_SEQUENCE_NUM && q1 == (fs[d].base + 1) % MAX_SEQUENCE_NUM
    requires stop == (fs[d].base + m) % MAX_SEQUENCE_NUM
    ensures g == FreedFlow(fs[d], if fs[d].next == fs[d].base then fs[d].base + m else fs[d].next)
    ensures StoreInv(s2, fs[d := g])
    ensures fs[d].slots[0] < |s.entries|
    ensures s2 == s.(entries := ClearInUse(s.entries, fs[d].slots[0]), numFreed := Bump(s.numFreed),
                     next := if q == s.next[d] then s.next[d := stop] else s.next)
    ensures FreeUpTo(s, d, q, stop) == (FreeUpTo(s2, d, q1, stop).0, FreeUpTo(s2, d, q1, stop).1 + 1)
  {
    var f := fs[d];
    assert s.Shaped() && d as int < |s.start|;
    OldestNumber(s, fs, d, m, q, stop);
    NextNumber(f.base);
    hide StoreInv, FreeUpTo, Find, ClearInUse, IncrSeq;
    s2 := s.(entries := ClearInUse(s.entries, f.slots[0]), numFreed := Bump(s.numFreed),
             next := if q == s.next[d] then s.next[d := stop] else s.next);
    g := FreedFlow(f, if f.next == f.base then f.base + m else f.next);
    assert s2.next == s.next[d := s2.next[d]];
    FreeOldest(s, fs, d, g.next, s2);
    FreeUpToUnfold(s, d, q, q1, stop, f.slots[0], s2);
  }

  /** Acknowledging m packets is freeing one and acknowledging the other m - 1. */
  lemma AckedFlowStep(f: Flow, m: nat)
    requires 0 < m <= |f.slots| && f.base <= f.next
    ensures var g := FreedFlow(f, if f.next == f.base then f.base + m else f.next);
      AckedFlow(g, m - 1) == AckedFlow(f, m) && g.base == f.base + 1 && g.base <= g.next && |g.slots| == |f.slots| - 1
  {
  }

  /** The loop touches entries, the count of freed packets and `next` only. */
  lemma {:induction false} FreeUpToFrame(s: TxState, d: uint8, q: uint8, stop: uint8)
    requires s.Shaped() && d as int < |s.start| && q < MAX_SEQUENCE_NUM && stop < MAX_SEQUENCE_NUM
    ensures var t := FreeUpTo(s, d, q, stop).0;
      t == s.(entries := t.entries, numFreed := t.numFreed, next := t.next)
    decreases SeqDistance(q, stop)
  {
    if q != stop {
      SeqDistanceStep(q, stop);
      var i := Find(s, d, q);
      var s1 := if i == |s.entries| then s
                else s.(entries := ClearInUse(s.entries, i), numFreed := Bump(s.numFreed));
      var s2 := if q == s1.next[d] then s1.(next := s1.next[d := stop]) else s1;
      FreeUpToFrame(s2, d, IncrSeq(q), stop);
    }
  }

  /** k packets are still to be freed, from number q up to stop. */
  ghost predicate Freeing(f: Flow, q: uint8, stop: uint8, k: nat) {
    k <= |f.slots| && f.base <= f.next && q == f.base % MAX_SEQUENCE_NUM && stop == (f.base + k) % MAX_SEQUENCE_NUM
  }

  /** The rest of the loop after its first turn. */
  lemma FreeUpToRest(s: TxState, fs: seq<Flow>, d: uint8, m: nat, q: uint8, stop: uint8)
    returns (s2: TxState, g: Flow, q1: uint8)
    requires StoreInv(s, fs) && s.Shaped() && d as int < |fs| == |s.start| && 0 < m && Freeing(fs[d], q, stop, m)
    ensures StoreInv(s2, fs[d := g]) && s2.Shaped() && |s2.start| == |s.start| && Freeing(g, q1, stop, m - 1)
    ensures m - 1 <= |g.slots| && m <= |fs[d].slots| && AckedFlow(g, m - 1) == AckedFlow(fs[d], m)
    ensures q < MAX_SEQUENCE_NUM && q1 < MAX_SEQUENCE_NUM && stop < MAX_SEQUENCE_NUM
    ensures FreeUpTo(s, d, q, stop) == (FreeUpTo(s2, d, q1, stop).0, FreeUpTo(s2, d, q1, stop).1 + 1)
  {
    hide FreeUpTo, Find, ClearInUse, IncrSeq, FlowStored;
    OldestNumber(s, fs, d, m, q, stop);
    q1 := (fs[d].base + 1) % MAX_SEQUENCE_NUM;
    s2, g := FreeUpToStep(s, fs, d, m, q, q1, stop);
    AckedFlowStep(fs[d], m);
  }

  lemma FreeNone(s: TxState, fs: seq<Flow>, d: uint8, q: uint8, stop: uint8)
    requires s.Shaped() && d as int < |fs| == |s.start| && Freeing(fs[d], q, stop, 0)
    ensures q < MAX_SEQUENCE_NUM && stop < MAX_SEQUENCE_NUM
    ensures FreeUpTo(s, d, q, stop) == (s, 0) && fs[d := AckedFlow(fs[d], 0)] == fs
  {
    FreeUpToDone(s, d, q);
  }

  lemma {:induction false} FreeAll(s: TxState, fs: seq<Flow>, d: uint8, m: nat, q: uint8, stop: uint8)
    requires StoreInv(s, fs) && s.Shaped() && d as int < |fs| == |s.start| && Freeing(fs[d], q, stop, m)
    ensures m <= |fs[d].slots| && q < MAX_SEQUENCE_NUM && stop < MAX_SEQUENCE_NUM
    ensures FreeUpTo(s, d, q, stop).1 == m
    ensures StoreInv(FreeUpTo(s, d, q, stop).0, fs[d := AckedFlow(fs[d], m)])
    decreases m
  {
    hide StoreInv, FreeUpTo, AckedFlow, Freeing;
    if m == 0 {
      FreeNone(s, fs, d, q, stop);
    } else {
      var s2, g, q1 := FreeUpToRest(s, fs, d, m, q, stop);
      FreeAll(s2, fs[d := g], d, m - 1, q1, stop);
      UpdatedTwice(fs, d, g, AckedFlow(fs[d], m));
    }
  }

  /** The loop frees exactly the first m outstanding packets of d and nothing else. */
  lemma FreeUpToRefines(s: TxState, fs: seq<Flow>, d: uint8, m: nat, q: uint8, stop: uint8)
    requires StoreInv(s, fs) && d as int < |fs| && m <= |fs[d].slots|
    requires q == fs[d].base % MAX_SEQUENCE_NUM && stop == (fs[d].base + m) % MAX_SEQUENCE_NUM
    requires fs[d].base <= fs[d].next
    ensures FreeUpTo(s, d, q, stop).1 == m
    ensures StoreInv(FreeUpTo(s, d, q, stop).0, fs[d := AckedFlow(fs[d], m)])
  {
    assert s.Shaped() && |fs| == |s.start|;
    hide StoreInv, FreeUpTo, AckedFlow;
    FreeAll(s, fs, d, m, q, stop);
  }

  lemma UpdatedTwice(fs: seq<Flow>, d: uint8, g: Flow, h: Flow)
    requires d as int < |fs|
    ensures fs[d := g][d := h] == fs[d := h]
  {
  }

  /** The wrapped or unwrapped range test accepts a cumulative acknowledgement of
      `count` packets exactly when it covers more than is acknowledged already. */
  lemma AckTestExact(base: nat, end: nat, count: nat)
    requires base <= count <= end <= base + MAX_STORE && count > 0
    ensures AckInRange(base % MAX_SEQUENCE_NUM, end % MAX_SEQUENCE_NUM, (count - 1) % MAX_SEQUENCE_NUM)
            <==> count > base
  {
    ResidueAfter(base, end - base);
    if count > base {
      ResidueAfter(base, count - 1 - base);
    } else {
      ResidueAfter(base - 1, 1);
    }
  }

  /** What follows the loop: the new start, no pause, and the destination leaves the
      active queue when nothing is outstanding. */
  lemma AfterFreeing(s: TxState, fs: seq<Flow>, d: uint8, g: Flow, s1: TxState, t: TxState)
    requires Inv(s, fs) && d as int < |fs| && StoreInv(s1, fs[d := g])
    requires g.sent == fs[d].sent && fs[d].base < |fs[d].sent|
    requires s1 == s.(entries := s1.entries, numFreed := s1.numFreed, next := s1.next)
    requires t == s1.(start := s.start[d := g.base % MAX_SEQUENCE_NUM], pause := s.pause[d := 0],
                      active := if s.isMaster && g.base % MAX_SEQUENCE_NUM == s.end[d] then s.active.Remove(d) else s.active)
    ensures Inv(t, fs[d := g])
  {
    var gs := fs[d := g];
    forall e | 0 <= e < |gs| ensures t.next[e] == gs[e].next % MAX_SEQUENCE_NUM && WindowOk(t, gs[e], e) {
      assert FlowStored(s1, gs[e], e) && WindowOk(s, fs[e], e);
    }
    StoreFrame(s1, gs, t, gs);
    assert FlowStored(s1, gs[d], d);
    if g.base % MAX_SEQUENCE_NUM == s.end[d] { SameResidue(g.base, |g.sent|); }
    if s.isMaster { RemoveKeepsRest(s.active, d); }
  }

  /** The accepting branch of the acknowledgement, as the code runs it. */
  lemma AckUnfold(s: TxState, d: uint8, ack: uint8)
    requires s.Shaped() && d as int < |s.start| && s.start[d] < MAX_SEQUENCE_NUM
    requires ack != NULL_SEQUENCE_NUM && AckInRange(s.start[d], s.end[d], ack)
    ensures var newStart := IncrSeq(ack);
      var (s1, n) := FreeUpTo(s, d, s.start[d], newStart);
      Ack(s, d, ack) ==
        (s1.(start := s.start[d := newStart], pause := s.pause[d := 0],
             active := if s.isMaster && newStart == s.end[d] then s.active.Remove(d) else s.active), n)
  {
    hide FreeUpTo;
    FreeUpToFrame(s, d, s.start[d], IncrSeq(ack));
  }

  /** The parts of the invariant that bound a destination's counters. */
  lemma InvOf(s: TxState, fs: seq<Flow>, d: uint8)
    requires Inv(s, fs) && d as int < |fs|
    ensures StoreInv(s, fs) && s.Shaped() && |fs| == |s.start| && FlowStored(s, fs[d], d) && WindowOk(s, fs[d], d)
    ensures s.start[d] == fs[d].base % MAX_SEQUENCE_NUM && s.end[d] == |fs[d].sent| % MAX_SEQUENCE_NUM
    ensures fs[d].base <= fs[d].next <= |fs[d].sent| <= fs[d].base + MAX_STORE && |fs[d].slots| == |fs[d].sent| - fs[d].base
  {
    assert FlowStored(s, fs[d], d) && WindowOk(s, fs[d], d);
  }

  lemma AckAcceptedKeepsInv(s: TxState, fs: seq<Flow>, d: uint8, count: nat)
    requires Inv(s, fs) && d as int < |fs| && fs[d].base < count <= |fs[d].sent|
    requires FlowStored(s, fs[d], d) && WindowOk(s, fs[d], d)
    ensures var (t, n) := Ack(s, d, AckNumber(count));
      n == count - fs[d].base && t.pause[d] == 0 && Inv(t, fs[d := AckedFlow(fs[d], count - fs[d].base)])
  {
    var f := fs[d];
    InvOf(s, fs, d);
    hide Inv, StoreInv, FlowStored, WindowOk, FreeUpTo, Ack;
    AckTestExact(f.base, |f.sent|, count);
    var newStart: uint8 := count % MAX_SEQUENCE_NUM;
    AckNumberFollows(count);
    hide AckNumber;
    AckUnfold(s, d, AckNumber(count));
    FreeUpToRefines(s, fs, d, count - f.base, s.start[d], newStart);
    FreeUpToFrame(s, d, s.start[d], newStart);
    var s1 := FreeUpTo(s, d, s.start[d], newStart).0;
    AfterFreeing(s, fs, d, AckedFlow(f, count - f.base), s1, Ack(s, d, AckNumber(count)).0);
  }

  /** An acknowledgement outside the window frees nothing; if a pause is running it counts
      down, and at zero the window restarts from its beginning. */
  lemma OutOfRangeAckKeepsInv(s: TxState, fs: seq<Flow>, d: uint8, ack: uint8)
    requires Inv(s, fs) && d as int < |fs| && s.start[d] < MAX_SEQUENCE_NUM
    requires ack != NULL_SEQUENCE_NUM && !AckInRange(s.start[d], s.end[d], ack)
    ensures Ack(s, d, ack).1 == 0
    ensures Inv(Ack(s, d, ack).0, fs[d := if s.pause[d] == 1 then fs[d].(next := fs[d].base) else fs[d]])
  {
    var f := fs[d];
    var gs := fs[d := if s.pause[d] == 1 then f.(next := f.base) else f];
    var t := Ack(s, d, ack).0;
    forall e | 0 <= e < |gs|
      ensures gs[e].base <= gs[e].next <= |gs[e].sent|
      ensures t.next[e] == gs[e].next % MAX_SEQUENCE_NUM && WindowOk(t, gs[e], e)
    {
      assert FlowStored(s, fs[e], e) && WindowOk(s, fs[e], e);
    }
    StoreFrame(s, fs, t, gs);
  }

  /** How many packets an acknowledgement in the window covers. */
  function Covered(s: TxState, d: uint8, ack: uint8): nat
    requires s.Shaped() && d as int < |s.start| && s.start[d] < MAX_SEQUENCE_NUM && ack < MAX_SEQUENCE_NUM
  {
    SeqDistance(s.start[d], ack) + 1
  }

  lemma CoveredInWindow(s: TxState, fs: seq<Flow>, d: uint8, ack: uint8)
    requires Inv(s, fs) && d as int < |fs| && ack != NULL_SEQUENCE_NUM
    ensures s.start[d] < MAX_SEQUENCE_NUM
    ensures AckInRange(s.start[d], s.end[d], ack) ==>
      && Covered(s, d, ack) <= |fs[d].slots|
      && AckNumber(fs[d].base + Covered(s, d, ack)) == ack
  {
    var f := fs[d];
    assert FlowStored(s, f, d) && WindowOk(s, f, d);
    ResidueAfter(f.base, |f.sent| - f.base);
    if AckInRange(s.start[d], s.end[d], ack) {
      ResidueAfter(f.base, SeqDistance(s.start[d], ack));
    }
  }

  function AckOutcome(s: TxState, f: Flow, d: uint8, ack: uint8): Flow
    requires s.Shaped() && d as int < |s.start| && s.start[d] < MAX_SEQUENCE_NUM
  {
    if ack == NULL_SEQUENCE_NUM then f
    else if AckInRange(s.start[d], s.end[d], ack) && Covered(s, d, ack) <= |f.slots| then AckedFlow(f, Covered(s, d, ack))
    else if s.pause[d] == 1 then f.(next := f.base)
    else f
  }

  /** What a cumulative acknowledgement of `count` packets does to the flow. */
  lemma AckOutcomeOfCount(s: TxState, fs: seq<Flow>, d: uint8, count: nat)
    requires Inv(s, fs) && d as int < |fs| && fs[d].base <= count <= |fs[d].sent|
    ensures s.start[d] < MAX_SEQUENCE_NUM && |fs[d].slots| == |fs[d].sent| - fs[d].base
    ensures AckOutcome(s, fs[d], d, AckNumber(count)) ==
      if count > fs[d].base then AckedFlow(fs[d], count - fs[d].base)
      else if count > 0 && s.pause[d] == 1 then fs[d].(next := fs[d].base)
      else fs[d]
  {
    var f := fs[d];
    assert FlowStored(s, f, d) && WindowOk(s, f, d);
    if count > 0 {
      AckTestExact(f.base, |f.sent|, count);
      CoveredInWindow(s, fs, d, AckNumber(count));
      if count > f.base {
        var k := Covered(s, d, AckNumber(count));
        SameResidue(f.base + k - 1, count - 1);
      }
    }
  }

  lemma AckInWindowKeepsInv(s: TxState, fs: seq<Flow>, d: uint8, ack: uint8)
    requires Inv(s, fs) && d as int < |fs| && ack != NULL_SEQUENCE_NUM
    requires s.Shaped() && d as int < |s.start| && s.start[d] < MAX_SEQUENCE_NUM && AckInRange(s.start[d], s.end[d], ack)
    ensures Covered(s, d, ack) <= |fs[d].slots|
    ensures Inv(Ack(s, d, ack).0, fs[d := AckedFlow(fs[d], Covered(s, d, ack))])
  {
    hide Inv, StoreInv, FlowStored, WindowOk, Ack, AckNumber, AckInRange, AckedFlow, IncrSeq;
    InvOf(s, fs, d);
    CoveredInWindow(s, fs, d, ack);
    var k := Covered(s, d, ack);
    assert k > 0;
    hide *;
    var count := fs[d].base + k;
    assert count - fs[d].base == k;
    AckAcceptedKeepsInv(s, fs, d, count);
  }

  /** Any 8-bit value taken for an acknowledgement keeps the invariant. */
  lemma AckKeepsInv(s: TxState, fs: seq<Flow>, d: uint8, ack: uint8)
    requires Inv(s, fs) && d as int < |fs|
    ensures s.start[d] < MAX_SEQUENCE_NUM
    ensures Inv(Ack(s, d, ack).0, fs[d := AckOutcome(s, fs[d], d, ack)])
  {
    InvOf(s, fs, d);
    hide Inv, StoreInv, FlowStored, WindowOk;
    if ack == NULL_SEQUENCE_NUM {
      assert fs[d := fs[d]] == fs;
    } else {
      hide Ack, AckInRange, Covered;
      if AckInRange(s.start[d], s.end[d], ack) {
        AckInWindowKeepsInv(s, fs, d, ack);
      } else {
        OutOfRangeAckKeepsInv(s, fs, d, ack);
      }
    }
  }

  /** Acknowledging the first `count` packets, of which at least `base` are acknowledged
      already, frees exactly the newly covered ones, returns how many, and leaves
      next = max(next, count). A stale acknowledgement frees nothing. */
  lemma AckRefines(s: TxState, fs: seq<Flow>, d: uint8, count: nat)
    requires Inv(s, fs) && d as int < |fs| && fs[d].base <= count <= |fs[d].sent|
    ensures |fs[d].slots| == |fs[d].sent| - fs[d].base
    ensures Ack(s, d, AckNumber(count)).1 == count - fs[d].base
    ensures Inv(Ack(s, d, AckNumber(count)).0,
                fs[d := if count > fs[d].base then AckedFlow(fs[d], count - fs[d].base)
                        else if count > 0 && s.pause[d] == 1 then fs[d].(next := fs[d].base)
                        else fs[d]])
    ensures Ack(s, d, AckNumber(count)).0.pause[d] ==
      (if count > fs[d].base then 0
       else if count > 0 && s.pause[d] > 0 then s.pause[d] - 1
       else s.pause[d])
  {
    var f := fs[d];
    assert FlowStored(s, f, d) && WindowOk(s, f, d);
    if count == 0 {
      assert fs[d := f] == fs;
    } else {
      AckTestExact(f.base, |f.sent|, count);
      if count > f.base {
        AckAcceptedKeepsInv(s, fs, d, count);
      } else {
        OutOfRangeAckKeepsInv(s, fs, d, AckNumber(count));
      }
    }
  }
}
