/** What each operation of the transmit manager (src/txManager.c) does to its memory,
    as functions on values. The class TxManager is proved to compute these functions;
    TxInvariant relates them to unbounded per-destination queues. */
module TxSpec {
  import opened Microbus
  import opened NodeQueues

  type Payload = seq<uint8>

  /** The header fields the manager reads and writes, and the user's data. */
  datatype Packet = Packet(dstNodeId: uint8, txSeqNum: uint8, payload: Payload)

  datatype Entry = Entry(inUse: bool, packet: Packet)

  /** Where the window end wraps: it is an 8-bit sum, although the numbers wrap at 255. */
  const WINDOW_WRAP := 256

  /** One manager: the master's has a window per destination and a queue of destinations
      with unacknowledged packets; a node's has the single destination 0 and no queue.
      `pending` is the index of the entry handed to the user and not yet submitted.
      `windowWrap` is WINDOW_WRAP in the source; 255 gives the manager its comments
      describe. */
  datatype TxState = TxState(
    isMaster: bool,
    entries: seq<Entry>,
    numStored: uint32,
    numFreed: uint32,
    pending: Option<nat>,
    start: seq<uint8>,
    end: seq<uint8>,
    next: seq<uint8>,
    pause: seq<uint8>,
    rxSeqNum: seq<uint8>,
    active: Queue,
    lastTxQueueIndex: nat,
    windowWrap: nat := WINDOW_WRAP)
  {
    predicate Shaped() {
      |start| == |end| == |next| == |pause| == |rxSeqNum| && windowWrap > 0
    }

    /** A node's manager does not compare the destination field. */
    function DstOf(i: nat): uint8
      requires i < |entries|
    {
      if isMaster then entries[i].packet.dstNodeId else MASTER_NODE_ID
    }

    predicate Matches(i: nat, d: uint8, q: uint8)
      requires i < |entries|
    {
      entries[i].inUse && (isMaster ==> entries[i].packet.dstNodeId == d) && entries[i].packet.txSeqNum == q
    }
  }

  function Bump(n: uint32): uint32 {
    (n + 1) % 0x1_0000_0000
  }

  function BumpBy(n: uint32, k: nat): uint32 {
    (n + k) % 0x1_0000_0000
  }

  lemma BumpNext(n: uint32, k: nat)
    ensures Bump(BumpBy(n, k)) == BumpBy(n, k + 1)
  {
  }

  // ---------- packet store ----------

  /** findPacketEntry: the lowest matching index, or the number of entries. */
  function Find(s: TxState, d: uint8, q: uint8, from: nat := 0): (r: nat)
    requires from <= |s.entries|
    ensures from <= r <= |s.entries|
    ensures r < |s.entries| ==> s.Matches(r, d, q)
    ensures forall i :: from <= i < r ==> !s.Matches(i, d, q)
    decreases |s.entries| - from
  {
    if from == |s.entries| || s.Matches(from, d, q) then from else Find(s, d, q, from + 1)
  }

  /** The lowest entry not in use, or the number of entries. */
  function LowestFree(es: seq<Entry>, from: nat := 0): (r: nat)
    requires from <= |es|
    ensures from <= r <= |es|
    ensures r < |es| ==> !es[r].inUse
    ensures forall i :: from <= i < r ==> es[i].inUse
    decreases |es| - from
  {
    if from == |es| || !es[from].inUse then from else LowestFree(es, from + 1)
  }

  function ClearInUse(es: seq<Entry>, i: nat): seq<Entry>
    requires i < |es|
  {
    es[i := es[i].(inUse := false)]
  }

  /** allocateTxPacket. The entry is marked before the queue of active destinations is
      tested, so a full queue loses it. */
  function Allocate(s: TxState): (TxState, bool) {
    var i := LowestFree(s.entries);
    if i == |s.entries| then (s, false)
    else
      var s1 := s.(entries := s.entries[i := s.entries[i].(inUse := true)], numStored := Bump(s.numStored));
      if s.isMaster && |s.active.ids| >= MAX_NODES then (s1, false)
      else (s1.(pending := Some(i)), true)
  }

  /** submitAllocatedTxPacket. The payload is what the user wrote into the entry since
      its allocation; `ttl` is the destination's time to live (master only). */
  function Submit(s: TxState, ttl: uint8, d: uint8, payload: Payload): TxState
    requires s.Shaped() && d as int < |s.start|
    requires s.pending.Some? && s.pending.value < |s.entries|
  {
    if s.isMaster && ttl == 0 then s.(pending := None)
    else
      var i := s.pending.value;
      var packet := Packet(if s.isMaster then d else s.entries[i].packet.dstNodeId, s.end[d], payload);
      s.(entries := s.entries[i := s.entries[i].(packet := packet)],
         end := s.end[d := IncrSeq(s.end[d])],
         active := if s.isMaster && s.end[d] == s.start[d] then s.active.Add(d) else s.active,
         pending := None)
  }

  // ---------- sliding window ----------

  /** getNextTxPacketForNode: the entry to send, if any. */
  function Poll(s: TxState, d: uint8): (r: (TxState, Option<nat>))
    requires s.Shaped() && d as int < |s.start|
    ensures r.0.Shaped() && r.0 == s.(next := r.0.next, pause := r.0.pause)
    ensures r.1.Some? ==> r.1.value < |s.entries|
  {
    var windowEnd := (s.start[d] + SLIDING_WINDOW_SIZE) % s.windowWrap;
    if s.pause[d] > 0 || s.start[d] == s.end[d] then (s, None)
    else if s.next[d] == s.end[d] || s.next[d] == windowEnd then (s.(pause := s.pause[d := 2]), None)
    else
      var i := Find(s, d, s.next[d]);
      if i == |s.entries| then (s, None)
      else (s.(next := s.next[d := IncrSeq(s.next[d])]), Some(i))
  }

  /** Every active destination has a window. */
  predicate ActiveInRange(s: TxState) {
    forall k :: 0 <= k < |s.active.ids| ==> s.active.ids[k] as int < |s.start|
  }

  function NextIndex(i: nat, n: nat): nat {
    if i + 1 >= n then 0 else i + 1
  }

  /** How many slots lie on the way from i forward to `last`. */
  function StepsTo(i: nat, last: nat, n: nat): nat
    requires i < n && last < n
  {
    if i <= last then last - i else n - i + last
  }

  /** The do-while loop over the active destinations after slot i: it ends at a packet or
      at slot `last`. */
  function Scan(s: TxState, i: nat, last: nat): (r: (TxState, Option<nat>, nat))
    requires s.Shaped() && ActiveInRange(s) && i < |s.active.ids| && last < |s.active.ids|
    ensures r.0.Shaped() && r.0.start == s.start && r.0.active == s.active && r.0.entries == s.entries
    ensures r.1.Some? ==> r.1.value < |s.entries|
    ensures r.2 < |s.active.ids|
    decreases StepsTo(NextIndex(i, |s.active.ids|), last, |s.active.ids|)
  {
    var j := NextIndex(i, |s.active.ids|);
    var (s1, p) := Poll(s, s.active.ids[j]);
    if j == last || p.Some? then (s1, p, j) else Scan(s1, j, last)
  }

  lemma ScanStep(s: TxState, i: nat, last: nat, s1: TxState, p: Option<nat>)
    requires s.Shaped() && ActiveInRange(s) && i < |s.active.ids| && last < |s.active.ids|
    requires (s1, p) == Poll(s, s.active.ids[NextIndex(i, |s.active.ids|)])
    ensures var j := NextIndex(i, |s.active.ids|);
      && ActiveInRange(s1)
      && Scan(s, i, last) == if j == last || p.Some? then (s1, p, j) else Scan(s1, j, last)
  {
  }

  /** masterGetNextTxDataPacket with the burst size of 1 that the master uses. */
  function MasterGetNext(s: TxState): (r: (TxState, Option<nat>))
    requires s.Shaped() && ActiveInRange(s)
    ensures r.1.Some? ==> r.1.value < |s.entries|
  {
    var n := |s.active.ids|;
    if n == 0 then (s, None)
    else
      var last := if s.lastTxQueueIndex >= n then n - 1 else s.lastTxQueueIndex;
      var (s1, p, i) := Scan(s, last, last);
      (s1.(lastTxQueueIndex := i), p)
  }

  /** The acknowledgement loop: one packet freed for each number from q up to stop. */
  function FreeUpTo(s: TxState, d: uint8, q: uint8, stop: uint8): (r: (TxState, nat))
    requires s.Shaped() && d as int < |s.start|
    requires q < MAX_SEQUENCE_NUM && stop < MAX_SEQUENCE_NUM
    ensures r.0.Shaped() && |r.0.start| == |s.start|
    ensures r.0.isMaster == s.isMaster && r.0.windowWrap == s.windowWrap
    ensures r.0.pending == s.pending && |r.0.entries| == |s.entries|
    decreases SeqDistance(q, stop)
  {
    if q == stop then (s, 0)
    else
      SeqDistanceStep(q, stop);
      var i := Find(s, d, q);
      var s1 := if i == |s.entries| then s
                else s.(entries := ClearInUse(s.entries, i), numFreed := Bump(s.numFreed));
      var s2 := if q == s1.next[d] then s1.(next := s1.next[d := stop]) else s1;
      var (s3, n) := FreeUpTo(s2, d, IncrSeq(q), stop);
      (s3, n + 1)
  }

  lemma FreeUpToDone(s: TxState, d: uint8, q: uint8)
    requires s.Shaped() && d as int < |s.start| && q < MAX_SEQUENCE_NUM
    ensures FreeUpTo(s, d, q, q) == (s, 0)
  {
  }

  /** The 8-bit range test on an acknowledgement. */
  predicate AckInRange(start: uint8, end: uint8, ack: uint8) {
    if end < start then ack >= start || ack < end else start <= ack < end
  }

  /** rxAckSeqNum: the new state and the number of packets freed. */
  function Ack(s: TxState, d: uint8, ack: uint8): (r: (TxState, nat))
    requires s.Shaped() && d as int < |s.start| && s.start[d] < MAX_SEQUENCE_NUM
    ensures r.0.isMaster == s.isMaster && r.0.windowWrap == s.windowWrap
    ensures r.0.pending == s.pending && |r.0.entries| == |s.entries|
  {
    if ack == NULL_SEQUENCE_NUM then (s, 0)
    else if AckInRange(s.start[d], s.end[d], ack) then
      var newStart := IncrSeq(ack);
      var (s1, n) := FreeUpTo(s, d, s.start[d], newStart);
      var s2 := s1.(start := s1.start[d := newStart], pause := s1.pause[d := 0]);
      (if s2.isMaster && newStart == s2.end[d] then s2.(active := s2.active.Remove(d)) else s2, n)
    else if s.pause[d] > 0 then
      var s1 := s.(pause := s.pause[d := s.pause[d] - 1]);
      (if s1.pause[d] == 0 then s1.(next := s1.next[d := s1.start[d]]) else s1, 0)
    else (s, 0)
  }

  // ---------- receiving ----------

  function Expected(rxSeqNum: uint8): uint8 {
    if rxSeqNum == NULL_SEQUENCE_NUM then 0 else IncrSeq(rxSeqNum)
  }

  /** rxPacketCheckAndUpdateSeqNum on the number last accepted from the sender. */
  function Receive(rxSeqNum: uint8, q: uint8): (uint8, bool) {
    if q == Expected(rxSeqNum) then (q, true) else (rxSeqNum, false)
  }

  /** The number that acknowledges the first `count` packets. */
  function AckNumber(count: nat): uint8 {
    if count == 0 then NULL_SEQUENCE_NUM else (count - 1) % MAX_SEQUENCE_NUM
  }

  lemma AckNumberFollows(count: nat)
    requires count > 0
    ensures AckNumber(count) != NULL_SEQUENCE_NUM && IncrSeq(AckNumber(count)) == count % MAX_SEQUENCE_NUM
  {
  }

  // ---------- removal ----------

  /** Every in-use entry for the node is freed, the allocated one included. */
  function FreeNode(es: seq<Entry>, d: uint8): (r: seq<Entry>)
    ensures |r| == |es|
    ensures forall i :: 0 <= i < |es| ==>
      r[i] == if es[i].inUse && es[i].packet.dstNodeId == d then es[i].(inUse := false) else es[i]
  {
    if es == [] then []
    else
      var e := es[|es| - 1];
      FreeNode(es[..|es| - 1], d) + [if e.inUse && e.packet.dstNodeId == d then e.(inUse := false) else e]
  }

  function CountNode(es: seq<Entry>, d: uint8): nat {
    if es == [] then 0
    else
      var e := es[|es| - 1];
      CountNode(es[..|es| - 1], d) + if e.inUse && e.packet.dstNodeId == d then 1 else 0
  }

  /** masterTxManagerRemoveNode: the new state and the number of packets freed. */
  function RemoveNode(s: TxState, d: uint8): (TxState, nat)
    requires s.Shaped() && d as int < |s.start|
  {
    var n := CountNode(s.entries, d);
    (s.(active := s.active.Remove(d),
        entries := FreeNode(s.entries, d),
        numFreed := BumpBy(s.numFreed, n),
        start := s.start[d := 0], end := s.end[d := 0], next := s.next[d := 0],
        pause := s.pause[d := 0], rxSeqNum := s.rxSeqNum[d := NULL_SEQUENCE_NUM]), n)
  }

  /** initTxManager: whatever the packet memory held, nothing is in use. */
  function Init(isMaster: bool, numDst: nat, memory: seq<Packet>, windowWrap: nat := WINDOW_WRAP): TxState {
    var zeros: seq<uint8> := seq(numDst, _ => 0);
    TxState(isMaster, seq(|memory|, i requires 0 <= i < |memory| => Entry(false, memory[i])), 0, 0, None,
            zeros, zeros, zeros, zeros, seq(numDst, _ => NULL_SEQUENCE_NUM), Queue([], 0), 0, windowWrap)
  }
}
