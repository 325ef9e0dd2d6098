/** The receive store (src/rxManager.c) and the receive path in front of it
    (src/masterRx.c, src/node.c), as functions on values. */
module RxSpec {
  import opened Microbus
  import TxSpec

  const MICROBUS_VERSION := 1
  const MASTER_DATA_PACKET := 1
  const NODE_DATA_PACKET := 2
  const NODE_EMPTY_PACKET := 4
  const MASTER_RESET_PACKET := 7

  /** The header fields the receive path reads, and the user's data. */
  datatype RxPacket = RxPacket(
    versionAndType: uint8, txSeqNum: uint8, dataSize: nat,
    srcNodeId: uint8, dstNodeId: uint8, payload: TxSpec.Payload)
  {
    function Version(): nat { versionAndType / 16 }
    function Type(): nat { versionAndType % 16 }
  }

  const ZeroPacket := RxPacket(0, 0, 0, 0, 0, [])

  // ---------- the store ----------

  /** A pool of entries and a circular queue of positions in it. A slot of the queue is
      None after its packet was removed. */
  datatype Store = Store(inUse: seq<bool>, packets: seq<RxPacket>, queue: seq<Option<nat>>, start: nat, end: nat)
  {
    predicate Shaped() {
      && |inUse| == |packets| == |queue| && 2 < |queue| <= 255
      && start < |queue| && end < |queue|
      && forall i :: 0 <= i < |queue| && queue[i].Some? ==> queue[i].value < |inUse|
    }

    function Size(): nat {
      |queue|
    }

    predicate InRing(i: nat) {
      if start <= end then start <= i < end else start <= i || i < end
    }

    /** The slots from start to end in queue order. */
    function Line(): (r: seq<Option<nat>>)
      requires Shaped()
      ensures |r| == DecrAndWrap(end, start, Size()) < Size()
      ensures forall k :: 0 <= k < |r| && r[k].Some? ==> r[k].value < Size()
    {
      if start <= end then queue[start..end] else queue[start..] + queue[..end]
    }

    predicate Full() {
      start == IncrAndWrap(end, 1, Size())
    }

    /** The packets waiting for the user, oldest first. */
    function Contents(): seq<RxPacket>
      requires Shaped()
    {
      Waiting(packets, Line())
    }
  }

  function Waiting(packets: seq<RxPacket>, line: seq<Option<nat>>): (r: seq<RxPacket>)
    requires forall k :: 0 <= k < |line| && line[k].Some? ==> line[k].value < |packets|
    ensures |r| <= |line|
  {
    if line == [] then []
    else (if line[0].Some? then [packets[line[0].value]] else []) + Waiting(packets, line[1..])
  }

  function FirstFree(inUse: seq<bool>, i: nat := 0): (r: nat)
    requires i <= |inUse|
    ensures i <= r <= |inUse| && (r < |inUse| ==> !inUse[r])
    ensures forall k :: i <= k < r ==> inUse[k]
    decreases |inUse| - i
  {
    if i == |inUse| || !inUse[i] then i else FirstFree(inUse, i + 1)
  }

  /** findFreeRxPacket. */
  function FindFree(s: Store): (r: (Option<nat>, Store))
    requires s.Shaped()
    ensures r.1.Shaped() && r.1 == s.(inUse := r.1.inUse)
    ensures r.0.Some? ==> r.0.value < s.Size()
    ensures r.0.None? ==> r.1 == s
    ensures r.0.Some? ==> !s.inUse[r.0.value] && r.1.inUse == s.inUse[r.0.value := true]
  {
    var i := FirstFree(s.inUse);
    if s.Full() || i == |s.inUse| then (None, s) else (Some(i), s.(inUse := s.inUse[i := true]))
  }

  /** addRxDataPacket, where the queue is not full. */
  function Append(s: Store, e: nat): (r: Store)
    requires s.Shaped() && e < s.Size()
    ensures r.Shaped()
  {
    s.(queue := s.queue[s.end := Some(e)], end := IncrAndWrap(s.end, 1, s.Size()))
  }

  function Advance(s: Store): (r: Store)
    requires s.Shaped()
    ensures r.Shaped()
  {
    s.(start := IncrAndWrap(s.start, 1, s.Size()))
  }

  /** peekNextRxDataPacket drops the emptied slots at the front of the queue. */
  function Skip(s: Store): (r: Store)
    requires s.Shaped()
    ensures r.Shaped() && r == s.(start := r.start)
    ensures r.Line() == [] || r.Line()[0].Some?
    decreases |s.Line()|
  {
    if s.Line() == [] || s.Line()[0].Some? then s
    else
      AdvanceLine(s);
      Skip(Advance(s))
  }

  /** popNextDataPacket. */
  function Pop(s: Store): (r: Store)
    requires s.Shaped() && s.Line() != [] && s.Line()[0].Some?
    ensures r.Shaped()
  {
    Advance(s.(inUse := s.inUse[s.Line()[0].value := false]))
  }

  predicate From(s: Store, slot: Option<nat>, src: uint8)
    requires s.Shaped()
  {
    slot.Some? && slot.value < s.Size() && s.packets[slot.value].srcNodeId == src
  }

  /** rxManagerRemoveAllPackets, where it ends. */
  function RemoveAll(s: Store, src: uint8): (r: Store)
    requires s.Shaped()
    ensures r.Shaped()
  {
    s.(inUse := seq(s.Size(), e requires 0 <= e < s.Size() => s.inUse[e] && !(Some(e) in s.Line() && From(s, Some(e), src))),
       queue := seq(s.Size(), i requires 0 <= i < s.Size() => if s.InRing(i) && From(s, s.queue[i], src) then None else s.queue[i]))
  }

  /** The k-th slot of the line, and the place of each slot in the line. */
  lemma LineSlots(s: Store)
    requires s.Shaped()
    ensures forall k :: 0 <= k < |s.Line()| ==>
      s.Line()[k] == s.queue[IncrAndWrap(s.start, k, s.Size())] && s.InRing(IncrAndWrap(s.start, k, s.Size()))
    ensures forall i :: 0 <= i < s.Size() && s.InRing(i) ==>
      DecrAndWrap(i, s.start, s.Size()) < |s.Line()| && s.Line()[DecrAndWrap(i, s.start, s.Size())] == s.queue[i]
  {
  }

  lemma AppendLine(s: Store, e: nat)
    requires s.Shaped() && e < s.Size() && !s.Full()
    ensures Append(s, e).Line() == s.Line() + [Some(e)]
  {
  }

  lemma AdvanceLine(s: Store)
    requires s.Shaped() && s.Line() != []
    ensures Advance(s).Line() == s.Line()[1..]
  {
    if s.start < s.end {
      assert s.Line()[1..] == s.queue[s.start + 1..s.end];
    } else if s.start + 1 < s.Size() {
      assert s.Line()[1..] == s.queue[s.start + 1..] + s.queue[..s.end];
    } else {
      assert s.Line()[1..] == s.queue[..s.end];
    }
  }

  lemma LineHead(s: Store)
    requires s.Shaped()
    ensures s.Line() == [] <==> s.start == s.end
    ensures s.Line() != [] ==> s.Line()[0] == s.queue[s.start]
  {
  }

  /** One slot always stays empty. */
  lemma FullIff(s: Store)
    requires s.Shaped()
    ensures s.Full() <==> |s.Line()| == s.Size() - 1
  {
  }

  // ---------- the receive path ----------

  /** The master hears all nodes; a node hears the master and looks at what is addressed
      to it. */
  datatype Role = AsMaster | AsNode(nodeId: uint8)

  /** `next` is the entry the hardware writes the coming packet to, `prev` the one it wrote
      last; `valid` says that prev holds a packet still to be processed. */
  datatype Path = Path(rx: Store, next: nat, prev: nat, valid: bool, validSeq: bool, rxSeqNum: seq<uint8>)
  {
    predicate Shaped() {
      rx.Shaped() && next < rx.Size() && prev < rx.Size()
    }
  }

  /** The sender whose numbering a packet belongs to. */
  function Sender(role: Role, p: RxPacket): uint8 {
    if role.AsMaster? then p.srcNodeId else MASTER_NODE_ID
  }

  predicate IsData(role: Role, p: RxPacket) {
    match role
    case AsMaster => p.Type() == NODE_DATA_PACKET
    case AsNode(id) => id != UNALLOCATED_NODE_ID && p.Type() == MASTER_DATA_PACKET
  }

  predicate WellFormed(p: RxPacket, crcError: bool) {
    !crcError && p.versionAndType != 0 && p.versionAndType != 255 && p.Version() == MICROBUS_VERSION
  }

  /** A reset by the master takes a node off the network. */
  predicate IsReset(role: Role, p: RxPacket, crcError: bool) {
    role.AsNode? && WellFormed(p, crcError) && p.Type() == MASTER_RESET_PACKET
  }

  /** Whether the packet is to be processed at all, if there is room. */
  predicate Accepts(role: Role, p: RxPacket, crcError: bool) {
    && WellFormed(p, crcError)
    && match role
       case AsMaster => p.dataSize < MAX_PACKET_DATA_SIZE
       case AsNode(id) => p.Type() != MASTER_RESET_PACKET && p.dstNodeId == id
  }

  /** Packets that show a node is still there. */
  predicate FromNode(p: RxPacket) {
    p.Type() == NODE_DATA_PACKET || p.Type() == NODE_EMPTY_PACKET
  }

  /** masterQuickProcessPrevRx and nodeQuickProcessPrevRx, apart from a reset: a packet worth
      keeping stays in its entry and a free one takes the next; then the number is tested. */
  function Quick(role: Role, m: Path, crcError: bool): (r: Path)
    requires m.Shaped()
    requires IsData(role, m.rx.packets[m.next]) ==> Sender(role, m.rx.packets[m.next]) as int < |m.rxSeqNum|
    ensures r.Shaped()
  {
    var p := m.rx.packets[m.next];
    var m1 := m.(prev := m.next, valid := false);
    if !Accepts(role, p, crcError) then m1
    else
      var (free, rx) := FindFree(m.rx);
      if free.None? then m1
      else
        var m2 := m1.(rx := rx, next := free.value, valid := true);
        if IsData(role, p) then
          var (q, ok) := TxSpec.Receive(m.rxSeqNum[Sender(role, p)], p.txSeqNum);
          m2.(validSeq := ok, rxSeqNum := m.rxSeqNum[Sender(role, p) := q])
        else if role.AsNode? then m2.(validSeq := true)
        else m2
  }

  /** Whether the packet at prev goes into the queue. */
  predicate Stores(role: Role, m: Path)
    requires m.Shaped()
  {
    && m.valid && m.validSeq && IsData(role, m.rx.packets[m.prev])
    && (role.AsNode? ==> m.rx.packets[m.prev].dstNodeId == role.nodeId)
  }

  /** The processing asserts that a data packet is not empty: the master of a packet it is
      about to queue, a node of any addressed to it. */
  predicate ProcessAsserts(role: Role, m: Path)
    requires m.Shaped()
  {
    var p := m.rx.packets[m.prev];
    && m.valid && IsData(role, p)
    && (if role.AsMaster? then m.validSeq else p.dstNodeId == role.nodeId)
    ==> p.dataSize > 0
  }

  /** masterProcessRx and nodeProcessRx, as far as the receive store goes. Only the master
      clears its flags. */
  function Process(role: Role, m: Path): (r: Path)
    requires m.Shaped()
    ensures r.Shaped()
  {
    if !m.valid then m
    else
      var m1 := if Stores(role, m) then m.(rx := Append(m.rx, m.prev))
                else m.(rx := m.rx.(inUse := m.rx.inUse[m.prev := false]));
      if role.AsMaster? then m1.(valid := false, validSeq := false) else m1
  }
}
