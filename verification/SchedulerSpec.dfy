/** What the slot scheduler (src/scheduler.c) decides, as functions on values. */
module SchedulerSpec {
  import opened Microbus
  import opened NodeQueues

  const MAX_MASTER_SLOTS_BETWEEN_ACKS := 4
  const MAX_SLOTS_BETWEEN_SERVICING: uint8 := 6
  const MIN_SLOTS_BETWEEN_UNALLOCATED: uint8 := 2
  const NUM_SLOTS_BEFORE_ALLOCATION_CHANGED: uint8 := 128

  datatype Turn = MasterTx | MasterRxAck | NodeTx {
    function Following(): Turn {
      match this
      case MasterTx => MasterRxAck
      case MasterRxAck => NodeTx
      case NodeTx => MasterTx
    }
  }

  datatype Sched = Sched(
    numTxNodesScheduled: nat,
    maxSlotsBetweenUnallocated: uint8,
    gapUpdateCount: uint8,
    unallocatedSlotGap: uint8,
    tillAllocation: uint8,
    tillService: uint8,
    nextTurn: Turn,
    recent: seq<uint8>,
    activeNodes: Queue,
    activeTxNodes: Queue,
    nodeTxNodes: Queue)
  {
    /** Node ids lie between the master's 0 and MAX_NODES. A gap of 1 would leave every slot
        unallocated (GapBecomesOneIff); a gap that doubles past its 8 bits becomes 0, which
        stands for 256 slots. */
    ghost predicate Valid() {
      && 1 <= numTxNodesScheduled <= MAX_TX_NODES_SCHEDULED
      && maxSlotsBetweenUnallocated != 1 && unallocatedSlotGap != 1
      && tillService <= MAX_SLOTS_BETWEEN_SERVICING
      && |recent| == MAX_MASTER_SLOTS_BETWEEN_ACKS
      && NodesIn(activeNodes) && NodesIn(activeTxNodes) && NodesIn(nodeTxNodes)
    }
  }

  ghost predicate NodesIn(q: Queue) {
    q.Valid() && forall x :: x in q.ids ==> FIRST_NODE_ID <= x < MAX_NODES
  }

  /** nodeRecentlySent compares the three older of the four recorded slots. */
  predicate RecentlySent(recent: seq<uint8>, node: uint8)
    requires |recent| == MAX_MASTER_SLOTS_BETWEEN_ACKS
  {
    node in recent[..MAX_MASTER_SLOTS_BETWEEN_ACKS - 1]
  }

  /** getNextMasterRxAckNode from its i-th probe on. */
  function AckSearch(q: Queue, recent: seq<uint8>, i: nat := 0): (r: (uint8, Queue))
    requires |recent| == MAX_MASTER_SLOTS_BETWEEN_ACKS && i <= |q.ids| && (q.last < |q.ids| || q.ids == [])
    ensures r.1.ids == q.ids && (r.1.last < |q.ids| || r.1 == q)
    decreases |q.ids| - i
  {
    if i == |q.ids| then (INVALID_NODE_ID, q)
    else
      var (node, q1) := q.Next();
      if !RecentlySent(recent, node) then (node, q1) else AckSearch(q1, recent, i + 1)
  }

  function TxSearch(q: Queue): (uint8, Queue)
    requires q.last < |q.ids| || q.ids == []
  {
    if q.ids == [] then (INVALID_NODE_ID, q) else q.Next()
  }

  function Service(s: Sched, avoidRecent: bool): (r: (uint8, Sched))
    requires s.activeNodes.last < |s.activeNodes.ids| || s.activeNodes.ids == []
    requires |s.recent| == MAX_MASTER_SLOTS_BETWEEN_ACKS
    ensures s.Valid() ==> r.1.Valid()
    ensures r.1 == s.(tillService := MAX_SLOTS_BETWEEN_SERVICING, activeNodes := r.1.activeNodes)
    ensures r.1.activeNodes.ids == s.activeNodes.ids
  {
    var s1 := s.(tillService := MAX_SLOTS_BETWEEN_SERVICING);
    if s.activeNodes.ids == [] then (INVALID_NODE_ID, s1)
    else
      var (node, q) := s.activeNodes.Next();
      (if avoidRecent && RecentlySent(s.recent, node) then INVALID_NODE_ID else node, s1.(activeNodes := q))
  }

  /** What one turn proposes. The master's own slots exist only when several slots are
      scheduled ahead. */
  function Propose(s: Sched, level: nat): (uint8, Sched)
    requires s.activeTxNodes.last < |s.activeTxNodes.ids| || s.activeTxNodes.ids == []
    requires s.nodeTxNodes.last < |s.nodeTxNodes.ids| || s.nodeTxNodes.ids == []
    requires |s.recent| == MAX_MASTER_SLOTS_BETWEEN_ACKS
  {
    match s.nextTurn
    case MasterTx => (if s.numTxNodesScheduled > 1 && level > 0 then MASTER_NODE_ID else INVALID_NODE_ID, s)
    case MasterRxAck =>
      var (node, q) := AckSearch(s.activeTxNodes, s.recent);
      (node, s.(activeTxNodes := q))
    case NodeTx =>
      var (node, q) := TxSearch(s.nodeTxNodes);
      (node, s.(nodeTxNodes := q))
  }

  /** Choosing a node moves cursors, turn and service count; it removes nobody from a queue. */
  predicate SameSlots(s: Sched, t: Sched) {
    && t == s.(tillService := t.tillService, nextTurn := t.nextTurn, activeNodes := t.activeNodes,
               activeTxNodes := t.activeTxNodes, nodeTxNodes := t.nodeTxNodes)
    && t.activeNodes.ids == s.activeNodes.ids
  }

  /** The turns still to be tried, then a slot for servicing. */
  function TryTurns(s: Sched, level: nat, turns: nat): (r: (uint8, Sched))
    requires s.Valid()
    ensures r.1.Valid() && SameSlots(s, r.1)
    ensures r.1.tillService == s.tillService || r.1.tillService == MAX_SLOTS_BETWEEN_SERVICING
    decreases turns
  {
    if turns == 0 then Service(s, false)
    else
      var (node, s1) := Propose(s, level);
      ProposeKeepsValid(s, level);
      var s2 := s1.(nextTurn := s.nextTurn.Following());
      if node != INVALID_NODE_ID then (node, s2) else TryTurns(s2, level, turns - 1)
  }

  lemma ProposeKeepsValid(s: Sched, level: nat)
    requires s.Valid()
    ensures Propose(s, level).1.Valid()
  {
  }

  /** scheduleNextAllocatedNode. */
  function ScheduleAllocated(s: Sched, level: nat): (r: (uint8, Sched))
    requires s.Valid()
    ensures r.1.Valid() && SameSlots(s, r.1) && r.1.tillService > 0
  {
    if s.tillService == 0 then
      var (node, s1) := Service(s, true);
      if node != INVALID_NODE_ID then (node, s1) else TryTurns(s1, level, 3)
    else TryTurns(s, level, 3)
  }

  /** The gap doubles once, when 128 unallocated slots have been counted. */
  function WidenGap(s: Sched): Sched {
    if s.unallocatedSlotGap == s.maxSlotsBetweenUnallocated then s
    else
      var n := (s.gapUpdateCount + 1) % 256;
      if n == NUM_SLOTS_BEFORE_ALLOCATION_CHANGED then
        var doubled := (2 * s.unallocatedSlotGap) % 256;
        s.(gapUpdateCount := n,
           unallocatedSlotGap := if doubled > s.maxSlotsBetweenUnallocated then s.maxSlotsBetweenUnallocated else doubled)
      else s.(gapUpdateCount := n)
  }

  /** scheduleNextNode. The recorded slot keeps 255 where nothing was found. */
  function ScheduleNext(s: Sched, level: nat): (uint8, Sched)
    requires s.Valid()
  {
    if s.tillAllocation == 0 then
      var s1 := WidenGap(s);
      (UNALLOCATED_NODE_ID, s1.(tillAllocation := (s1.unallocatedSlotGap - 1) % 256))
    else
      var (node, s1) := ScheduleAllocated(s, level);
      (if node == INVALID_NODE_ID then UNALLOCATED_NODE_ID else node,
       s1.(tillAllocation := (s1.tillAllocation - 1) % 256, tillService := (s1.tillService - 1) % 256,
           recent := s1.recent[1..] + [node]))
  }

  function MasterSlots(nodes: seq<uint8>): nat {
    if nodes == [] then 0 else (if nodes[0] == MASTER_NODE_ID then 1 else 0) + MasterSlots(nodes[1..])
  }

  /** schedulerUpdateAndCalcNextTxNodes: the window of scheduled slots moves on by one. The
      level counts the master's packets beyond the slots it already has. */
  function UpdateWindow(s: Sched, window: seq<uint8>, level: nat): (seq<uint8>, Sched)
    requires s.Valid() && |window| == s.numTxNodesScheduled
  {
    if s.numTxNodesScheduled == 1 then
      var (node, s1) := ScheduleNext(s, 0);
      ([node], s1)
    else
      var kept := window[1..];
      var n := MasterSlots(kept);
      if MASTER_NODE_ID in kept then
        var (node, s1) := ScheduleNext(s, if level > n then level - n else 0);
        (kept + [node], s1)
      else (kept + [MASTER_NODE_ID], s)
  }

  /** NEW_NODE_HEARD_UPDATE_SCHEDULER. */
  function NewNodeHeard(s: Sched): Sched {
    s.(unallocatedSlotGap := MIN_SLOTS_BETWEEN_UNALLOCATED, tillAllocation := MIN_SLOTS_BETWEEN_UNALLOCATED)
  }

  /** schedulerInit. */
  function InitSched(numTxNodesScheduled: nat, maxSlotsBetweenUnallocated: uint8): Sched {
    Sched(numTxNodesScheduled, maxSlotsBetweenUnallocated, 0, MIN_SLOTS_BETWEEN_UNALLOCATED,
          MIN_SLOTS_BETWEEN_UNALLOCATED, 0, MasterTx, [0, 0, 0, 0],
          Queue([], 0), Queue([], 0), Queue([], 0))
  }
}
