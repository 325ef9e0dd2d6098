/** The schedule on its way from the master to the nodes (src/master.c, src/masterTx.c,
    src/node.c), in pipelined mode: what is sent in one slot is acted on in the next. */
module Schedule {
  import opened Microbus
  import opened SchedulerSpec
  import opened SchedulerFairness

  // ---------- values ----------

  /** A node's copy of the schedule. */
  datatype Copy = Copy(current: uint8, next: seq<uint8>)

  /** nodeUpdateSchedule: one slot goes by. */
  function Shift(c: Copy): (r: Copy)
    requires |c.next| == MAX_TX_NODES_SCHEDULED
    ensures |r.next| == MAX_TX_NODES_SCHEDULED
  {
    Copy(c.next[0], c.next[1..] + [INVALID_NODE_ID])
  }

  const NoSchedule := [MASTER_NODE_ID, MASTER_NODE_ID, MASTER_NODE_ID, MASTER_NODE_ID]

  /** The schedule field of a packet whose memory started as zero: the master writes the
      slots it schedules and leaves the rest. */
  function Padded(window: seq<uint8>): seq<uint8>
    requires |window| <= MAX_TX_NODES_SCHEDULED
  {
    window + seq(MAX_TX_NODES_SCHEDULED - |window|, _ => MASTER_NODE_ID)
  }

  /** What the master sent in the slot before. */
  datatype Wire = Reset | Slots(slots: seq<uint8>)

  datatype Node = Node(nodeId: uint8, copy: Copy)

  predicate Joined(n: Node) {
    n.nodeId != UNALLOCATED_NODE_ID
  }

  /** The previous packet arrives, or is lost, and the node's schedule moves on. A reset
      takes the node off the network with an empty schedule. */
  function NodeSlot(n: Node, wire: Wire, heard: bool): Node
    requires |n.copy.next| == MAX_TX_NODES_SCHEDULED
    requires wire.Slots? ==> |wire.slots| == MAX_TX_NODES_SCHEDULED
  {
    if !heard then n.(copy := Shift(n.copy))
    else if wire.Slots? then n.(copy := Shift(n.copy.(next := wire.slots)))
    else if Joined(n) then Node(UNALLOCATED_NODE_ID, Shift(Copy(MASTER_NODE_ID, NoSchedule)))
    else n.(copy := Shift(n.copy))
  }

  /** The whole network. `resets` counts the reset cycles after power-up. */
  datatype Net = Net(bus: Bus, current: uint8, resets: nat, wire: Wire, nodes: seq<Node>)

  /** masterUpdateSchedule, with the count already taken down for this slot. */
  function MasterSlot(b: Bus, resets: nat, level: nat): (uint8, Bus)
    requires b.sched.Valid() && |b.window| == b.sched.numTxNodesScheduled
  {
    if resets > 0 then
      (MASTER_NODE_ID, b.(window := b.window[..1] + seq(|b.window| - 1, _ => MASTER_NODE_ID)))
    else
      var (w, s) := UpdateWindow(b.sched, b.window, level);
      (b.window[0], Bus(s, w))
  }

  /** One slot: the master prepares a packet, moves the schedule on and sends it; every
      node acts on the packet of the slot before if it heard that. */
  function Slot(y: Net, level: nat, heard: seq<bool>): Net
    requires NetShaped(y) && |heard| == |y.nodes|
  {
    var resets := if y.resets > 0 then y.resets - 1 else 0;
    var (current, bus) := MasterSlot(y.bus, resets, level);
    Net(bus, current, resets,
        if y.resets > 0 then Reset else Slots(Padded(bus.window)),
        seq(|y.nodes|, i requires 0 <= i < |y.nodes| => NodeSlot(y.nodes[i], y.wire, heard[i])))
  }

  predicate Arrays(y: Net) {
    && (y.wire.Slots? ==> |y.wire.slots| == MAX_TX_NODES_SCHEDULED)
    && forall i :: 0 <= i < |y.nodes| ==> |y.nodes[i].copy.next| == MAX_TX_NODES_SCHEDULED
  }

  ghost predicate NetShaped(y: Net) {
    BusOk(y.bus) && Arrays(y)
  }

  /** What happens between slots: queues change, nodes join, leave or time out. A node that
      leaves forgets its schedule. */
  ghost predicate Between(y: Net, z: Net) {
    && BusOk(z.bus) && z.bus.window == y.bus.window
    && z.bus.sched.numTxNodesScheduled == y.bus.sched.numTxNodesScheduled
    && z.current == y.current && z.resets == y.resets && z.wire == y.wire && |z.nodes| == |y.nodes|
    && forall i :: 0 <= i < |z.nodes| ==>
         z.nodes[i].copy == y.nodes[i].copy || z.nodes[i].copy == Copy(MASTER_NODE_ID, NoSchedule)
  }

  // ---------- agreement ----------

  /** A slot of a node's copy is the master's, or nobody's. */
  predicate NobodyOr(slot: uint8, window: seq<uint8>, i: nat) {
    slot == MASTER_NODE_ID || slot == INVALID_NODE_ID || (i + 1 < |window| && slot == window[i])
  }

  predicate Agrees(n: Node, window: seq<uint8>) {
    && |n.copy.next| == MAX_TX_NODES_SCHEDULED
    && forall i :: 0 <= i < MAX_TX_NODES_SCHEDULED ==> NobodyOr(n.copy.next[i], window, i)
  }

  ghost predicate NetInv(y: Net) {
    && NetShaped(y)
    && (forall i :: 0 <= i < |y.nodes| ==> Agrees(y.nodes[i], y.bus.window))
    && (y.wire.Slots? ==> y.resets == 0 && y.wire.slots == Padded(y.bus.window))
    && (y.resets > 0 ==> forall j :: 0 <= j < |y.bus.window| ==> y.bus.window[j] == MASTER_NODE_ID)
  }

  lemma WindowMoves(b: Bus, resets: nat, level: nat)
    requires BusOk(b)
    requires resets > 0 ==> forall j :: 0 <= j < |b.window| ==> b.window[j] == MASTER_NODE_ID
    ensures var (current, c) := MasterSlot(b, resets, level);
      && BusOk(c) && |c.window| == |b.window| && current == b.window[0]
      && (forall j :: 0 <= j < |b.window| - 1 ==> c.window[j] == b.window[j + 1])
      && (resets > 0 ==> forall j :: 0 <= j < |c.window| ==> c.window[j] == MASTER_NODE_ID)
  {
    hide ScheduleNext;
    if resets == 0 {
      var c := After(b, level);
      var (w, s) := UpdateWindow(b.sched, b.window, level);
      assert w[..|w| - 1] == b.window[1..];
      forall j | 0 <= j < |b.window| - 1 ensures w[j] == b.window[j + 1] {
        assert w[..|w| - 1][j] == b.window[1..][j];
      }
    }
  }

  /** One node through one slot: it takes the slot for the master's, for its own only if
      the master meant it, or for nobody's. */
  lemma NodeSlotAgrees(n: Node, wire: Wire, heard: bool, before: seq<uint8>, after: seq<uint8>)
    requires Agrees(n, before) && 1 <= |before| == |after| <= MAX_TX_NODES_SCHEDULED
    requires wire.Slots? ==> wire.slots == Padded(before)
    requires forall j :: 0 <= j < |before| - 1 ==> after[j] == before[j + 1]
    ensures var m := NodeSlot(n, wire, heard);
      && Agrees(m, after)
      && (m.copy.current == before[0] || m.copy.current == MASTER_NODE_ID || m.copy.current == INVALID_NODE_ID)
      && (heard && wire.Slots? ==> m.copy.current == before[0])
  {
    var m := NodeSlot(n, wire, heard);
    forall i | 0 <= i < MAX_TX_NODES_SCHEDULED ensures NobodyOr(m.copy.next[i], after, i) {
      if i < 3 {
        assert NobodyOr(n.copy.next[i + 1], before, i + 1);
      }
    }
    assert NobodyOr(n.copy.next[0], before, 0);
  }

  predicate AgreesNow(y: Net, i: nat)
    requires i < |y.nodes|
  {
    y.nodes[i].copy.current == y.current || y.nodes[i].copy.current == MASTER_NODE_ID
    || y.nodes[i].copy.current == INVALID_NODE_ID
  }

  lemma SlotKeepsInv(y: Net, level: nat, heard: seq<bool>)
    requires NetInv(y) && |heard| == |y.nodes|
    ensures var z := Slot(y, level, heard);
      && NetInv(z) && |z.nodes| == |y.nodes|
      && forall i :: 0 <= i < |z.nodes| ==>
           AgreesNow(z, i) && (heard[i] && y.wire.Slots? ==> z.nodes[i].copy.current == z.current)
  {
    hide ScheduleNext, MasterSlot, UpdateWindow;
    var resets := if y.resets > 0 then y.resets - 1 else 0;
    WindowMoves(y.bus, resets, level);
    var z := Slot(y, level, heard);
    forall i | 0 <= i < |z.nodes|
      ensures Agrees(z.nodes[i], z.bus.window) && AgreesNow(z, i)
      ensures heard[i] && y.wire.Slots? ==> z.nodes[i].copy.current == z.current
    {
      NodeSlotAgrees(y.nodes[i], y.wire, heard[i], y.bus.window, z.bus.window);
    }
  }

  lemma BetweenKeepsInv(y: Net, z: Net)
    requires NetInv(y) && Between(y, z)
    ensures NetInv(z)
  {
    forall i | 0 <= i < |z.nodes| ensures Agrees(z.nodes[i], z.bus.window) {
      assert Agrees(y.nodes[i], y.bus.window);
    }
  }

  /** Successive slots: ys[k] becomes xs[k] through the environment, and xs[k] becomes
      ys[k + 1] in the slot, in which the nodes marked in heard[k] hear the master. */
  ghost predicate NetRun(ys: seq<Net>, xs: seq<Net>, levels: seq<nat>, heard: seq<seq<bool>>) {
    && |ys| == |xs| + 1 && |levels| == |xs| && |heard| == |xs|
    && (forall k :: 0 <= k < |xs| ==> Between(ys[k], xs[k]))
    && (forall k :: 0 <= k < |xs| ==> SlotThen(xs[k], levels[k], heard[k], ys[k + 1]))
  }

  ghost predicate SlotThen(y: Net, level: nat, heard: seq<bool>, z: Net) {
    NetShaped(y) && |heard| == |y.nodes| && z == Slot(y, level, heard)
  }

  /** Power-up: empty schedules everywhere. */
  ghost predicate PowerUp(y: Net) {
    && NetShaped(y) && y.wire == Reset
    && (forall j :: 0 <= j < |y.bus.window| ==> y.bus.window[j] == MASTER_NODE_ID)
    && forall i :: 0 <= i < |y.nodes| ==> y.nodes[i].copy.next == NoSchedule
  }

  lemma {:induction false} RunKeepsInv(ys: seq<Net>, xs: seq<Net>, levels: seq<nat>, heard: seq<seq<bool>>)
    requires NetRun(ys, xs, levels, heard) && PowerUp(ys[0])
    ensures NetInv(ys[|xs|])
    ensures xs != [] ==> forall i :: 0 <= i < |ys[|xs|].nodes| ==> AgreesNow(ys[|xs|], i)
    decreases |xs|
  {
    hide Slot, NetShaped;
    if xs != [] {
      var n := |xs| - 1;
      RunKeepsInv(ys[..n + 1], xs[..n], levels[..n], heard[..n]);
      assert Between(ys[n], xs[n]) && SlotThen(xs[n], levels[n], heard[n], ys[n + 1]);
      BetweenKeepsInv(ys[n], xs[n]);
      SlotKeepsInv(xs[n], levels[n], heard[n]);
    } else {
      PowerUpInv(ys[0]);
    }
  }

  lemma PowerUpInv(y: Net)
    requires PowerUp(y)
    ensures NetInv(y)
  {
  }

  /** A node transmits in its own slot (nodeDualChannelPipelinedPreProcess). */
  predicate Transmits(n: Node) {
    Joined(n) && n.copy.current == n.nodeId
  }

  predicate DistinctIds(y: Net) {
    && (forall i :: 0 <= i < |y.nodes| && Joined(y.nodes[i]) ==> FIRST_NODE_ID <= y.nodes[i].nodeId < MAX_NODES)
    && forall i, j :: 0 <= i < j < |y.nodes| && Joined(y.nodes[i]) && Joined(y.nodes[j]) ==>
         y.nodes[i].nodeId != y.nodes[j].nodeId
  }

  /** Collision freedom: under any pattern of lost master packets a joined node transmits
      only in the slot the master gave it, so with distinct ids no two ever transmit in
      the same slot. */
  lemma NoCollision(ys: seq<Net>, xs: seq<Net>, levels: seq<nat>, heard: seq<seq<bool>>, i: nat, j: nat)
    requires NetRun(ys, xs, levels, heard) && PowerUp(ys[0]) && xs != []
    requires i < |ys[|xs|].nodes| && j < |ys[|xs|].nodes| && DistinctIds(ys[|xs|])
    requires Transmits(ys[|xs|].nodes[i]) && Transmits(ys[|xs|].nodes[j])
    ensures i == j && ys[|xs|].nodes[i].nodeId == ys[|xs|].current
  {
    RunKeepsInv(ys, xs, levels, heard);
    var y := ys[|xs|];
    assert AgreesNow(y, i) && AgreesNow(y, j);
  }

  // ---------- surviving losses ----------

  /** The first r slots of the copy are the master's own. */
  predicate Exact(n: Node, window: seq<uint8>, r: nat) {
    |n.copy.next| == MAX_TX_NODES_SCHEDULED && r < |window| <= MAX_TX_NODES_SCHEDULED
    && forall i :: 0 <= i < r ==> n.copy.next[i] == window[i]
  }

  /** Hearing a packet gives the exact schedule for as many slots as are scheduled ahead;
      every packet lost after that costs one of them. */
  lemma HeardThenLost(y: Net, level: nat, heard: seq<bool>, i: nat, r: nat)
    requires NetInv(y) && |heard| == |y.nodes| && i < |y.nodes|
    requires if heard[i] then y.wire.Slots? && r + 1 == |y.bus.window| else Exact(y.nodes[i], y.bus.window, r + 1)
    ensures var z := Slot(y, level, heard);
      z.nodes[i].copy.current == z.current && Exact(z.nodes[i], z.bus.window, r)
  {
    hide ScheduleNext, MasterSlot, UpdateWindow;
    WindowMoves(y.bus, if y.resets > 0 then y.resets - 1 else 0, level);
    var z := Slot(y, level, heard);
    forall k | 0 <= k < r ensures z.nodes[i].copy.next[k] == z.bus.window[k] {
      assert z.bus.window[k] == y.bus.window[k + 1];
    }
  }

  /** A node that heard a packet takes exactly the master's slots through the next
      numTxNodesScheduled slots even if it hears nothing more. */
  lemma {:induction false} SurvivesLosses(ys: seq<Net>, levels: seq<nat>, heard: seq<seq<bool>>, i: nat)
    requires |ys| == |levels| + 1 == |heard| + 1 && |levels| > 0 && i < |ys[0].nodes|
    requires NetInv(ys[0]) && forall k :: 0 <= k < |levels| ==> SlotThen(ys[k], levels[k], heard[k], ys[k + 1])
    requires i < |heard[0]| && heard[0][i] && ys[0].wire.Slots?
    requires forall k :: 0 < k < |heard| && i < |heard[k]| ==> !heard[k][i]
    requires |levels| <= |ys[0].bus.window|
    ensures var y := ys[|levels|];
      && NetInv(y) && |y.nodes| == |ys[0].nodes| && |y.bus.window| == |ys[0].bus.window|
      && y.nodes[i].copy.current == y.current && Exact(y.nodes[i], y.bus.window, |y.bus.window| - |levels|)
    decreases |levels|
  {
    hide Slot, NetInv, Exact;
    var n := |levels| - 1;
    if n > 0 { SurvivesLosses(ys[..n + 1], levels[..n], heard[..n], i); }
    assert SlotThen(ys[n], levels[n], heard[n], ys[n + 1]);
    SlotKeepsInv(ys[n], levels[n], heard[n]);
    SlotWidth(ys[n], levels[n], heard[n]);
    HeardThenLost(ys[n], levels[n], heard[n], i, |ys[0].bus.window| - |levels|);
  }

  lemma SlotWidth(y: Net, level: nat, heard: seq<bool>)
    requires NetInv(y) && |heard| == |y.nodes|
    ensures NetShaped(y)
    ensures |Slot(y, level, heard).nodes| == |y.nodes| && |Slot(y, level, heard).bus.window| == |y.bus.window|
  {
    hide ScheduleNext, MasterSlot, UpdateWindow;
    WindowMoves(y.bus, if y.resets > 0 then y.resets - 1 else 0, level);
  }

  // ---------- resets ----------

  /** Whose slots a copy knows of. */
  predicate KnowsNone(n: Node) {
    && |n.copy.next| == MAX_TX_NODES_SCHEDULED
    && (n.copy.current == 0 || n.copy.current == 255)
    && forall i :: 0 <= i < MAX_TX_NODES_SCHEDULED ==> n.copy.next[i] == 0 || n.copy.next[i] == 255
  }

  /** A slot takes a node off the network exactly when it hears a reset, and gives nobody an
      id; a node on the network that hears a reset forgets the whole schedule. */
  lemma SlotLeavesIff(n: Node, wire: Wire, heard: bool)
    requires |n.copy.next| == MAX_TX_NODES_SCHEDULED && (wire.Slots? ==> |wire.slots| == MAX_TX_NODES_SCHEDULED)
    ensures var z := NodeSlot(n, wire, heard);
      && (z.nodeId != 0xFE <==> n.nodeId != 0xFE && !(heard && wire.Reset?))
      && (z.nodeId != 0xFE ==> z.nodeId == n.nodeId)
      && (n.nodeId != 0xFE && heard && wire.Reset? ==> KnowsNone(z))
  {
  }

  /** Between the slots nothing puts node i on the network. */
  ghost predicate NotJoined(ys: seq<Net>, xs: seq<Net>, i: nat, from: nat) {
    forall k :: from <= k < |xs| && k < |ys| && i < |ys[k].nodes| && i < |xs[k].nodes| && xs[k].nodes[i].nodeId != 0xFE ==>
      ys[k].nodes[i].nodeId != 0xFE
  }

  /** A node that heard a reset is off the network and transmits nothing until it joins again,
      whatever it hears and however many slots go by. */
  lemma {:induction false} SilentAfterReset(ys: seq<Net>, xs: seq<Net>, levels: seq<nat>, heard: seq<seq<bool>>, i: nat, k: nat)
    requires NetRun(ys, xs, levels, heard) && k < |xs|
    requires i < |xs[k].nodes| && i < |heard[k]| && xs[k].wire == Reset && heard[k][i] && NotJoined(ys, xs, i, k + 1)
    ensures i < |ys[|xs|].nodes| && ys[|xs|].nodes[i].nodeId == 0xFE && !Transmits(ys[|xs|].nodes[i])
    decreases |xs|
  {
    hide Transmits, NodeSlot, Slot, NetShaped, SlotThen, BusOk;
    var n := |xs| - 1;
    assert SlotThen(xs[n], levels[n], heard[n], ys[n + 1]) && Between(ys[n], xs[n]);
    if k < n {
      assert NotJoined(ys[..n + 1], xs[..n], i, k + 1);
      SilentAfterReset(ys[..n + 1], xs[..n], levels[..n], heard[..n], i, k);
    }
    OffAfterSlot(xs[n], levels[n], heard[n], ys[n + 1], i);
    OffIsSilent(ys[n + 1].nodes[i]);
  }

  lemma OffAfterSlot(y: Net, level: nat, heard: seq<bool>, z: Net, i: nat)
    requires SlotThen(y, level, heard, z) && i < |y.nodes|
    ensures |heard| == |y.nodes| == |z.nodes|
    ensures y.nodes[i].nodeId == 0xFE || (y.wire == Reset && heard[i]) ==> z.nodes[i].nodeId == 0xFE
  {
    hide MasterSlot, BusOk, NodeSlot;
    SlotLeavesIff(y.nodes[i], y.wire, heard[i]);
  }

  lemma OffIsSilent(n: Node)
    requires n.nodeId == 0xFE
    ensures !Transmits(n)
  {
  }

  /** While reset cycles are left the slot is the master's, and so is every one after the
      next, whatever had been scheduled. */
  lemma OnlyMasterDuringReset(b: Bus, resets: nat, level: nat)
    requires b.sched.Valid() && |b.window| == b.sched.numTxNodesScheduled && resets > 0
    ensures var (current, c) := MasterSlot(b, resets, level);
      && current == 0 && c.sched == b.sched && |c.window| == |b.window| && c.window[0] == b.window[0]
      && forall j :: 1 <= j < |c.window| ==> c.window[j] == 0
  {
  }

  /** The reset cycles end: each slot takes one away, and the master sends a reset in a slot
      exactly while some are left. */
  lemma {:induction false} ResetsRunOut(ys: seq<Net>, xs: seq<Net>, levels: seq<nat>, heard: seq<seq<bool>>)
    requires NetRun(ys, xs, levels, heard)
    ensures ys[|xs|].resets == if ys[0].resets > |xs| then ys[0].resets - |xs| else 0
    ensures xs != [] ==> (ys[|xs|].wire == Reset <==> |xs| <= ys[0].resets)
    decreases |xs|
  {
    hide NodeSlot, MasterSlot, BusOk;
    if xs != [] {
      var n := |xs| - 1;
      assert SlotThen(xs[n], levels[n], heard[n], ys[n + 1]) && Between(ys[n], xs[n]);
      ResetsRunOut(ys[..n + 1], xs[..n], levels[..n], heard[..n]);
    }
  }
}
