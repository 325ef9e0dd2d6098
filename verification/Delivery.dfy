/** End-to-end delivery: one transmit manager, a receiver for each destination, and
    between them first-in first-out channels that may lose any packet or acknowledgement.
    A bus slot carries at most one packet each way, so order is kept and loss is the only
    fault. */
module Delivery {
  import opened Microbus
  import opened TxSpec
  import opened TxInvariant
  import opened TxConservation

  /** A data packet in flight. `index` and `horizon` record, for the proof, its position
      among the submitted packets and how many were submitted when it was sent; no step
      looks at them. */
  datatype DataMsg = DataMsg(seqNum: uint8, payload: Payload, index: nat, horizon: nat)

  /** An acknowledgement in flight; `count` records what had been accepted. */
  datatype AckMsg = AckMsg(seqNum: uint8, count: nat)

  /** One receiver: which end of the bus it is, the number it accepted last, what it
      accepted, its two channels, and whether a failed assertion has stopped it. */
  datatype Peer = Peer(isMaster: bool, rxSeqNum: uint8, delivered: seq<Payload>, data: seq<DataMsg>, acks: seq<AckMsg>,
                       stopped: bool)

  datatype System = System(tx: TxState, flows: seq<Flow>, peers: seq<Peer>)

  datatype Step =
    | Allocate
    | Submit(d: uint8, payload: Payload)
    | Poll(d: uint8)
    | LoseData(d: uint8, i: nat)
    | DeliverData(d: uint8)
    | SendAck(d: uint8)
    | LoseAck(d: uint8, i: nat)
    | DeliverAck(d: uint8)

  function NewPeer(isMaster: bool): Peer {
    Peer(isMaster, NULL_SEQUENCE_NUM, [], [], [], false)
  }

  function Start(isMaster: bool, numDst: nat, memory: seq<Packet>, windowWrap: nat := WINDOW_WRAP): System {
    System(Init(isMaster, numDst, memory, windowWrap), seq(numDst, _ => EmptyFlow), seq(numDst, _ => NewPeer(!isMaster)))
  }

  ghost predicate SystemInv(y: System) {
    && Inv(y.tx, y.flows)
    && |y.peers| == |y.flows|
    && forall d :: 0 <= d < |y.peers| ==> PeerOk(y.flows[d], y.peers[d]) && y.peers[d].isMaster == !y.tx.isMaster
  }

  ghost predicate MsgOk(f: Flow, p: Peer, m: DataMsg) {
    && m.index < m.horizon <= |f.sent|
    && |p.delivered| <= m.horizon <= m.index + MAX_STORE
    && m.seqNum == m.index % MAX_SEQUENCE_NUM
    && m.payload == f.sent[m.index]
    && (!p.isMaster ==> |m.payload| < MAX_PACKET_DATA_SIZE)
  }

  ghost predicate AckOk(f: Flow, p: Peer, a: AckMsg) {
    f.base <= a.count <= |p.delivered| && a.seqNum == AckNumber(a.count)
  }

  /** What a receiver can have accepted: an empty packet only if that stopped it. */
  predicate SizeOk(payload: Payload, stopped: bool) {
    |payload| < MAX_PACKET_DATA_SIZE && (|payload| == 0 ==> stopped)
  }

  ghost predicate PeerOk(f: Flow, p: Peer) {
    && p.rxSeqNum == AckNumber(|p.delivered|)
    && f.base <= |p.delivered| <= |f.sent| <= f.base + MAX_STORE
    && p.delivered == f.sent[..|p.delivered|]
    && (forall i :: 0 <= i < |p.delivered| ==> SizeOk(p.delivered[i], p.stopped))
    && (forall i :: 0 <= i < |p.data| ==> MsgOk(f, p, p.data[i]))
    && (forall i, j :: 0 <= i < j < |p.data| ==> p.data[i].horizon <= p.data[j].horizon)
    && (forall i :: 0 <= i < |p.acks| ==> AckOk(f, p, p.acks[i]))
    && (forall i, j :: 0 <= i < j < |p.acks| ==> p.acks[i].count <= p.acks[j].count)
  }

  /** The bounds every array access of the code relies on. */
  predicate Formed(y: System) {
    && y.tx.Shaped() && |y.flows| == |y.peers| == |y.tx.start|
    && (y.tx.pending.Some? ==> y.tx.pending.value < |y.tx.entries|)
    && forall d :: 0 <= d < |y.tx.start| ==> y.tx.start[d] < MAX_SEQUENCE_NUM
  }

  /** The master asserts that a packet it is about to send is below the maximum size. */
  predicate PollAsserts(tx: TxState, d: uint8)
    requires tx.Shaped() && d as int < |tx.start|
  {
    var r := TxSpec.Poll(tx, d).1;
    tx.isMaster && r.Some? ==> |tx.entries[r.value].packet.payload| < MAX_PACKET_DATA_SIZE
  }

  /** Whether the step can be taken. Room in the queue of active destinations is the
      source's own condition on allocation; the bound on sizes is asserted on submission.
      A failed assertion stops a device for good. */
  predicate Enabled(y: System, step: Step) {
    && Formed(y)
    && match step
       case Allocate => y.tx.pending.None? && (y.tx.isMaster ==> |y.tx.active.ids| < MAX_NODES)
       case Submit(d, payload) =>
         d as int < |y.flows| && y.tx.pending.Some? && (y.tx.isMaster ==> |y.tx.active.ids| < MAX_NODES)
         && |payload| <= MAX_PACKET_DATA_SIZE
       case Poll(d) => d as int < |y.flows| && PollAsserts(y.tx, d)
       case LoseData(d, i) => d as int < |y.flows| && i < |y.peers[d].data|
       case DeliverData(d) => d as int < |y.flows| && y.peers[d].data != []
       case SendAck(d) => d as int < |y.flows|
       case LoseAck(d, i) => d as int < |y.flows| && i < |y.peers[d].acks|
       case DeliverAck(d) => d as int < |y.flows| && y.peers[d].acks != []
  }

  /** A packet handed out by a poll goes to the destination in its header. */
  function Transmit(y: System, d: uint8): System
    requires Formed(y) && d as int < |y.flows|
  {
    var (t, r) := TxSpec.Poll(y.tx, d);
    var f := y.flows[d];
    var gs := y.flows[d := PolledFlow(f, y.tx.pause[d], y.tx.windowWrap)];
    if r.None? || y.tx.DstOf(r.value) as int >= |y.peers| then y.(tx := t, flows := gs)
    else
      var e := y.tx.entries[r.value].packet;
      var dst := y.tx.DstOf(r.value);
      var m := DataMsg(e.txSeqNum, e.payload, f.next, |f.sent|);
      System(t, gs, y.peers[dst := y.peers[dst].(data := y.peers[dst].data + [m])])
  }

  /** The master drops a packet of the maximum size before it looks at its number. */
  predicate Takes(p: Peer, payload: Payload) {
    !p.stopped && (p.isMaster ==> |payload| < MAX_PACKET_DATA_SIZE)
  }

  /** A receiver with room tests the number of the packet that arrives and takes the packet
      when it is the expected one; without room the packet counts as lost. An empty packet
      fails an assertion: at the master when it was accepted, at a node in any case. The
      acknowledgement prepared before that still goes out. */
  function Arrive(p: Peer): Peer
    requires p.data != []
  {
    var m := p.data[0];
    var rest := p.(data := p.data[1..]);
    if !Takes(p, m.payload) then rest
    else
      var (rx, ok) := Receive(p.rxSeqNum, m.seqNum);
      rest.(rxSeqNum := rx, delivered := if ok then p.delivered + [m.payload] else p.delivered,
            stopped := |m.payload| == 0 && (ok || !p.isMaster))
  }

  function Apply(y: System, step: Step): System
    requires Enabled(y, step)
  {
    match step
    case Allocate => y.(tx := TxSpec.Allocate(y.tx).0)
    case Submit(d, payload) =>
      System(TxSpec.Submit(y.tx, 1, d, payload),
             y.flows[d := SubmittedFlow(y.flows[d], payload, y.tx.pending.value)], y.peers)
    case Poll(d) => Transmit(y, d)
    case LoseData(d, i) => y.(peers := y.peers[d := y.peers[d].(data := Drop(y.peers[d].data, i))])
    case DeliverData(d) => y.(peers := y.peers[d := Arrive(y.peers[d])])
    case SendAck(d) =>
      var p := y.peers[d];
      y.(peers := y.peers[d := p.(acks := p.acks + [AckMsg(p.rxSeqNum, |p.delivered|)])])
    case LoseAck(d, i) => y.(peers := y.peers[d := y.peers[d].(acks := Drop(y.peers[d].acks, i))])
    case DeliverAck(d) =>
      var a := y.peers[d].acks[0];
      System(Ack(y.tx, d, a.seqNum).0,
             y.flows[d := AckOutcome(y.tx, y.flows[d], d, a.seqNum)],
             y.peers[d := y.peers[d].(acks := y.peers[d].acks[1..])])
  }

  /** The bounds hold in every state that satisfies the invariant, so they never disable
      a step of a run. */
  lemma InvFormed(y: System)
    requires SystemInv(y)
    ensures Formed(y)
  {
    forall d | 0 <= d < |y.tx.start| ensures y.tx.start[d] < MAX_SEQUENCE_NUM {
      assert WindowOk(y.tx, y.flows[d], d);
    }
  }

  // ---------- one step ----------

  lemma SubmitKeepsPeer(f: Flow, p: Peer, payload: Payload, slot: nat)
    requires PeerOk(f, p) && |f.sent| + 1 <= f.base + MAX_STORE
    ensures PeerOk(SubmittedFlow(f, payload, slot), p)
  {
    var g := SubmittedFlow(f, payload, slot);
    forall i | 0 <= i < |p.data| ensures MsgOk(g, p, p.data[i]) {
      assert MsgOk(f, p, p.data[i]);
    }
    forall i | 0 <= i < |p.acks| ensures AckOk(g, p, p.acks[i]) {
      assert AckOk(f, p, p.acks[i]);
    }
  }

  lemma TransmitKeepsPeer(f: Flow, p: Peer, m: DataMsg)
    requires PeerOk(f, p) && f.base <= f.next < |f.sent|
    requires m == DataMsg(f.next % MAX_SEQUENCE_NUM, f.sent[f.next], f.next, |f.sent|)
    requires !p.isMaster ==> |m.payload| < MAX_PACKET_DATA_SIZE
    ensures PeerOk(f.(next := f.next + 1), p.(data := p.data + [m]))
  {
    var g, q := f.(next := f.next + 1), p.(data := p.data + [m]);
    forall i | 0 <= i < |q.data| ensures MsgOk(g, q, q.data[i]) {
      if i < |p.data| { assert MsgOk(f, p, p.data[i]); }
    }
    forall i, j | 0 <= i < j < |q.data| ensures q.data[i].horizon <= q.data[j].horizon {
      assert MsgOk(f, p, p.data[i]);
    }
    forall i | 0 <= i < |q.acks| ensures AckOk(g, q, q.acks[i]) {
      assert AckOk(f, p, p.acks[i]);
    }
  }

  /** The heart of the matter: although numbers come round again every 255 packets, the
      packet that arrives carries the expected number exactly when it is the next one. */
  lemma ArrivalIsNext(f: Flow, p: Peer)
    requires PeerOk(f, p) && p.data != []
    ensures p.data[0].seqNum == Expected(p.rxSeqNum) <==> p.data[0].index == |p.delivered|
  {
    var m := p.data[0];
    assert MsgOk(f, p, m);
    var n := |p.delivered|;
    assert Expected(p.rxSeqNum) == n % MAX_SEQUENCE_NUM by {
      if n > 0 { AckNumberFollows(n); }
    }
    if m.seqNum == Expected(p.rxSeqNum) { SameResidue(m.index, n); }
  }

  lemma ArriveKeepsPeer(f: Flow, p: Peer)
    requires PeerOk(f, p) && p.data != []
    ensures PeerOk(f, Arrive(p)) && Arrive(p).isMaster == p.isMaster
    ensures Arrive(p).delivered ==
      if p.data[0].index == |p.delivered| && Takes(p, p.data[0].payload) then p.delivered + [f.sent[|p.delivered|]]
      else p.delivered
  {
    ArrivalIsNext(f, p);
    var m, q := p.data[0], Arrive(p);
    assert MsgOk(f, p, m);
    forall i | 0 <= i < |q.data| ensures MsgOk(f, q, q.data[i]) {
      assert MsgOk(f, p, p.data[i + 1]);
      assert m.horizon <= p.data[i + 1].horizon;
    }
    forall i | 0 <= i < |q.acks| ensures AckOk(f, q, q.acks[i]) {
      assert AckOk(f, p, p.acks[i]);
    }
  }

  lemma LoseDataKeepsPeer(f: Flow, p: Peer, i: nat)
    requires PeerOk(f, p) && i < |p.data|
    ensures PeerOk(f, p.(data := Drop(p.data, i)))
  {
    var q := p.(data := Drop(p.data, i));
    forall k | 0 <= k < |q.data| ensures MsgOk(f, q, q.data[k]) {
      assert MsgOk(f, p, p.data[if k < i then k else k + 1]);
    }
    forall k | 0 <= k < |q.acks| ensures AckOk(f, q, q.acks[k]) {
      assert AckOk(f, p, p.acks[k]);
    }
  }

  lemma AcksKeepPeer(f: Flow, p: Peer, acks: seq<AckMsg>)
    requires PeerOk(f, p)
    requires forall i :: 0 <= i < |acks| ==> AckOk(f, p, acks[i])
    requires forall i, j :: 0 <= i < j < |acks| ==> acks[i].count <= acks[j].count
    ensures PeerOk(f, p.(acks := acks))
  {
    var q := p.(acks := acks);
    forall i | 0 <= i < |q.data| ensures MsgOk(f, q, q.data[i]) {
      assert MsgOk(f, p, p.data[i]);
    }
    forall i | 0 <= i < |acks| ensures AckOk(f, q, acks[i]) {
      assert AckOk(f, p, acks[i]);
    }
  }

  lemma SentAckOk(f: Flow, p: Peer)
    requires PeerOk(f, p)
    ensures var acks := p.acks + [AckMsg(p.rxSeqNum, |p.delivered|)];
      && (forall i :: 0 <= i < |acks| ==> AckOk(f, p, acks[i]))
      && forall i, j :: 0 <= i < j < |acks| ==> acks[i].count <= acks[j].count
  {
    assert forall i :: 0 <= i < |p.acks| ==> AckOk(f, p, p.acks[i]);
  }

  lemma LostAckOk(f: Flow, p: Peer, i: nat)
    requires PeerOk(f, p) && i < |p.acks|
    ensures var acks := Drop(p.acks, i);
      && (forall k :: 0 <= k < |acks| ==> AckOk(f, p, acks[k]))
      && forall k, m :: 0 <= k < m < |acks| ==> acks[k].count <= acks[m].count
  {
    hide Drop, AckOk, MsgOk;
    forall k: nat | k < |p.acks| - 1 ensures Drop(p.acks, i)[k] == p.acks[if k < i then k else k + 1] {
      DropAt(p.acks, i, k);
    }
  }

  /** Acknowledging no more than was accepted, and no more than later acknowledgements do. */
  lemma BaseKeepsPeer(f: Flow, p: Peer, g: Flow)
    requires PeerOk(f, p) && p.acks != []
    requires g.sent == f.sent && g.base == p.acks[0].count
    ensures PeerOk(g, p.(acks := p.acks[1..]))
  {
    var q := p.(acks := p.acks[1..]);
    assert AckOk(f, p, p.acks[0]);
    forall i | 0 <= i < |q.data| ensures MsgOk(g, q, q.data[i]) {
      assert MsgOk(f, p, p.data[i]);
    }
    forall i | 0 <= i < |q.acks| ensures AckOk(g, q, q.acks[i]) {
      assert AckOk(f, p, p.acks[i + 1]);
    }
  }

  lemma OthersKeep(fs: seq<Flow>, ps: seq<Peer>, gs: seq<Flow>, qs: seq<Peer>, d: nat)
    requires |fs| == |ps| && d < |fs|
    requires forall e :: 0 <= e < |ps| ==> PeerOk(fs[e], ps[e])
    requires |gs| == |fs| && |qs| == |ps| && PeerOk(gs[d], qs[d])
    requires forall e :: 0 <= e < |fs| && e != d ==> gs[e] == fs[e] && qs[e] == ps[e]
    ensures forall e :: 0 <= e < |qs| ==> PeerOk(gs[e], qs[e])
  {
  }

  lemma SubmitStepKeepsInv(y: System, d: uint8, payload: Payload)
    requires SystemInv(y) && Enabled(y, Submit(d, payload))
    ensures SystemInv(Apply(y, Submit(d, payload)))
  {
    var z := Apply(y, Submit(d, payload));
    SubmitKeepsInv(y.tx, y.flows, 1, d, payload);
    SubmitFitsStore(y.tx, y.flows, d);
    assert FlowStored(y.tx, y.flows[d], d);
    SubmitKeepsPeer(y.flows[d], y.peers[d], payload, y.tx.pending.value);
    OthersKeep(y.flows, y.peers, z.flows, z.peers, d);
  }

  lemma PollStepKeepsInv(y: System, d: uint8)
    requires SystemInv(y) && Enabled(y, Poll(d))
    ensures SystemInv(Apply(y, Poll(d))) && |Apply(y, Poll(d)).flows| == |y.flows|
  {
    hide Inv;
    var z := Apply(y, Poll(d));
    PollRefines(y.tx, y.flows, d);
    PollKeepsInv(y.tx, y.flows, d);
    var f := y.flows[d];
    if CanSend(f, y.tx.pause[d], y.tx.windowWrap) {
      TransmitKeepsPeer(f, y.peers[d], DataMsg(f.next % MAX_SEQUENCE_NUM, f.sent[f.next], f.next, |f.sent|));
    }
    OthersKeep(y.flows, y.peers, z.flows, z.peers, d);
  }

  lemma DeliverAckKeepsInv(y: System, d: uint8)
    requires SystemInv(y) && Enabled(y, DeliverAck(d))
    ensures SystemInv(Apply(y, DeliverAck(d)))
  {
    hide Inv, MsgOk, Ack, AckOutcome, SizeOk;
    var z := Apply(y, DeliverAck(d));
    var f, p := y.flows[d], y.peers[d];
    var a := p.acks[0];
    assert AckOk(f, p, a);
    AckKeepsInv(y.tx, y.flows, d, a.seqNum);
    AckOutcomeOfCount(y.tx, y.flows, d, a.count);
    BaseKeepsPeer(f, p, z.flows[d]);
    OthersKeep(y.flows, y.peers, z.flows, z.peers, d);
  }

  /** A step that changes one receiver or its channels. */
  lemma PeerStepKeepsInv(y: System, d: uint8, q: Peer)
    requires SystemInv(y) && d as int < |y.peers| && PeerOk(y.flows[d], q) && q.isMaster == y.peers[d].isMaster
    ensures SystemInv(y.(peers := y.peers[d := q]))
  {
    hide Inv, PeerOk;
  }

  lemma AllocateStepKeepsInv(y: System)
    requires SystemInv(y) && Enabled(y, Allocate)
    ensures SystemInv(Apply(y, Allocate))
  {
    AllocateKeepsInv(y.tx, y.flows);
    hide Inv, PeerOk, LowestFree;
  }

  lemma PeersOk(y: System, d: uint8)
    requires SystemInv(y) && d as int < |y.peers|
    ensures |y.flows| == |y.peers| && PeerOk(y.flows[d], y.peers[d])
  {
  }

  lemma StepKeepsInv(y: System, step: Step)
    requires SystemInv(y) && Enabled(y, step)
    ensures SystemInv(Apply(y, step)) && |Apply(y, step).flows| == |y.flows|
  {
    hide SystemInv, PeerOk, MsgOk, Transmit, Arrive, Ack, AckOutcome, TxSpec.Submit, SubmittedFlow;
    match step
    case Allocate => AllocateStepKeepsInv(y);
    case Submit(d, payload) => SubmitStepKeepsInv(y, d, payload);
    case Poll(d) => PollStepKeepsInv(y, d);
    case LoseData(d, i) =>
      PeersOk(y, d);
      LoseDataKeepsPeer(y.flows[d], y.peers[d], i);
      PeerStepKeepsInv(y, d, y.peers[d].(data := Drop(y.peers[d].data, i)));
    case DeliverData(d) =>
      PeersOk(y, d);
      ArriveKeepsPeer(y.flows[d], y.peers[d]);
      PeerStepKeepsInv(y, d, Arrive(y.peers[d]));
    case SendAck(d) =>
      var p := y.peers[d];
      var acks := p.acks + [AckMsg(p.rxSeqNum, |p.delivered|)];
      PeersOk(y, d);
      SentAckOk(y.flows[d], p);
      AcksKeepPeer(y.flows[d], p, acks);
      PeerStepKeepsInv(y, d, p.(acks := acks));
    case LoseAck(d, i) =>
      PeersOk(y, d);
      LostAckOk(y.flows[d], y.peers[d], i);
      AcksKeepPeer(y.flows[d], y.peers[d], Drop(y.peers[d].acks, i));
      PeerStepKeepsInv(y, d, y.peers[d].(acks := Drop(y.peers[d].acks, i)));
    case DeliverAck(d) => DeliverAckKeepsInv(y, d);
  }
}
