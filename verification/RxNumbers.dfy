/** The master's table of numbers last accepted, which the transmit manager keeps
    (src/txManager.c) and the receive path moves on (src/masterRx.c). */
module RxNumbers {
  import opened Microbus
  import opened TxSpec
  import opened TxConservation
  import opened RxSpec
  import RxPath

  datatype Master = Master(tx: TxState, rx: RxPath.Receiver)

  datatype Step =
    | Allocates
    | Submits(ttl: uint8, d: uint8, payload: TxSpec.Payload)
    | Polls(d: uint8)
    | HearsAck(d: uint8, ack: uint8)
    | Receives(event: RxPath.Event)

  predicate Enabled(y: Master, step: Step) {
    && y.tx.Shaped() && |y.rx.accepted| == |y.tx.start|
    && match step
       case Allocates => true
       case Submits(_, d, _) => d as int < |y.tx.start| && y.tx.pending.Some? && y.tx.pending.value < |y.tx.entries|
       case Polls(d) => d as int < |y.tx.start|
       case HearsAck(d, _) => d as int < |y.tx.start| && y.tx.start[d] < MAX_SEQUENCE_NUM
       case Receives(event) => RxPath.Enabled(AsMaster, y.rx, event)
  }

  /** The table is one piece of memory: the receive path writes to it when it tests a number,
      and a removal by the transmit manager resets the removed node's entry. */
  function Next(y: Master, step: Step): Master
    requires Enabled(y, step)
  {
    match step
    case Allocates => y.(tx := Allocate(y.tx).0)
    case Submits(ttl, d, payload) => y.(tx := Submit(y.tx, ttl, d, payload))
    case Polls(d) => y.(tx := Poll(y.tx, d).0)
    case HearsAck(d, ack) => y.(tx := Ack(y.tx, d, ack).0)
    case Receives(event) =>
      var rx := RxPath.Apply(AsMaster, y.rx, event);
      if event.NodeRemoved? then Master(RemoveNode(y.tx, event.d).0, rx)
      else Master(y.tx.(rxSeqNum := rx.path.rxSeqNum), rx)
  }

  ghost predicate OneTable(y: Master) {
    && y.tx.Shaped() && |y.rx.accepted| == |y.tx.start| && RxPath.RxInv(AsMaster, y.rx)
    && y.tx.rxSeqNum == y.rx.path.rxSeqNum
  }

  lemma SendingKeepsTable(y: Master, step: Step)
    requires OneTable(y) && Enabled(y, step) && !step.Receives?
    ensures OneTable(Next(y, step))
  {
    hide RxPath.RxInv, Find, LowestFree, FreeUpTo, RxPath.Enabled;
    if step.HearsAck? { SendingKeepsNumbers(y.tx, step.d, 0, [], step.ack); }
  }

  lemma ReceivingKeepsTable(y: Master, event: RxPath.Event)
    requires OneTable(y) && Enabled(y, Receives(event))
    ensures OneTable(Next(y, Receives(event)))
  {
    hide RxPath.RxInv, RxPath.Enabled, RxPath.Apply, RemoveNode;
    RxPath.EventKeepsInv(AsMaster, y.rx, event);
    RxPath.ApplyFormed(AsMaster, y.rx, event);
    RxFormed(RxPath.Apply(AsMaster, y.rx, event));
    if event.NodeRemoved? { RemovalAgrees(y, event.d); }
  }

  /** Both modules reset the removed node's number. */
  lemma RemovalAgrees(y: Master, d: uint8)
    requires OneTable(y) && Enabled(y, Receives(RxPath.NodeRemoved(d)))
    ensures d as int < |y.tx.start|
    ensures var t := RemoveNode(y.tx, d).0;
      && t.Shaped() && |t.start| == |y.tx.start|
      && t.rxSeqNum == RxPath.Apply(AsMaster, y.rx, RxPath.NodeRemoved(d)).path.rxSeqNum
  {
    hide RxPath.RxInv, FreeNode, CountNode, RemoveAll, Store.Line, Store.InRing, Store.Shaped, RxPath.SenderKnown;
    RxFormed(y.rx);
  }

  lemma RxFormed(y: RxPath.Receiver)
    requires RxPath.RxInv(AsMaster, y)
    ensures |y.accepted| == |y.path.rxSeqNum|
  {
  }

  ghost predicate IsRun(ys: seq<Master>, steps: seq<Step>) {
    && |ys| == |steps| + 1
    && forall k :: 0 <= k < |steps| ==> Enabled(ys[k], steps[k]) && ys[k + 1] == Next(ys[k], steps[k])
  }

  function Start(numDst: nat, memory: seq<TxSpec.Packet>, size: nat): Master
    requires size > 0
  {
    Master(Init(true, numDst, memory), RxPath.Start(size, numDst))
  }

  lemma {:induction false} RunKeepsTable(ys: seq<Master>, steps: seq<Step>, numDst: nat, memory: seq<TxSpec.Packet>, size: nat)
    requires IsRun(ys, steps) && 2 < size <= 255 && ys[0] == Start(numDst, memory, size)
    ensures OneTable(ys[|steps|])
    decreases |steps|
  {
    hide OneTable, Next, Enabled;
    if steps == [] {
      StartHasTable(numDst, memory, size);
    } else {
      var n := |steps| - 1;
      RunKeepsTable(ys[..n + 1], steps[..n], numDst, memory, size);
      assert Enabled(ys[n], steps[n]) && ys[n + 1] == Next(ys[n], steps[n]);
      if steps[n].Receives? { ReceivingKeepsTable(ys[n], steps[n].event); } else { SendingKeepsTable(ys[n], steps[n]); }
    }
  }

  lemma StartHasTable(numDst: nat, memory: seq<TxSpec.Packet>, size: nat)
    requires 2 < size <= 255
    ensures OneTable(Start(numDst, memory, size))
  {
    RxPath.StartEstablishesInv(AsMaster, size, numDst);
    hide RxPath.RxInv;
  }

  /** In every run of the master, the number it acknowledges to a node is that of the packets
      it accepted from the node since it last joined, whatever was sent, removed or received
      from others in the meantime. */
  lemma AcknowledgedIsAccepted(ys: seq<Master>, steps: seq<Step>, numDst: nat, memory: seq<TxSpec.Packet>, size: nat, d: nat)
    requires IsRun(ys, steps) && 2 < size <= 255 && ys[0] == Start(numDst, memory, size)
    requires d < |ys[|steps|].tx.rxSeqNum|
    ensures d < |ys[|steps|].rx.accepted|
    ensures ys[|steps|].tx.rxSeqNum[d] == AckNumber(|ys[|steps|].rx.accepted[d]|)
  {
    RunKeepsTable(ys, steps, numDst, memory, size);
    assert RxPath.Accounted(AsMaster, ys[|steps|].rx, d);
  }
}
