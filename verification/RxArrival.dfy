/** The receiver that Delivery speaks of is the receive path. */
module RxArrival {
  import opened Microbus
  import opened RxSpec
  import opened RxStore
  import opened RxPath
  import Delivery

  /** The receiver of Delivery is this receive path: a data packet with the right header that
      passed its check and finds room in the queue is an arrival there, the dropping of
      full-size packets included; any other way it counts as lost. The receiver stops there
      exactly when the assertion of its processing fails here. */
  lemma SlotIsArrival(role: Role, y: Receiver, crcError: bool, peer: Delivery.Peer, d: nat)
    requires RxInv(role, y) && Enabled(role, y, SlotStart(crcError)) && d < |y.accepted|
    requires var p := y.path.rx.packets[y.path.next];
      && p.versionAndType % 16 == (if role.AsMaster? then 2 else 1) && (role.AsNode? ==> role.nodeId != 0xFE)
      && d == (if role.AsMaster? then p.srcNodeId as int else 0) && p.dataSize == |p.payload|
      && peer.data != [] && peer.data[0].seqNum == p.txSeqNum && peer.data[0].payload == p.payload
    requires peer.isMaster == role.AsMaster? && !peer.stopped
    requires peer.rxSeqNum == y.path.rxSeqNum[d] && peer.delivered == y.accepted[d]
    ensures var z, p := Apply(role, y, SlotStart(crcError)), y.path.rx.packets[y.path.next];
      var arrives := !crcError && p.versionAndType / 16 == 1 && (role.AsNode? ==> p.dstNodeId == role.nodeId) && !y.path.rx.Full();
      var after := if arrives then Delivery.Arrive(peer) else peer;
      && z.path.rxSeqNum[d] == after.rxSeqNum && z.accepted[d] == after.delivered
      && (after.stopped <==> !ProcessAsserts(role, z.path))
  {
    hide Store.Line, Store.InRing, SenderKnown;
    assert Accounted(role, y, d);
    ReceiveNext(|y.accepted[d]|, y.path.rx.packets[y.path.next].txSeqNum);
    FreeEntryIff(y.path.rx, y.path.next);
  }
}
