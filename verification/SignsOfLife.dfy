/** Which packets keep a node on the network (src/masterRx.c). */
module SignsOfLife {
  import opened Microbus
  import opened Membership
  import opened RxSpec

  /** What a received packet does to the master's table. */
  function Refreshed(m: Members, p: RxPacket, crcError: bool): Members
    requires |m.ttl| == MAX_NODES && (FromNode(p) ==> p.srcNodeId as int < MAX_NODES)
  {
    if Accepts(AsMaster, p, crcError) && FromNode(p) then HeardBy(m, p.srcNodeId) else m
  }

  /** Data and empty packets of a node on the network, of fewer than 178 bytes and with their
      check passed, fill up its count; nothing else does, for no other node, and no packet
      brings a node onto the network. */
  lemma SignOfLifeIff(m: Members, p: RxPacket, crcError: bool, id: nat)
    requires MembersInv(m) && 1 <= id < 64 && (FromNode(p) ==> 1 <= p.srcNodeId < 64)
    ensures var z := Refreshed(m, p, crcError);
      var sign := !crcError && (p.versionAndType == 0x12 || p.versionAndType == 0x14) && p.dataSize < 178 && p.srcNodeId as int == id;
      && MembersInv(z)
      && z.ttl[id] == (if sign && m.ttl[id] > 0 then 128 else m.ttl[id])
      && (forall e :: e in z.joins && e.nodeId as int == id ==> !sign && e in m.joins)
      && (forall e :: e in m.joins && e.nodeId as int == id && !sign ==> e in z.joins)
  {
    if Accepts(AsMaster, p, crcError) && FromNode(p) {
      if Live(m, p.srcNodeId) {
        HeardKeepsInv(m, p.srcNodeId);
        HeardCompletesJoin(m, p.srcNodeId);
      }
    }
  }
}
