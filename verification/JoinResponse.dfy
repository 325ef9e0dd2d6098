/** The packet that tells nodes their ids (src/networkManager.c): an entry of nine bytes for
    each pending join, the unique id in little-endian order and then the node id. */
module JoinResponse {
  import opened Microbus
  import opened Membership

  const NEW_NODE_RESPONSE_ENTRY_SIZE := 9
  const MASTER_PACKET_DATA_SIZE := MAX_PACKET_DATA_SIZE

  /** The low n bytes of a number, lowest first. */
  function ToBytes(x: nat, n: nat): (r: seq<uint8>)
    ensures |r| == n
  {
    if n == 0 then [] else [x % 256] + ToBytes(x / 256, n - 1)
  }

  function FromBytes(b: seq<uint8>): nat {
    if b == [] then 0 else b[0] + 256 * FromBytes(b[1..])
  }

  function Pow256(n: nat): nat {
    if n == 0 then 1 else 256 * Pow256(n - 1)
  }

  lemma {:induction false} BytesRoundTrip(x: nat, n: nat)
    requires x < Pow256(n)
    ensures FromBytes(ToBytes(x, n)) == x
  {
    if n > 0 {
      BytesRoundTrip(x / 256, n - 1);
      assert ToBytes(x, n)[1..] == ToBytes(x / 256, n - 1);
    }
  }

  lemma EightBytes()
    ensures Pow256(8) == 0x1_0000_0000_0000_0000
  {
    assert Pow256(4) == 0x1_0000_0000;
  }

  lemma UniqueIdRoundTrip(x: uint64)
    ensures FromBytes(ToBytes(x, 8)) == x
  {
    EightBytes();
    BytesRoundTrip(x, 8);
  }

  function EntryBytes(e: Join): (r: seq<uint8>)
    ensures |r| == NEW_NODE_RESPONSE_ENTRY_SIZE
  {
    ToBytes(e.uniqueId, 8) + [e.nodeId]
  }

  /** txNewNodeResponse: the data of the packet. */
  function Encode(joins: seq<Join>): (r: seq<uint8>)
    ensures |r| == NEW_NODE_RESPONSE_ENTRY_SIZE * |joins|
  {
    if joins == [] then [] else Encode(joins[..|joins| - 1]) + EntryBytes(joins[|joins| - 1])
  }

  /** The size field holds the size as two bytes. */
  function SizeField(size: nat): (uint8, uint8) {
    ((size / 256) % 256, size % 256)
  }

  function SizeOf(dataSize1: uint8, dataSize2: uint8): nat {
    dataSize1 * 256 + dataSize2
  }

  function UniqueIdAt(data: seq<uint8>, i: nat): nat
    requires NEW_NODE_RESPONSE_ENTRY_SIZE * (i + 1) <= |data|
  {
    FromBytes(data[NEW_NODE_RESPONSE_ENTRY_SIZE * i..NEW_NODE_RESPONSE_ENTRY_SIZE * i + 8])
  }

  function NodeIdAt(data: seq<uint8>, i: nat): uint8
    requires NEW_NODE_RESPONSE_ENTRY_SIZE * (i + 1) <= |data|
  {
    data[NEW_NODE_RESPONSE_ENTRY_SIZE * i + 8]
  }

  /** rxNewNodePacketResponse from its i-th entry on: the id for a unique id, if the packet
      has one. */
  function Decode(data: seq<uint8>, n: nat, uniqueId: uint64, i: nat := 0): Option<uint8>
    requires i <= n && NEW_NODE_RESPONSE_ENTRY_SIZE * n <= |data|
    decreases n - i
  {
    if i == n then None
    else if UniqueIdAt(data, i) == uniqueId then Some(NodeIdAt(data, i))
    else Decode(data, n, uniqueId, i + 1)
  }

  lemma {:induction false} EncodedEntry(joins: seq<Join>, i: nat)
    requires i < |joins|
    ensures Encode(joins)[NEW_NODE_RESPONSE_ENTRY_SIZE * i..NEW_NODE_RESPONSE_ENTRY_SIZE * (i + 1)] == EntryBytes(joins[i])
  {
    hide EntryBytes;
    var n, at := |joins| - 1, NEW_NODE_RESPONSE_ENTRY_SIZE * i;
    var first := Encode(joins[..n]);
    assert Encode(joins) == first + EntryBytes(joins[n]);
    if i < n {
      EncodedEntry(joins[..n], i);
      assert at + NEW_NODE_RESPONSE_ENTRY_SIZE <= |first|;
      assert Encode(joins)[at..at + NEW_NODE_RESPONSE_ENTRY_SIZE] == first[at..at + NEW_NODE_RESPONSE_ENTRY_SIZE];
    }
  }

  /** Whatever follows the encoded entries in the packet. */
  lemma EncodedFields(joins: seq<Join>, rest: seq<uint8>, i: nat)
    requires i < |joins|
    ensures var data := Encode(joins) + rest;
      UniqueIdAt(data, i) == joins[i].uniqueId && NodeIdAt(data, i) == joins[i].nodeId
  {
    EncodedEntry(joins, i);
    UniqueIdRoundTrip(joins[i].uniqueId);
    EntryFields(Encode(joins), rest, i, joins[i]);
  }

  lemma EntryFields(encoded: seq<uint8>, rest: seq<uint8>, i: nat, e: Join)
    requires NEW_NODE_RESPONSE_ENTRY_SIZE * (i + 1) <= |encoded|
    requires encoded[NEW_NODE_RESPONSE_ENTRY_SIZE * i..NEW_NODE_RESPONSE_ENTRY_SIZE * (i + 1)] == EntryBytes(e)
    ensures var data := encoded + rest;
      UniqueIdAt(data, i) == FromBytes(ToBytes(e.uniqueId, 8)) && NodeIdAt(data, i) == e.nodeId
  {
    hide ToBytes, FromBytes;
    var data, at := encoded + rest, NEW_NODE_RESPONSE_ENTRY_SIZE * i;
    var entry := encoded[at..at + NEW_NODE_RESPONSE_ENTRY_SIZE];
    assert entry == EntryBytes(e);
    assert data[at..at + 8] == entry[..8];
    assert entry[..8] == ToBytes(e.uniqueId, 8);
    assert data[at + 8] == entry[8];
  }

  lemma {:induction false} DecodeFinds(joins: seq<Join>, rest: seq<uint8>, uniqueId: uint64, i: nat)
    requires i <= |joins|
    ensures var r := Decode(Encode(joins) + rest, |joins|, uniqueId, i);
      match r
      case None => forall k :: i <= k < |joins| ==> joins[k].uniqueId != uniqueId
      case Some(id) => exists k :: i <= k < |joins| && joins[k] == Join(uniqueId, id)
    decreases |joins| - i
  {
    if i < |joins| {
      EncodedFields(joins, rest, i);
      DecodeFinds(joins, rest, uniqueId, i + 1);
      assert joins[i] == Join(joins[i].uniqueId, joins[i].nodeId);
    }
  }

  /** The two bytes carry any 16-bit size. */
  lemma SizeFieldRoundTrip(size: nat)
    requires size < 0x1_0000
    ensures var (hi, lo) := SizeField(size); SizeOf(hi, lo) == size
  {
  }

  lemma SizeRoundTrip(n: nat)
    requires n <= MAX_NODES_ALLOCATED_AT_ONCE
    ensures var (hi, lo) := SizeField(NEW_NODE_RESPONSE_ENTRY_SIZE * n);
      SizeOf(hi, lo) / NEW_NODE_RESPONSE_ENTRY_SIZE == n
  {
  }

  /** For any valid table of pending joins, whatever else the packet memory holds: a node
      reads from the response exactly the id the table assigns to it, and a node not in the
      table reads none. */
  lemma JoinRoundTrip(m: Members, rest: seq<uint8>, uniqueId: uint64)
    requires MembersInv(m)
    ensures var (hi, lo) := SizeField(|Encode(m.joins)|);
      var n := SizeOf(hi, lo) / NEW_NODE_RESPONSE_ENTRY_SIZE;
      && n == |m.joins| && |Encode(m.joins)| <= MASTER_PACKET_DATA_SIZE
      && (forall id: uint8 :: Decode(Encode(m.joins) + rest, n, uniqueId) == Some(id) <==> Join(uniqueId, id) in m.joins)
      && (Decode(Encode(m.joins) + rest, n, uniqueId).None? <==> !Asked(m.joins, uniqueId))
  {
    hide Decode, Encode, SizeField, SizeOf;
    SizeRoundTrip(|m.joins|);
    DecodeFinds(m.joins, rest, uniqueId, 0);
  }
}
