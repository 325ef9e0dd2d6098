/** The receive path over whole runs: packets landing in memory, the quick test before a
    slot, the processing after it, the user taking packets, and nodes being removed. */
module RxPath {
  import opened Microbus
  import TxSpec
  import opened RxSpec
  import opened RxStore

  type Payload = TxSpec.Payload

  /** A receive path and its history: what was accepted from each sender since the sender
      last joined, and what the user has taken of that. A packet counts as accepted when
      the sender's number advances. `pending` says that a slot's quick test was made and
      its processing not yet. */
  datatype Receiver = Receiver(path: Path, pending: bool, accepted: seq<seq<Payload>>, taken: seq<seq<Payload>>)

  datatype Event =
    | Landed(packet: RxPacket)
    | SlotStart(crcError: bool)
    | SlotEnd
    | UserTakes
    | NodeRemoved(d: uint8)

  function PayloadsFrom(role: Role, ps: seq<RxPacket>, d: nat): seq<Payload> {
    if ps == [] then []
    else (if Sender(role, ps[0]) as int == d then [ps[0].payload] else []) + PayloadsFrom(role, ps[1..], d)
  }

  predicate SenderKnown(role: Role, p: RxPacket, n: nat) {
    IsData(role, p) ==> Sender(role, p) as int < n
  }

  predicate Formed(role: Role, y: Receiver) {
    && y.path.Shaped() && |y.accepted| == |y.taken| == |y.path.rxSeqNum|
    && forall e :: 0 <= e < y.path.rx.Size() ==> SenderKnown(role, y.path.rx.packets[e], |y.path.rxSeqNum|)
  }

  /** The end of a slot asserts that a data packet is not empty; a node is removed between
      slots, and only where the removal loop ends. */
  predicate Enabled(role: Role, y: Receiver, event: Event) {
    && Formed(role, y)
    && match event
       case Landed(p) => SenderKnown(role, p, |y.accepted|)
       case SlotStart(crcError) => !y.pending
       case SlotEnd => y.pending && ProcessAsserts(role, y.path)
       case UserTakes => Skip(y.path.rx).Line() != []
       case NodeRemoved(d) => role.AsMaster? && !y.pending && d as int < |y.accepted| && Stops(y.path.rx)
  }

  function Apply(role: Role, y: Receiver, event: Event): Receiver
    requires Enabled(role, y, event)
  {
    var m := y.path;
    match event
    case Landed(p) => y.(path := m.(rx := m.rx.(packets := m.rx.packets[m.next := p])))
    case SlotStart(crcError) =>
      var m1 := Quick(role, m, crcError);
      y.(path := m1, pending := true,
         accepted := seq(|y.accepted|, d requires 0 <= d < |y.accepted| =>
           if m1.rxSeqNum[d] != m.rxSeqNum[d] then y.accepted[d] + [m.rx.packets[m.next].payload] else y.accepted[d]))
    case SlotEnd => y.(path := Process(role, m), pending := false)
    case UserTakes =>
      var s := Skip(m.rx);
      var p := s.packets[s.Line()[0].value];
      y.(path := m.(rx := Pop(s)),
         taken := seq(|y.taken|, d requires 0 <= d < |y.taken| =>
           if Sender(role, p) as int == d then y.taken[d] + [p.payload] else y.taken[d]))
    case NodeRemoved(d) =>
      Receiver(m.(rx := RemoveAll(m.rx, d), rxSeqNum := m.rxSeqNum[d := NULL_SEQUENCE_NUM]), y.pending,
               y.accepted[d := []], y.taken[d := []])
  }

  /** The packet accepted this slot and not yet queued. */
  function InHand(role: Role, y: Receiver, d: nat): seq<Payload>
    requires y.path.Shaped()
  {
    if y.pending && Stores(role, y.path) && Sender(role, y.path.rx.packets[y.path.prev]) as int == d
    then [y.path.rx.packets[y.path.prev].payload] else []
  }

  ghost predicate Accounted(role: Role, y: Receiver, d: nat)
    requires Formed(role, y) && d < |y.accepted|
  {
    && y.accepted[d] == y.taken[d] + PayloadsFrom(role, y.path.rx.Contents(), d) + InHand(role, y, d)
    && y.path.rxSeqNum[d] == TxSpec.AckNumber(|y.accepted[d]|)
  }

  ghost predicate Ownership(role: Role, y: Receiver) {
    var m := y.path;
    && m.Shaped()
    && Owned(m.rx, if y.pending && m.valid then {m.next, m.prev} else {m.next})
    && (y.pending && m.valid ==>
          && m.next != m.prev && !m.rx.Full()
          && (role.AsNode? ==> m.rx.packets[m.prev].dstNodeId == role.nodeId))
  }

  ghost predicate RxInv(role: Role, y: Receiver) {
    && Formed(role, y) && Ownership(role, y)
    && forall d :: 0 <= d < |y.accepted| ==> Accounted(role, y, d)
  }

  // ---------- steps ----------

  lemma {:induction false} PayloadsAppend(role: Role, ps: seq<RxPacket>, p: RxPacket, d: nat)
    ensures PayloadsFrom(role, ps + [p], d) ==
      PayloadsFrom(role, ps, d) + if Sender(role, p) as int == d then [p.payload] else []
  {
    if ps == [] {
      assert (ps + [p])[1..] == [];
    } else {
      PayloadsAppend(role, ps[1..], p, d);
      assert (ps + [p])[1..] == ps[1..] + [p];
    }
  }

  /** Removing one node takes all of its packets and none of another's. */
  lemma {:induction false} PayloadsOfOthers(ps: seq<RxPacket>, src: uint8, d: nat)
    ensures PayloadsFrom(AsMaster, Others(ps, src), d) == if d == src then [] else PayloadsFrom(AsMaster, ps, d)
  {
    if ps != [] {
      PayloadsOfOthers(ps[1..], src, d);
      var rest := Others(ps[1..], src);
      assert ([ps[0]] + rest)[1..] == rest;
      assert Others(ps, src) == if ps[0].srcNodeId == src then rest else [ps[0]] + rest;
    }
  }

  /** Accepting the expected number advances the receiver's number; nothing else does. */
  lemma ReceiveNext(count: nat, q: uint8)
    ensures var (r, ok) := TxSpec.Receive(TxSpec.AckNumber(count), q);
      && (ok <==> r != TxSpec.AckNumber(count))
      && r == TxSpec.AckNumber(if ok then count + 1 else count)
  {
    if count > 0 { TxSpec.AckNumberFollows(count); }
  }

  /** The quick test: a sender's number advances exactly when its packet is going to be
      queued, and then there is room in the queue for it. */
  lemma AcceptedIffStored(role: Role, y: Receiver, crcError: bool, d: nat)
    requires RxInv(role, y) && Enabled(role, y, SlotStart(crcError)) && d < |y.accepted|
    ensures var m := Quick(role, y.path, crcError);
      && (m.rxSeqNum[d] != y.path.rxSeqNum[d] <==>
            Stores(role, m) && Sender(role, m.rx.packets[m.prev]) as int == d)
      && (Stores(role, m) ==> !m.rx.Full() && m.prev == y.path.next && m.rx.packets == y.path.rx.packets)
      && m.rxSeqNum[d] == TxSpec.AckNumber(if m.rxSeqNum[d] != y.path.rxSeqNum[d] then |y.accepted[d]| + 1 else |y.accepted[d]|)
  {
    var p := y.path.rx.packets[y.path.next];
    assert SenderKnown(role, p, |y.accepted|);
    assert Accounted(role, y, d);
    if IsData(role, p) {
      assert Accounted(role, y, Sender(role, p));
      ReceiveNext(|y.accepted[Sender(role, p)]|, p.txSeqNum);
    }
  }

  /** The packet worth keeping stays in its entry and a free one takes the next. */
  lemma QuickOwnership(role: Role, m: Path, crcError: bool)
    requires m.Shaped() && Owned(m.rx, {m.next}) && SenderKnown(role, m.rx.packets[m.next], |m.rxSeqNum|)
    ensures var q := Quick(role, m, crcError);
      && q.rx.Line() == m.rx.Line() && q.rx.packets == m.rx.packets
      && if q.valid then
           && Owned(q.rx, {q.next, q.prev}) && q.next != q.prev && !q.rx.Full()
           && (role.AsNode? ==> q.rx.packets[q.prev].dstNodeId == role.nodeId)
         else Owned(q.rx, {q.next})
  {
    hide Store.Line, Store.InRing, Owned, IsData, WellFormed, FindFree;
    if !m.rx.Full() {
      FindFreeOwned(m.rx, m.next);
      var (free, rx) := FindFree(m.rx);
      assert {m.next, free.value} == {free.value, m.next};
    } else {
      FreeEntryIff(m.rx, m.next);
    }
  }

  lemma SlotStartOwnership(role: Role, y: Receiver, crcError: bool)
    requires RxInv(role, y) && Enabled(role, y, SlotStart(crcError))
    ensures var z := Apply(role, y, SlotStart(crcError));
      Ownership(role, z) && z.path.rx.Line() == y.path.rx.Line() && z.path.rx.packets == y.path.rx.packets
  {
    hide Store.Line, Store.InRing, Accounted, Quick, Owned;
    QuickOwnership(role, y.path, crcError);
  }

  lemma ApplyFormed(role: Role, y: Receiver, event: Event)
    requires Enabled(role, y, event)
    ensures Formed(role, Apply(role, y, event)) && |Apply(role, y, event).accepted| == |y.accepted|
  {
    hide Stores, IsData, Store.Line, Store.InRing;
  }

  /** The hardware writes only to the next entry, which nobody else holds. */
  lemma LandedKeepsInv(role: Role, y: Receiver, p: RxPacket)
    requires RxInv(role, y) && Enabled(role, y, Landed(p))
    ensures RxInv(role, Apply(role, y, Landed(p)))
  {
    hide Formed, Store.InRing, Store.Line;
    var m := y.path;
    var z := Apply(role, y, Landed(p));
    ApplyFormed(role, y, Landed(p));
    LandedContents(m.rx, m.next, p);
    forall d | 0 <= d < |y.accepted| ensures Accounted(role, z, d) {
      assert Accounted(role, y, d);
    }
  }

  lemma LandedContents(s: Store, e: nat, p: RxPacket)
    requires s.Shaped() && e < s.Size() && Some(e) !in s.Line()
    ensures var t := s.(packets := s.packets[e := p]);
      t.Shaped() && t.Line() == s.Line() && t.Contents() == s.Contents()
  {
    WaitingFrame(s.packets, s.packets[e := p], s.Line());
  }

  lemma SlotStartKeepsInv(role: Role, y: Receiver, crcError: bool)
    requires RxInv(role, y) && Enabled(role, y, SlotStart(crcError))
    ensures RxInv(role, Apply(role, y, SlotStart(crcError)))
  {
    hide Quick, Stores, Owned, Ownership, Formed, Store.Line, Store.InRing;
    var z := Apply(role, y, SlotStart(crcError));
    ApplyFormed(role, y, SlotStart(crcError));
    SlotStartOwnership(role, y, crcError);
    forall d | 0 <= d < |y.accepted| ensures Accounted(role, z, d) {
      assert Accounted(role, y, d);
      AcceptedIffStored(role, y, crcError, d);
      SlotStartInHand(role, y, z, d);
    }
  }

  lemma SlotStartInHand(role: Role, y: Receiver, z: Receiver, d: nat)
    requires Formed(role, y) && Formed(role, z) && !y.pending && z.pending && d < |y.accepted|
    requires Accounted(role, y, d)
    requires z.taken == y.taken && z.path.rx.Line() == y.path.rx.Line() && z.path.rx.packets == y.path.rx.packets
    requires |z.accepted| == |y.accepted|
    requires var moved := z.path.rxSeqNum[d] != y.path.rxSeqNum[d];
      && z.accepted[d] == (if moved then y.accepted[d] + [y.path.rx.packets[y.path.next].payload] else y.accepted[d])
      && (moved <==> Stores(role, z.path) && Sender(role, z.path.rx.packets[z.path.prev]) as int == d)
      && z.path.rxSeqNum[d] == TxSpec.AckNumber(if moved then |y.accepted[d]| + 1 else |y.accepted[d]|)
    requires Stores(role, z.path) ==> z.path.prev == y.path.next
    ensures Accounted(role, z, d)
  {
    hide Stores, Store.Line, Store.InRing;
  }

  lemma SlotEndKeepsInv(role: Role, y: Receiver)
    requires RxInv(role, y) && Enabled(role, y, SlotEnd)
    ensures RxInv(role, Apply(role, y, SlotEnd))
  {
    hide Stores, Store.Line, Store.InRing, Formed, Owned;
    var m := y.path;
    var z := Apply(role, y, SlotEnd);
    ApplyFormed(role, y, SlotEnd);
    if m.valid {
      if Stores(role, m) { AppendOwned(m.rx, m.next, m.prev); } else { FreeOwned(m.rx, m.next, m.prev); }
    }
    forall d | 0 <= d < |y.accepted| ensures Accounted(role, z, d) {
      assert Accounted(role, y, d);
      SlotEndAccounts(role, y, d);
    }
  }

  lemma SlotEndAccounts(role: Role, y: Receiver, d: nat)
    requires Enabled(role, y, SlotEnd) && Ownership(role, y) && d < |y.accepted| && Accounted(role, y, d)
    requires Formed(role, Apply(role, y, SlotEnd))
    ensures Accounted(role, Apply(role, y, SlotEnd), d)
  {
    hide IsData, Store.Line, Store.InRing, Owned;
    var m := y.path;
    var z := Apply(role, y, SlotEnd);
    if Stores(role, m) {
      AppendContents(m.rx, m.prev);
      PayloadsAppend(role, m.rx.Contents(), m.rx.packets[m.prev], d);
      assert y.accepted[d] == y.taken[d] + (PayloadsFrom(role, m.rx.Contents(), d) + InHand(role, y, d));
    } else if m.valid {
      SameLine(m.rx, z.path.rx);
    }
  }

  lemma SameLine(s: Store, t: Store)
    requires s.Shaped() && t.Shaped() && t == s.(inUse := t.inUse)
    ensures t.Line() == s.Line() && t.Contents() == s.Contents()
  {
  }

  lemma UserTakesKeepsInv(role: Role, y: Receiver)
    requires RxInv(role, y) && Enabled(role, y, UserTakes)
    ensures RxInv(role, Apply(role, y, UserTakes))
  {
    hide Stores, Skip, Pop, Store.Line, Store.InRing, Formed, Owned;
    var z := Apply(role, y, UserTakes);
    ApplyFormed(role, y, UserTakes);
    var s := Skip(y.path.rx);
    var held := if y.pending && y.path.valid then {y.path.next, y.path.prev} else {y.path.next};
    SkipOwned(y.path.rx, held);
    PopOwned(s, held);
    TakenLeavesRoom(y.path.rx);
    forall d | 0 <= d < |y.accepted| ensures Accounted(role, z, d) {
      assert Accounted(role, y, d);
      UserTakesAccounts(role, y, d);
    }
  }

  lemma TakenLeavesRoom(s: Store)
    requires s.Shaped() && Skip(s).Line() != []
    ensures var t := Pop(Skip(s)); !t.Full() && t.packets == s.packets
  {
    hide Skip, Store.Line, Store.InRing;
    SkipLine(s);
    PopContents(Skip(s));
    FullIff(Pop(Skip(s)));
  }

  /** The user takes the oldest packet of its sender. */
  lemma UserTakesAccounts(role: Role, y: Receiver, d: nat)
    requires Enabled(role, y, UserTakes) && d < |y.accepted| && Accounted(role, y, d)
    requires Formed(role, Apply(role, y, UserTakes))
    ensures Accounted(role, Apply(role, y, UserTakes), d)
  {
    hide Apply, Skip, Pop, Sender, Stores, IsData, SenderKnown, Accounted, Store.Line, Store.InRing, Store.Contents;
    TakenContents(role, y.path.rx, d);
    TakenApply(role, y, d);
    var p := Skip(y.path.rx).packets[Skip(y.path.rx).Line()[0].value];
    AccountsMove(role, y, Apply(role, y, UserTakes), d, if Sender(role, p) as int == d then [p.payload] else []);
  }

  /** What leaves the front of the queue is what the user gets. */
  lemma AccountsMove(role: Role, y: Receiver, z: Receiver, d: nat, moved: seq<Payload>)
    requires Formed(role, y) && Formed(role, z) && d < |y.accepted| && Accounted(role, y, d)
    requires z == y.(path := y.path.(rx := z.path.rx), taken := z.taken)
    requires z.path.rx.packets == y.path.rx.packets && |z.taken| == |y.taken| && z.taken[d] == y.taken[d] + moved
    requires PayloadsFrom(role, y.path.rx.Contents(), d) == moved + PayloadsFrom(role, z.path.rx.Contents(), d)
    ensures Accounted(role, z, d)
  {
    hide Sender, IsData, Store.Line, Store.InRing, Store.Contents, PayloadsFrom;
  }

  lemma TakenApply(role: Role, y: Receiver, d: nat)
    requires Enabled(role, y, UserTakes) && d < |y.accepted|
    ensures var z := Apply(role, y, UserTakes);
      && z == y.(path := y.path.(rx := Pop(Skip(y.path.rx))), taken := z.taken) && |z.taken| == |y.taken|
      && var p := Skip(y.path.rx).packets[Skip(y.path.rx).Line()[0].value];
         z.taken[d] == y.taken[d] + if Sender(role, p) as int == d then [p.payload] else []
  {
    hide Skip, Pop, Sender, Store.Line, Store.InRing;
  }

  lemma TakenContents(role: Role, s: Store, d: nat)
    requires s.Shaped() && Skip(s).Line() != []
    ensures var p := Skip(s).packets[Skip(s).Line()[0].value];
      PayloadsFrom(role, s.Contents(), d) ==
        (if Sender(role, p) as int == d then [p.payload] else []) + PayloadsFrom(role, Pop(Skip(s)).Contents(), d)
    ensures Pop(Skip(s)).packets == s.packets
  {
    hide Skip, Sender, Store.Line, Store.InRing;
    SkipKeepsContents(s);
    PopContents(Skip(s));
    var p := Skip(s).packets[Skip(s).Line()[0].value];
    var rest := Pop(Skip(s)).Contents();
    assert ([p] + rest)[1..] == rest;
  }

  lemma NodeRemovedAccounts(role: Role, y: Receiver, d: uint8, k: nat)
    requires Enabled(role, y, NodeRemoved(d)) && k < |y.accepted| && Accounted(role, y, k)
    requires Formed(role, Apply(role, y, NodeRemoved(d)))
    ensures Accounted(role, Apply(role, y, NodeRemoved(d)), k)
  {
    hide Stores, RemoveAll, Store.Line, Store.InRing;
    RemoveAllFilters(y.path.rx, d);
    PayloadsOfOthers(y.path.rx.Contents(), d, k);
  }

  lemma NodeRemovedKeepsInv(role: Role, y: Receiver, d: uint8)
    requires RxInv(role, y) && Enabled(role, y, NodeRemoved(d))
    ensures RxInv(role, Apply(role, y, NodeRemoved(d)))
  {
    hide Stores, Store.Line, Store.InRing, Formed, Owned;
    var z := Apply(role, y, NodeRemoved(d));
    ApplyFormed(role, y, NodeRemoved(d));
    RemoveAllOwned(y.path.rx, d, {y.path.next});
    forall k | 0 <= k < |y.accepted| ensures Accounted(role, z, k) {
      assert Accounted(role, y, k);
      NodeRemovedAccounts(role, y, d, k);
    }
  }

  // ---------- runs ----------

  /** masterRxInit and nodeInit: an empty store whose first entry takes the first packet. */
  function InitPath(size: nat, numSenders: nat): Path
    requires size > 0
  {
    Path(Store(seq(size, e => e == 0), seq(size, _ => ZeroPacket), seq(size, _ => None), 0, 0),
         0, 0, false, false, seq(numSenders, _ => NULL_SEQUENCE_NUM))
  }

  function Start(size: nat, numSenders: nat): Receiver
    requires size > 0
  {
    Receiver(InitPath(size, numSenders), false, seq(numSenders, _ => []), seq(numSenders, _ => []))
  }

  lemma StartEstablishesInv(role: Role, size: nat, numSenders: nat)
    requires 2 < size <= 255
    ensures RxInv(role, Start(size, numSenders))
  {
    var y := Start(size, numSenders);
    assert y.path.rx.Line() == [];
    assert ZeroPacket.Type() == 0;
    forall d | 0 <= d < |y.accepted| ensures Accounted(role, y, d) {
    }
  }

  lemma EventKeepsInv(role: Role, y: Receiver, event: Event)
    requires RxInv(role, y) && Enabled(role, y, event)
    ensures RxInv(role, Apply(role, y, event))
  {
    hide Apply, RxInv;
    match event
    case Landed(p) => LandedKeepsInv(role, y, p);
    case SlotStart(crcError) => SlotStartKeepsInv(role, y, crcError);
    case SlotEnd => SlotEndKeepsInv(role, y);
    case UserTakes => UserTakesKeepsInv(role, y);
    case NodeRemoved(d) => NodeRemovedKeepsInv(role, y, d);
  }

  ghost predicate IsRun(role: Role, ys: seq<Receiver>, events: seq<Event>) {
    && |ys| == |events| + 1
    && forall k :: 0 <= k < |events| ==> Enabled(role, ys[k], events[k]) && ys[k + 1] == Apply(role, ys[k], events[k])
  }

  lemma {:induction false} RunKeepsInv(role: Role, ys: seq<Receiver>, events: seq<Event>)
    requires IsRun(role, ys, events) && RxInv(role, ys[0])
    ensures RxInv(role, ys[|events|])
    decreases |events|
  {
    hide Enabled, Apply, RxInv;
    if events != [] {
      var n := |events| - 1;
      RunKeepsInv(role, ys[..n + 1], events[..n]);
      EventKeepsInv(role, ys[n], events[n]);
    }
  }

  /** In every run, what the user took from a sender since it joined, followed by what is
      queued and what is in hand, is exactly what was accepted from it: nothing accepted is
      dropped, repeated or reordered, whatever other nodes are removed. */
  lemma NothingAcceptedIsLost(role: Role, size: nat, ys: seq<Receiver>, events: seq<Event>, d: nat)
    requires IsRun(role, ys, events) && 2 < size <= 255 && ys[0] == Start(size, |ys[0].accepted|)
    requires d < |ys[|events|].accepted|
    ensures var y := ys[|events|];
      && Formed(role, y)
      && y.accepted[d] == y.taken[d] + PayloadsFrom(role, y.path.rx.Contents(), d) + InHand(role, y, d)
      && y.path.rxSeqNum[d] == TxSpec.AckNumber(|y.accepted[d]|)
      && Ownership(role, y)
  {
    hide Enabled, Apply, Ownership, Formed, InHand;
    StartEstablishesInv(role, size, |ys[0].accepted|);
    RunKeepsInv(role, ys, events);
    assert Accounted(role, ys[|events|], d);
  }

  // ---------- what is let in ----------

  /** A packet that failed its check, whose first byte is 0, 255 or of another version, that
      is too big for the master, or that is addressed to another node or a reset, has no
      effect but that its entry is used again: no number advances and nothing is kept. */
  lemma NotKept(role: Role, m: Path, crcError: bool)
    requires m.Shaped() && SenderKnown(role, m.rx.packets[m.next], |m.rxSeqNum|)
    requires var p := m.rx.packets[m.next];
      || crcError || p.versionAndType == 0 || p.versionAndType == 255 || p.versionAndType / 16 != 1
      || (if role.AsMaster? then p.dataSize >= 178 else p.dstNodeId != role.nodeId || p.versionAndType == 0x17)
    ensures Quick(role, m, crcError) == m.(prev := m.next, valid := false)
  {
  }

  /** A node starts over at a packet whose first byte is 0x17 and that passed its check, and
      at no other, whomever it is addressed to. */
  lemma ResetIff(nodeId: uint8, p: RxPacket, crcError: bool)
    ensures IsReset(AsNode(nodeId), p, crcError) <==> !crcError && p.versionAndType == 0x17
    ensures !IsReset(AsMaster, p, crcError)
  {
  }

  /** The packets that can be accepted from sender d, byte by byte: data for the master has
      type 2, data for a node type 1. */
  predicate DataFrom(role: Role, p: RxPacket, d: nat) {
    match role
    case AsMaster => p.versionAndType == 0x12 && p.srcNodeId as int == d && p.dataSize < 178
    case AsNode(id) => p.versionAndType == 0x11 && d == 0 && id != 0xFE && p.dstNodeId == id
  }

  /** What is accepted from a sender grows only in a slot that began with a packet of the
      sender's that passed its check, and by that packet's data. */
  lemma AcceptedGrows(role: Role, y: Receiver, event: Event, d: nat)
    requires Enabled(role, y, event) && d < |y.accepted|
    ensures var z, p := Apply(role, y, event), y.path.rx.packets[y.path.next];
      && |z.accepted| == |y.accepted|
      && (z.accepted[d] != y.accepted[d] ==>
            (event == NodeRemoved(d) && z.accepted[d] == [])
            || (event == SlotStart(false) && DataFrom(role, p, d) && z.accepted[d] == y.accepted[d] + [p.payload]))
  {
    hide FindFree, Store.Line, Store.InRing, Skip, Stores;
  }

  /** Packet memory holds what landed in it, or is as it was at the start. */
  ghost predicate AllLanded(y: Receiver, events: seq<Event>) {
    forall e :: 0 <= e < |y.path.rx.packets| ==>
      y.path.rx.packets[e] == ZeroPacket || Landed(y.path.rx.packets[e]) in events
  }

  lemma {:induction false} MemoryLanded(role: Role, ys: seq<Receiver>, events: seq<Event>)
    requires IsRun(role, ys, events) && forall e :: 0 <= e < |ys[0].path.rx.packets| ==> ys[0].path.rx.packets[e] == ZeroPacket
    ensures AllLanded(ys[|events|], events)
    decreases |events|
  {
    hide Enabled, Apply;
    if events != [] {
      var n := |events| - 1;
      hide AllLanded;
      MemoryLanded(role, ys[..n + 1], events[..n]);
      LandedStep(role, ys[n], events[..n], events[n]);
      assert events == events[..n] + [events[n]];
    }
  }

  lemma LandedStep(role: Role, y: Receiver, events: seq<Event>, event: Event)
    requires AllLanded(y, events) && Enabled(role, y, event)
    ensures AllLanded(Apply(role, y, event), events + [event])
  {
    PacketsChange(role, y, event);
    hide Enabled, Apply;
  }

  lemma PacketsChange(role: Role, y: Receiver, event: Event)
    requires Enabled(role, y, event)
    ensures event.Landed? ==> y.path.next < |y.path.rx.packets|
    ensures Apply(role, y, event).path.rx.packets ==
      if event.Landed? then y.path.rx.packets[y.path.next := event.packet] else y.path.rx.packets
  {
    hide FindFree, Store.Line, Store.InRing, Skip, Stores;
  }

  /** A good packet: it landed, and in a slot after that it was met at the start with its
      check passed. */
  ghost predicate Earned(role: Role, ys: seq<Receiver>, events: seq<Event>, d: nat, payload: Payload) {
    exists k :: 0 <= k < |events| && k < |ys| && GoodSlot(role, ys[k], events[..k], events[k], d, payload)
  }

  ghost predicate GoodSlot(role: Role, y: Receiver, before: seq<Event>, event: Event, d: nat, payload: Payload) {
    && event == SlotStart(false) && y.path.Shaped()
    && var p := y.path.rx.packets[y.path.next];
       DataFrom(role, p, d) && p.payload == payload && Landed(p) in before
  }

  /** Whatever was accepted, and so whatever the user ever gets, came in a packet that landed
      and was met, with its check passed, its header and its sender right. */
  lemma {:induction false} AcceptedIsEarned(role: Role, size: nat, ys: seq<Receiver>, events: seq<Event>, d: nat)
    requires IsRun(role, ys, events) && 2 < size <= 255 && ys[0] == Start(size, |ys[0].accepted|)
    requires d < |ys[|events|].accepted|
    ensures |ys[|events|].accepted| == |ys[0].accepted|
    ensures forall k :: 0 <= k < |ys[|events|].accepted[d]| ==> Earned(role, ys, events, d, ys[|events|].accepted[d][k])
    decreases |events|
  {
    StartBlank(size, |ys[0].accepted|);
    hide Start, Apply, Enabled, Earned, DataFrom, AllLanded;
    if events != [] {
      var n := |events| - 1;
      assert Enabled(role, ys[n], events[n]) && ys[n + 1] == Apply(role, ys[n], events[n]);
      SameSenders(role, ys[n], events[n]);
      AcceptedIsEarned(role, size, ys[..n + 1], events[..n], d);
      AcceptedGrows(role, ys[n], events[n], d);
      MemoryLanded(role, ys[..n + 1], events[..n]);
      EarnedAfter(role, ys, events, d, ys[n].accepted[d], ys[n + 1].accepted[d]);
    }
  }

  lemma StartBlank(size: nat, numSenders: nat)
    requires size > 0
    ensures var y := Start(size, numSenders);
      && |y.accepted| == numSenders && (forall d :: 0 <= d < numSenders ==> y.accepted[d] == [])
      && forall e :: 0 <= e < |y.path.rx.packets| ==> y.path.rx.packets[e] == ZeroPacket
  {
  }

  lemma EarnedAfter(role: Role, ys: seq<Receiver>, events: seq<Event>, d: nat, before: seq<Payload>, after: seq<Payload>)
    requires events != [] && |ys| == |events| + 1 && ys[|events| - 1].path.Shaped()
    requires AllLanded(ys[|events| - 1], events[..|events| - 1])
    requires forall k :: 0 <= k < |before| ==> Earned(role, ys[..|events|], events[..|events| - 1], d, before[k])
    requires var n, y := |events| - 1, ys[|events| - 1];
      var p := y.path.rx.packets[y.path.next];
      || after == before || after == []
      || (events[n] == SlotStart(false) && DataFrom(role, p, d) && after == before + [p.payload])
    ensures forall k :: 0 <= k < |after| ==> Earned(role, ys, events, d, after[k])
  {
    hide Earned, DataFrom, AllLanded;
    forall k | 0 <= k < |after| ensures Earned(role, ys, events, d, after[k]) {
      if k < |before| {
        assert after[k] == before[k];
        EarnedStays(role, ys, events, d, after[k]);
      } else {
        EarnedNow(role, ys, events, d);
      }
    }
  }

  lemma SameSenders(role: Role, y: Receiver, event: Event)
    requires Enabled(role, y, event)
    ensures |Apply(role, y, event).accepted| == |y.accepted| && y.path.Shaped()
  {
    ApplyFormed(role, y, event);
  }

  lemma EarnedStays(role: Role, ys: seq<Receiver>, events: seq<Event>, d: nat, payload: Payload)
    requires events != [] && |ys| == |events| + 1
    requires Earned(role, ys[..|events|], events[..|events| - 1], d, payload)
    ensures Earned(role, ys, events, d, payload)
  {
    var n := |events| - 1;
    var k :| 0 <= k < n && GoodSlot(role, ys[..n + 1][k], events[..n][..k], events[..n][k], d, payload);
    assert events[..n][..k] == events[..k];
  }

  lemma EarnedNow(role: Role, ys: seq<Receiver>, events: seq<Event>, d: nat)
    requires events != [] && |ys| == |events| + 1
    requires var n := |events| - 1;
      && events[n] == SlotStart(false) && ys[n].path.Shaped() && AllLanded(ys[n], events[..n])
      && DataFrom(role, ys[n].path.rx.packets[ys[n].path.next], d)
    ensures Earned(role, ys, events, d, ys[|events| - 1].path.rx.packets[ys[|events| - 1].path.next].payload)
  {
    var n := |events| - 1;
    assert GoodSlot(role, ys[n], events[..n], events[n], d, ys[n].path.rx.packets[ys[n].path.next].payload);
  }

  // ---------- processing twice ----------

  /** The master clears its flags, so processing a slot again does nothing. */
  lemma MasterProcessesOnce(m: Path)
    requires m.Shaped()
    ensures Process(AsMaster, Process(AsMaster, m)) == Process(AsMaster, m)
  {
  }

  /** A node does not: it must process a slot once. A second time would queue the same entry
      again. */
  lemma NodeProcessedTwiceQueuesTwice(id: uint8, m: Path)
    requires m.Shaped() && Stores(AsNode(id), m) && |m.rx.Line()| + 2 < m.rx.Size()
    ensures var t := Process(AsNode(id), Process(AsNode(id), m));
      t.rx.Line() == m.rx.Line() + [Some(m.prev), Some(m.prev)]
  {
    hide Store.Line, Store.InRing;
    FullIff(m.rx);
    AppendLine(m.rx, m.prev);
    var s := Append(m.rx, m.prev);
    FullIff(s);
    AppendLine(s, m.prev);
  }

  // ---------- a run to an endless removal ----------

  /** Data packet number q from node 1. */
  function NodePacket(q: uint8): RxPacket {
    RxPacket(MICROBUS_VERSION * 16 + NODE_DATA_PACKET, q, 1, 1, MASTER_NODE_ID, [q])
  }

  /** Where the queue of the store stands between slots, and what is expected of node 1. */
  ghost predicate At(y: Receiver, start: nat, end: nat, expected: uint8) {
    && RxInv(AsMaster, y) && !y.pending && !y.path.valid && |y.accepted| > 1
    && y.path.rx.Size() == 3 && y.path.rx.start == start && y.path.rx.end == end
    && TxSpec.Expected(y.path.rxSeqNum[1]) == expected
  }

  function SlotEvents(q: uint8): seq<Event> {
    [Landed(NodePacket(q)), SlotStart(false), SlotEnd]
  }

  lemma ExtendRx(ys: seq<Receiver>, events: seq<Event>, event: Event) returns (zs: seq<Receiver>)
    requires IsRun(AsMaster, ys, events) && RxInv(AsMaster, ys[|events|]) && Enabled(AsMaster, ys[|events|], event)
    ensures IsRun(AsMaster, zs, events + [event]) && zs == ys + [Apply(AsMaster, ys[|events|], event)]
    ensures RxInv(AsMaster, zs[|events| + 1])
  {
    hide RxInv, Apply, Enabled;
    EventKeepsInv(AsMaster, ys[|events|], event);
    zs := ys + [Apply(AsMaster, ys[|events|], event)];
  }

  lemma LandExpected(y: Receiver, start: nat, end: nat, q: uint8)
    requires At(y, start, end, q)
    ensures Enabled(AsMaster, y, Landed(NodePacket(q)))
    ensures var z := Apply(AsMaster, y, Landed(NodePacket(q)));
      && At(z, start, end, q) && Enabled(AsMaster, z, SlotStart(false))
      && z.path.next == y.path.next && z.path.rx.packets[z.path.next] == NodePacket(q) && z.path.rx.queue == y.path.rx.queue
  {
    hide RxInv;
    RxFormed(y);
    LandedKeepsInv(AsMaster, y, NodePacket(q));
    RxFormed(Apply(AsMaster, y, Landed(NodePacket(q))));
  }

  lemma RxFormed(y: Receiver)
    requires RxInv(AsMaster, y)
    ensures Formed(AsMaster, y) && Owned(y.path.rx, if y.pending && y.path.valid then {y.path.next, y.path.prev} else {y.path.next})
  {
  }

  lemma StoreExpected(y: Receiver, start: nat, end: nat, q: uint8)
    requires At(y, start, end, q) && q < 254 && !y.path.rx.Full() && Enabled(AsMaster, y, SlotStart(false))
    requires y.path.rx.packets[y.path.next] == NodePacket(q)
    ensures var z := Apply(AsMaster, y, SlotStart(false));
      && RxInv(AsMaster, z) && Enabled(AsMaster, z, SlotEnd)
      && var w := Apply(AsMaster, z, SlotEnd);
         && At(w, start, IncrAndWrap(end, 1, 3), q + 1)
         && w.path.rx.queue == y.path.rx.queue[end := Some(y.path.next)]
  {
    hide Store.Line, Store.InRing, Owned, Store.Full, Accounted, Ownership, SenderKnown;
    RxFormed(y);
    FreeEntryIff(y.path.rx, y.path.next);
    SlotStartKeepsInv(AsMaster, y, false);
    var z := Apply(AsMaster, y, SlotStart(false));
    RxFormed(z);
    SlotEndKeepsInv(AsMaster, z);
    hide RxInv;
  }

  lemma AcceptOne(ys: seq<Receiver>, events: seq<Event>, start: nat, end: nat, q: uint8) returns (zs: seq<Receiver>)
    requires IsRun(AsMaster, ys, events) && At(ys[|events|], start, end, q) && q < 254
    requires start != IncrAndWrap(end, 1, 3)
    ensures IsRun(AsMaster, zs, events + SlotEvents(q)) && zs[0] == ys[0]
    ensures At(zs[|events| + 3], start, IncrAndWrap(end, 1, 3), q + 1)
    ensures zs[|events| + 3].path.rx.queue == ys[|events|].path.rx.queue[end := Some(ys[|events|].path.next)]
  {
    hide RxInv, Apply, Enabled;
    LandExpected(ys[|events|], start, end, q);
    zs := ExtendRx(ys, events, Landed(NodePacket(q)));
    StoreExpected(zs[|events| + 1], start, end, q);
    zs := ExtendRx(zs, events + [Landed(NodePacket(q))], SlotStart(false));
    zs := ExtendRx(zs, events + [Landed(NodePacket(q))] + [SlotStart(false)], SlotEnd);
    assert events + [Landed(NodePacket(q))] + [SlotStart(false)] + [SlotEnd] == events + SlotEvents(q);
  }

  lemma TakeFirst(y: Receiver, q: uint8)
    requires At(y, 0, 2, q) && y.path.rx.queue[0].Some?
    ensures Enabled(AsMaster, y, UserTakes) && At(Apply(AsMaster, y, UserTakes), 1, 2, q)
  {
    LineHead(y.path.rx);
    assert Skip(y.path.rx) == y.path.rx;
    UserTakesKeepsInv(AsMaster, y);
    hide RxInv;
  }

  /** Three slots of buffer, two packets accepted, one taken and a third accepted: the queue
      now wraps right up to the end of its buffer, and removing any node would never end. */
  lemma RemovalWouldNotStop(numSenders: nat) returns (ys: seq<Receiver>)
    requires numSenders > 1
    ensures IsRun(AsMaster, ys, SlotEvents(0) + SlotEvents(1) + [UserTakes] + SlotEvents(2))
    ensures ys[0] == Start(3, numSenders)
    ensures ys[10].path.rx.Shaped() && !Stops(ys[10].path.rx)
    ensures forall k: nat :: Probe(ys[10].path.rx.start, 3, k) != ys[10].path.rx.end
  {
    hide RxInv, Apply, Enabled;
    StartEstablishesInv(AsMaster, 3, numSenders);
    ys := [Start(3, numSenders)];
    ys := AcceptOne(ys, [], 0, 0, 0);
    assert [] + SlotEvents(0) == SlotEvents(0);
    ys := AcceptOne(ys, SlotEvents(0), 0, 1, 1);
    TakeFirst(ys[6], 2);
    AtInv(ys[6], 0, 2, 2);
    ys := ExtendRx(ys, SlotEvents(0) + SlotEvents(1), UserTakes);
    ys := AcceptOne(ys, SlotEvents(0) + SlotEvents(1) + [UserTakes], 1, 2, 2);
    RxFormed(ys[10]);
    RemovalStopsIff(ys[10].path.rx);
  }

  lemma AtInv(y: Receiver, start: nat, end: nat, expected: uint8)
    requires At(y, start, end, expected)
    ensures RxInv(AsMaster, y)
  {
  }
}
