/** When a window moves: a loss-free round of poll, arrival and acknowledgement, iterated. */
module Progress {
  import opened Microbus
  import opened NodeQueues
  import opened TxSpec
  import opened TxInvariant
  import opened Delivery
  import opened DeliveryRuns

  /** Nothing is in flight to or from d. */
  predicate Idle(y: System, d: uint8) {
    |y.flows| == |y.peers| && d as int < |y.peers| && y.peers[d].data == [] && y.peers[d].acks == []
  }

  /** The sender polls once, what it sends arrives, and an acknowledgement returns. A sender
      stopped by its assertion on sizes does nothing more. */
  ghost function Round(y: System, d: uint8): (z: System)
    requires SystemInv(y) && Idle(y, d)
    ensures SystemInv(z) && Idle(z, d) && z.flows[d].sent == y.flows[d].sent
    ensures if Enabled(y, Step.Poll(d)) then LinkOf(z, d) == Rounded(LinkOf(y, d), |y.flows[d].sent|, Fits(y, d)) else z == y
    ensures Smooth(y, d) ==> Smooth(z, d)
  {
    hide SystemInv, Formed, Apply, Enabled, Rounded, Fits, Smooth;
    if !Enabled(y, Step.Poll(d)) then y
    else
      RoundFacts(y, d);
      var y1 := Apply(y, Step.Poll(d));
      var y2 := if y1.peers[d].data == [] then y1 else Apply(y1, Step.DeliverData(d));
      Apply(Apply(y2, Step.SendAck(d)), Step.DeliverAck(d))
  }

  lemma RoundFacts(y: System, d: uint8)
    requires SystemInv(y) && Idle(y, d) && Enabled(y, Step.Poll(d))
    ensures var y1 := Apply(y, Step.Poll(d));
      && d as int < |y1.peers| && (y1.peers[d].data != [] ==> Enabled(y1, Step.DeliverData(d)))
      && var y2 := if y1.peers[d].data == [] then y1 else Apply(y1, Step.DeliverData(d));
         && Enabled(y2, Step.SendAck(d)) && Enabled(Apply(y2, Step.SendAck(d)), Step.DeliverAck(d))
         && var z := Apply(Apply(y2, Step.SendAck(d)), Step.DeliverAck(d));
            && SystemInv(z) && Idle(z, d) && z.flows[d].sent == y.flows[d].sent
            && LinkOf(z, d) == Rounded(LinkOf(y, d), |y.flows[d].sent|, Fits(y, d))
            && (Smooth(y, d) ==> Smooth(z, d))
  {
    hide SystemInv, Formed, Apply, Enabled, Smooth;
    PolledLink(y, d);
    var y1 := Apply(y, Step.Poll(d));
    ArrivedLink(y1, d);
    var y2 := if y1.peers[d].data == [] then y1 else Apply(y1, Step.DeliverData(d));
    AckedLink(y2, d);
    if Smooth(y, d) {
      LinkFacts(y, d);
      SmoothRuns(y, d);
      if y.flows[d].next < |y.flows[d].sent| { SmoothNext(y, d); }
      SmoothStays(y, Apply(Apply(y2, Step.SendAck(d)), Step.DeliverAck(d)), d);
    }
  }

  /** No outstanding packet fails an assertion: none is empty, and none of the master's is of
      the maximum size. */
  ghost predicate Smooth(y: System, d: uint8) {
    && d as int < |y.peers| == |y.flows| && !y.peers[d].stopped
    && forall k :: 0 <= k < |y.flows[d].sent| && y.flows[d].base <= k ==>
         0 < |y.flows[d].sent[k]| && (y.tx.isMaster ==> |y.flows[d].sent[k]| < MAX_PACKET_DATA_SIZE)
  }

  /** The receiver takes the packet that is sent next, if it expects it. */
  ghost predicate Fits(y: System, d: uint8) {
    && d as int < |y.peers| == |y.flows| && y.flows[d].next < |y.flows[d].sent|
    && Takes(y.peers[d], y.flows[d].sent[y.flows[d].next])
  }

  /** What a round depends on and changes. */
  datatype Link = Link(base: nat, next: nat, accepted: nat, pause: nat, windowWrap: nat)

  ghost function LinkOf(y: System, d: uint8): Link
    requires SystemInv(y) && d as int < |y.peers|
  {
    Link(y.flows[d].base, y.flows[d].next, |y.peers[d].delivered|, y.tx.pause[d], y.tx.windowWrap)
  }

  predicate Sends(t: Link, end: nat) {
    t.pause == 0 && t.next < end && !WindowClosed(t.base, t.next, t.windowWrap)
  }

  function Polled(t: Link, end: nat): Link {
    if Sends(t, end) then t.(next := t.next + 1)
    else if t.pause == 0 && t.base < end then t.(pause := 2)
    else t
  }

  function Acked(t: Link): Link {
    if t.accepted > t.base then t.(base := t.accepted, next := if t.next < t.accepted then t.accepted else t.next, pause := 0)
    else if t.accepted > 0 && t.pause > 0 then
      t.(pause := t.pause - 1, next := if t.pause == 1 then t.base else t.next)
    else t
  }

  function Rounded(t: Link, end: nat, fits: bool): Link {
    var t1 := Polled(t, end);
    Acked(if Sends(t, end) && t.next == t.accepted && fits then t1.(accepted := t.accepted + 1) else t1)
  }

  lemma PolledLink(y: System, d: uint8)
    requires SystemInv(y) && Idle(y, d) && Enabled(y, Step.Poll(d))
    ensures var z := Apply(y, Step.Poll(d));
      && SystemInv(z) && d as int < |z.peers| == |z.flows|
      && z.flows[d].sent == y.flows[d].sent && z.peers[d].acks == []
      && z.peers[d].stopped == y.peers[d].stopped && z.peers[d].isMaster == y.peers[d].isMaster
      && z.tx.isMaster == y.tx.isMaster
      && LinkOf(z, d) == Polled(LinkOf(y, d), |y.flows[d].sent|)
      && (if Sends(LinkOf(y, d), |y.flows[d].sent|)
          then |z.peers[d].data| == 1 && z.peers[d].data[0].index == y.flows[d].next
               && z.peers[d].data[0].payload == y.flows[d].sent[y.flows[d].next]
          else z.peers[d].data == [])
  {
    InvFormed(y);
    PollStepKeepsInv(y, d);
    PollBranches(y.tx, y.flows, d);
    PollRefines(y.tx, y.flows, d);
  }

  lemma ArrivedLink(y: System, d: uint8)
    requires SystemInv(y) && d as int < |y.peers| && |y.peers[d].data| <= 1 && y.peers[d].acks == []
    ensures y.peers[d].data != [] ==>
      && Enabled(y, Step.DeliverData(d))
      && var z := Apply(y, Step.DeliverData(d));
         var m := y.peers[d].data[0];
         && SystemInv(z) && Idle(z, d) && z.flows == y.flows && z.tx == y.tx
         && (|m.payload| > 0 ==> z.peers[d].stopped == y.peers[d].stopped)
         && LinkOf(z, d) == LinkOf(y, d).(accepted := |y.peers[d].delivered| +
              if m.index == |y.peers[d].delivered| && Takes(y.peers[d], m.payload) then 1 else 0)
  {
    InvFormed(y);
    if y.peers[d].data != [] {
      StepKeepsInv(y, Step.DeliverData(d));
      ArriveKeepsPeer(y.flows[d], y.peers[d]);
    }
  }

  lemma AckedLink(y: System, d: uint8)
    requires SystemInv(y) && Idle(y, d)
    ensures Enabled(y, Step.SendAck(d)) && Enabled(Apply(y, Step.SendAck(d)), Step.DeliverAck(d))
    ensures var z := Apply(Apply(y, Step.SendAck(d)), Step.DeliverAck(d));
      && SystemInv(z) && Idle(z, d) && z.flows[d].sent == y.flows[d].sent
      && z.peers[d].stopped == y.peers[d].stopped && z.tx.isMaster == y.tx.isMaster
      && LinkOf(z, d) == Acked(LinkOf(y, d))
  {
    hide Inv, PeerOk, Ack;
    InvFormed(y);
    var y1 := Apply(y, Step.SendAck(d));
    StepKeepsInv(y, Step.SendAck(d));
    InvFormed(y1);
    AcceptedInQueue(y, d);
    DeliverAckKeepsInv(y1, d);
    AckRefines(y1.tx, y1.flows, d, |y.peers[d].delivered|);
    AckOutcomeOfCount(y1.tx, y1.flows, d, |y.peers[d].delivered|);
  }

  lemma AcceptedInQueue(y: System, d: uint8)
    requires SystemInv(y) && d as int < |y.peers|
    ensures Inv(y.tx, y.flows) && |y.flows| == |y.peers| && y.tx.Shaped() && |y.tx.start| == |y.flows|
    ensures y.flows[d].base <= |y.peers[d].delivered| <= |y.flows[d].sent| && y.peers[d].rxSeqNum == AckNumber(|y.peers[d].delivered|)
  {
    assert PeerOk(y.flows[d], y.peers[d]);
  }

  lemma SmoothStays(y: System, z: System, d: uint8)
    requires Smooth(y, d) && d as int < |z.peers| == |z.flows| && z.tx.isMaster == y.tx.isMaster && !z.peers[d].stopped
    requires z.flows[d].sent == y.flows[d].sent && z.flows[d].base >= y.flows[d].base
    ensures Smooth(z, d)
  {
  }

  lemma SmoothNext(y: System, d: uint8)
    requires Smooth(y, d) && y.flows[d].base <= y.flows[d].next < |y.flows[d].sent|
    ensures |y.flows[d].sent[y.flows[d].next]| > 0 && !y.peers[d].stopped
  {
  }

  ghost function Rounds(y: System, d: uint8, k: nat): (z: System)
    requires SystemInv(y) && Idle(y, d)
    ensures SystemInv(z) && Idle(z, d) && z.flows[d].sent == y.flows[d].sent
    decreases k
  {
    if k == 0 then y else Rounds(Round(y, d), d, k - 1)
  }

  lemma {:induction false} RoundsAdd(y: System, d: uint8, j: nat, k: nat)
    requires SystemInv(y) && Idle(y, d)
    ensures Rounds(Rounds(y, d, j), d, k) == Rounds(y, d, j + k)
    decreases j
  {
    hide SystemInv, Round, Smooth, Fits, Enabled, Rounded, LinkOf, Idle;
    if j > 0 { RoundsAdd(Round(y, d), d, j - 1, k); }
  }

  lemma LinkFacts(y: System, d: uint8)
    requires SystemInv(y) && Idle(y, d)
    ensures var l := LinkOf(y, d);
      && l.base <= l.next <= |y.flows[d].sent|
      && l.base <= l.accepted <= |y.flows[d].sent|
      && l.pause <= 2 && (l.pause > 0 ==> l.next > l.base)
  {
    assert FlowStored(y.tx, y.flows[d], d) && WindowOk(y.tx, y.flows[d], d) && PeerOk(y.flows[d], y.peers[d]);
  }

  /** The rounds that suffice: the rest of the buffer, two to count the pause down, one to
      send the oldest packet again. */
  function RoundBound(l: Link, end: nat): int {
    if l.pause > 0 then l.pause + 1
    else if l.next == l.base then 1
    else end - l.next + 3
  }

  lemma RoundAdvancesOrApproaches(l: Link, end: nat, fits: bool)
    requires l.base <= l.next <= end && l.base <= l.accepted <= end && l.base < end
    requires l.pause <= 2 && (l.pause > 0 ==> l.next > l.base)
    requires l.accepted > 0 || l.next == 0
    requires l.next == l.base == l.accepted ==> fits
    ensures var m := Rounded(l, end, fits);
      && RoundBound(l, end) >= 1
      && (m.base > l.base || (m.base == l.base == m.accepted && m.accepted == l.accepted > 0 && RoundBound(m, end) < RoundBound(l, end)))
  {
  }

  lemma SmoothPolls(y: System, d: uint8)
    requires SystemInv(y) && Idle(y, d) && Smooth(y, d)
    ensures Enabled(y, Step.Poll(d))
  {
    hide Inv, PeerOk;
    InvFormed(y);
    PollRefines(y.tx, y.flows, d);
  }

  /** What the receiver still has to take is not too big for it. */
  ghost predicate BaseFits(y: System, d: uint8) {
    && d as int < |y.peers| == |y.flows| && y.flows[d].base < |y.flows[d].sent|
    && (|y.peers[d].delivered| > y.flows[d].base || |y.flows[d].sent[y.flows[d].base]| < MAX_PACKET_DATA_SIZE)
  }

  /** Loss-free rounds move the window as soon as the receiver has accepted a packet, or
      when the next packet to go out is the first one. */
  lemma {:induction false} Advances(y: System, d: uint8) returns (k: nat)
    requires SystemInv(y) && Idle(y, d) && Smooth(y, d) && BaseFits(y, d)
    requires |y.peers[d].delivered| > 0 || y.flows[d].next == 0
    ensures k <= RoundBound(LinkOf(y, d), |y.flows[d].sent|)
    ensures Rounds(y, d, k).flows[d].base > y.flows[d].base && Smooth(Rounds(y, d, k), d)
    decreases RoundBound(LinkOf(y, d), |y.flows[d].sent|)
  {
    hide SystemInv, Round, Rounded, RoundBound, Smooth, Enabled;
    LinkFacts(y, d);
    SmoothPolls(y, d);
    SmoothRuns(y, d);
    RoundAdvancesOrApproaches(LinkOf(y, d), |y.flows[d].sent|, Fits(y, d));
    var z := Round(y, d);
    LinkFacts(z, d);
    assert Rounds(z, d, 0) == z;
    assert Rounds(y, d, 1) == Rounds(z, d, 0);
    if z.flows[d].base > y.flows[d].base {
      k := 1;
    } else {
      k := Advances(z, d);
      assert Rounds(y, d, k + 1) == Rounds(z, d, k);
      k := k + 1;
    }
  }

  lemma SmoothRuns(y: System, d: uint8)
    requires Smooth(y, d)
    ensures d as int < |y.peers| && !y.peers[d].stopped
  {
  }

  lemma RoundStaysStuck(l: Link, end: nat, fits: bool)
    requires l.base == 0 < l.next && l.accepted == 0
    ensures var m := Rounded(l, end, fits); m.base == 0 < m.next && m.accepted == 0
  {
  }

  /** Before the first acceptance the receiver's acknowledgement is 255, which the sender
      ignores without counting down its pause: once the first packet has gone out and was
      lost, no number of rounds moves the window. */
  lemma {:induction false} Stuck(y: System, d: uint8, k: nat)
    requires SystemInv(y) && Idle(y, d)
    requires |y.peers[d].delivered| == 0 && y.flows[d].next > 0
    ensures y.flows[d].base == 0 == Rounds(y, d, k).flows[d].base && |Rounds(y, d, k).peers[d].delivered| == 0
    decreases k
  {
    hide SystemInv, Round, Rounded, Fits, Enabled;
    LinkFacts(y, d);
    RoundStaysStuck(LinkOf(y, d), |y.flows[d].sent|, Fits(y, d));
    if k > 0 {
      Stuck(Round(y, d), d, k - 1);
    }
  }

  /** A packet of the maximum size is accepted by nobody, so nothing behind it is either and
      no window moves past it. The master drops it, although a node may submit it; the
      master's own never leaves it. */
  lemma FullSizeBlocks(y: System, d: uint8, j: nat)
    requires SystemInv(y) && d as int < |y.peers| && j < |y.flows[d].sent| && |y.flows[d].sent[j]| >= MAX_PACKET_DATA_SIZE
    ensures y.flows[d].base <= |y.peers[d].delivered| <= j
  {
    var f, p := y.flows[d], y.peers[d];
    assert PeerOk(f, p);
    assert forall i :: 0 <= i < |p.delivered| ==> SizeOk(f.sent[i], p.stopped);
  }

  /** Progress, exactly: with packets outstanding that fail no assertion and nothing in
      flight, loss-free rounds move the window at some point if and only if the receiver has
      accepted a packet or the first packet is still to be sent, and the oldest packet it
      has not accepted, if the window waits for that, is below the maximum size; then at
      most (end - next) + 3 rounds do. */
  lemma ProgressIff(y: System, d: uint8)
    requires SystemInv(y) && Idle(y, d) && Smooth(y, d) && y.flows[d].base < |y.flows[d].sent|
    ensures y.flows[d].next <= |y.flows[d].sent|
    ensures (|y.peers[d].delivered| > 0 || y.flows[d].next == 0) && BaseFits(y, d) <==>
      exists k: nat :: k <= |y.flows[d].sent| - y.flows[d].next + 3 && Rounds(y, d, k).flows[d].base > y.flows[d].base
    ensures (|y.peers[d].delivered| > 0 || y.flows[d].next == 0) && BaseFits(y, d) <==>
      exists k: nat :: Rounds(y, d, k).flows[d].base > y.flows[d].base
  {
    hide SystemInv, Round, Rounds, Smooth;
    LinkFacts(y, d);
    if (|y.peers[d].delivered| > 0 || y.flows[d].next == 0) && BaseFits(y, d) {
      var k := Advances(y, d);
    } else {
      forall k: nat ensures Rounds(y, d, k).flows[d].base <= y.flows[d].base {
        if BaseFits(y, d) { Stuck(y, d, k); } else { FullSizeBlocks(Rounds(y, d, k), d, y.flows[d].base); }
      }
    }
  }

  ghost predicate AllFit(y: System, d: uint8) {
    && d as int < |y.peers| == |y.flows| && !y.peers[d].stopped
    && forall k :: 0 <= k < |y.flows[d].sent| && y.flows[d].base <= k ==> 0 < |y.flows[d].sent[k]| < MAX_PACKET_DATA_SIZE
  }

  lemma {:induction false} Drains(y: System, d: uint8) returns (k: nat)
    requires SystemInv(y) && Idle(y, d) && AllFit(y, d)
    requires |y.peers[d].delivered| > 0 || y.flows[d].next == 0
    ensures Rounds(y, d, k).flows[d].base == |y.flows[d].sent| && !Rounds(y, d, k).peers[d].stopped
    decreases |y.flows[d].sent| - y.flows[d].base
  {
    hide SystemInv, Round;
    LinkFacts(y, d);
    if y.flows[d].base == |y.flows[d].sent| {
      k := 0;
    } else {
      var j := Advances(y, d);
      var z := Rounds(y, d, j);
      hide Rounds;
      LinkFacts(z, d);
      k := Drains(z, d);
      RoundsAdd(y, d, j, k);
      k := j + k;
    }
  }

  /** Everything gets through, exactly: with nothing in flight and the receiver running,
      loss-free rounds bring the acknowledged count up to all that was submitted and leave
      the receiver running if and only if the first packet was not lost before any was
      accepted, and every packet not yet accepted holds at least one byte and fewer than
      178. */
  lemma DrainIff(y: System, d: uint8)
    requires SystemInv(y) && Idle(y, d) && !y.peers[d].stopped
    ensures (exists k: nat :: Rounds(y, d, k).flows[d].base == |y.flows[d].sent| && !Rounds(y, d, k).peers[d].stopped) <==>
      && (|y.peers[d].delivered| > 0 || y.flows[d].next == 0)
      && forall j :: |y.peers[d].delivered| <= j < |y.flows[d].sent| ==> 0 < |y.flows[d].sent[j]| < MAX_PACKET_DATA_SIZE
  {
    hide SystemInv, Round, Rounds;
    LinkFacts(y, d);
    AcceptedFit(y, d);
    if && (|y.peers[d].delivered| > 0 || y.flows[d].next == 0)
       && forall j :: |y.peers[d].delivered| <= j < |y.flows[d].sent| ==> 0 < |y.flows[d].sent[j]| < MAX_PACKET_DATA_SIZE {
      var k := Drains(y, d);
    } else {
      forall k: nat ensures !(Rounds(y, d, k).flows[d].base == |y.flows[d].sent| && !Rounds(y, d, k).peers[d].stopped) {
        var z := Rounds(y, d, k);
        if z.flows[d].base == |y.flows[d].sent| && !z.peers[d].stopped {
          LinkFacts(z, d);
          AcceptedFit(z, d);
          if |y.peers[d].delivered| == 0 && y.flows[d].next > 0 { Stuck(y, d, k); }
          assert false;
        }
      }
    }
  }

  lemma AcceptedFit(y: System, d: uint8)
    requires SystemInv(y) && d as int < |y.peers| && !y.peers[d].stopped
    ensures |y.peers[d].delivered| <= |y.flows[d].sent|
    ensures forall j :: 0 <= j < |y.peers[d].delivered| ==> 0 < |y.flows[d].sent[j]| < MAX_PACKET_DATA_SIZE
  {
    assert PeerOk(y.flows[d], y.peers[d]);
    forall j | 0 <= j < |y.peers[d].delivered| ensures 0 < |y.flows[d].sent[j]| < MAX_PACKET_DATA_SIZE {
      assert SizeOk(y.peers[d].delivered[j], false);
    }
  }

  lemma ExtendRun(ys: seq<System>, steps: seq<Step>, step: Step) returns (z: System)
    requires IsRun(ys, steps) && SystemInv(ys[|steps|]) && Enabled(ys[|steps|], step)
    ensures z == Apply(ys[|steps|], step) && SystemInv(z) && Formed(z)
    ensures IsRun(ys + [z], steps + [step])
  {
    StepKeepsInv(ys[|steps|], step);
    z := Apply(ys[|steps|], step);
    InvFormed(z);
  }

  lemma OnePacketSubmitted(isMaster: bool, payload: Payload, memory: Packet) returns (ys: seq<System>)
    requires |payload| < MAX_PACKET_DATA_SIZE
    ensures IsRun(ys, [Step.Allocate, Step.Submit(0, payload)]) && ys[0] == Start(isMaster, 1, [memory])
    ensures SystemInv(ys[2]) && Formed(ys[2]) && |ys[2].flows| == 1
    ensures CanSend(ys[2].flows[0], ys[2].tx.pause[0]) && ys[2].flows[0].sent == [payload]
    ensures ys[2].tx.isMaster == isMaster && ys[2].tx.windowWrap == WINDOW_WRAP
    ensures ys[2].peers == [NewPeer(!isMaster)] && ys[2].flows[0].next == 0
  {
    var y := Start(isMaster, 1, [memory]);
    RunKeepsInv([y], [], isMaster, 1, [memory]);
    assert LowestFree(y.tx.entries) == 0;
    assert Enabled(y, Step.Allocate);
    var y0 := ExtendRun([y], [], Step.Allocate);
    assert y0.tx.pending == Some(0) && y0.tx.active == Queue([], 0);
    var y1 := ExtendRun([y] + [y0], [] + [Step.Allocate], Step.Submit(0, payload));
    ys := [y] + [y0] + [y1];
    assert [Step.Allocate, Step.Submit(0, payload)] == [] + [Step.Allocate] + [Step.Submit(0, payload)];
  }

  lemma SentAndLost(y: System)
    requires SystemInv(y) && Formed(y) && |y.flows| == 1 && CanSend(y.flows[0], y.tx.pause[0], y.tx.windowWrap)
    requires y.peers == [NewPeer(!y.tx.isMaster)] && y.flows[0].next == 0
    requires |y.flows[0].sent| == 1 && |y.flows[0].sent[0]| < MAX_PACKET_DATA_SIZE
    ensures Enabled(y, Step.Poll(0))
    ensures var z := Apply(y, Step.Poll(0));
      && z.flows[0].next > 0 && z.flows[0].sent == y.flows[0].sent && |z.flows| == |z.peers| == 1
      && |z.peers[0].data| == 1 && z.peers[0].acks == [] && z.peers[0].delivered == []
  {
    hide SystemInv;
    assert Inv(y.tx, y.flows) by { hide Inv, PeerOk; InvOfSystem(y); }
    hide Inv;
    PollRefines(y.tx, y.flows, 0);
  }

  lemma InvOfSystem(y: System)
    requires SystemInv(y)
    ensures Inv(y.tx, y.flows)
  {
  }

  /** The trap, in the smallest run: one packet, sent once and lost. */
  lemma FirstPacketLost(isMaster: bool, payload: Payload, memory: Packet) returns (ys: seq<System>)
    requires |payload| < MAX_PACKET_DATA_SIZE
    ensures IsRun(ys, [Step.Allocate, Step.Submit(0, payload)] + [Step.Poll(0)] + [Step.LoseData(0, 0)])
    ensures ys[0] == Start(isMaster, 1, [memory])
    ensures SystemInv(ys[4]) && Idle(ys[4], 0) && |ys[4].flows[0].sent| == 1
    ensures forall k: nat :: Rounds(ys[4], 0, k).flows[0].base == 0
  {
    hide SystemInv, Transmit, IsRun;
    var before := OnePacketSubmitted(isMaster, payload, memory);
    var steps := [Step.Allocate, Step.Submit(0, payload)];
    SentAndLost(before[2]);
    var sent := ExtendRun(before, steps, Step.Poll(0));
    var y := ExtendRun(before + [sent], steps + [Step.Poll(0)], Step.LoseData(0, 0));
    ys := before + [sent] + [y];
    forall k: nat ensures Rounds(y, 0, k).flows[0].base == 0 {
      Stuck(y, 0, k);
    }
  }
}
