/** How far a window can run ahead of the acknowledged packets, and a run in which it runs
    too far. */
module Window {
  import opened Microbus
  import opened TxSpec
  import opened TxInvariant
  import opened TxConservation
  import opened Delivery
  import opened DeliveryRuns
  import opened Progress

  /** At most four packets are outstanding and sent; three at the numbers where a window end
      that wraps at 256 falls short. */
  predicate Bounded(f: Flow, windowWrap: nat) {
    f.next - f.base <=
      if windowWrap == WINDOW_WRAP && f.base % MAX_SEQUENCE_NUM > 251 then SLIDING_WINDOW_SIZE - 1
      else SLIDING_WINDOW_SIZE
  }

  /** The window starts at 251, four packets are out and a fifth is waiting: the 8-bit
      window end is 255, which no number equals. */
  predicate Oversteps(s: TxState, d: uint8) {
    && s.Shaped() && d as int < |s.start| && s.windowWrap == WINDOW_WRAP
    && s.start[d] == 251 && s.next[d] == 0 && s.pause[d] == 0 && s.end[d] != 0
  }

  lemma PollKeepsBoundIff(s: TxState, fs: seq<Flow>, d: uint8)
    requires Inv(s, fs) && d as int < |fs| && Bounded(fs[d], s.windowWrap)
    ensures Bounded(PolledFlow(fs[d], s.pause[d], s.windowWrap), s.windowWrap) <==> !Oversteps(s, d)
  {
    var f := fs[d];
    assert FlowStored(s, f, d) && WindowOk(s, f, d);
    if s.start[d] == 251 && s.windowWrap == WINDOW_WRAP {
      ResidueAfter(f.base, f.next - f.base);
      ResidueAfter(f.base, |f.sent| - f.base);
    }
  }

  lemma AckKeepsBound(f: Flow, m: nat, windowWrap: nat)
    requires f.base <= f.next && 0 < m <= |f.slots| && Bounded(f, windowWrap)
    ensures Bounded(AckedFlow(f, m), windowWrap)
  {
  }

  lemma DeliveredAckKeepsBound(y: System, d: uint8, e: uint8)
    requires SystemInv(y) && Enabled(y, DeliverAck(e)) && d as int < |y.flows| && Bounded(y.flows[d], y.tx.windowWrap)
    ensures var z := Apply(y, DeliverAck(e));
      |z.flows| == |y.flows| && Bounded(z.flows[d], y.tx.windowWrap)
  {
    hide Ack;
    assert FlowStored(y.tx, y.flows[d], d) && WindowOk(y.tx, y.flows[d], d);
    if e == d {
      var f, ack := y.flows[d], y.peers[d].acks[0].seqNum;
      if ack != NULL_SEQUENCE_NUM && AckInRange(y.tx.start[d], y.tx.end[d], ack) {
        CoveredInWindow(y.tx, y.flows, d, ack);
        AckKeepsBound(f, Covered(y.tx, d, ack), y.tx.windowWrap);
      }
    }
  }

  predicate BoundedAt(y: System, d: uint8) {
    d as int < |y.flows| && Bounded(y.flows[d], y.tx.windowWrap)
  }

  predicate OverstepsAt(y: System, step: Step, d: uint8) {
    step == Step.Poll(d) && Oversteps(y.tx, d)
  }

  /** Of all steps only one breaks the bound, cumulative acknowledgements across 251..254
      included. */
  lemma StepKeepsBoundIff(y: System, step: Step, d: uint8)
    requires SystemInv(y) && Enabled(y, step) && BoundedAt(y, d)
    ensures Apply(y, step).tx.windowWrap == y.tx.windowWrap
    ensures BoundedAt(Apply(y, step), d) <==> !OverstepsAt(y, step, d)
  {
    hide Inv, Find, LowestFree, Bounded, Oversteps, Ack;
    match step
    case Poll(e) =>
      if e == d { PollKeepsBoundIff(y.tx, y.flows, d); }
    case DeliverAck(e) => DeliveredAckKeepsBound(y, d, e);
    case Submit(e, payload) => SubmitKeepsBound(y.flows[e], payload, y.tx.pending.value, y.tx.windowWrap);
    case _ =>
  }

  lemma SubmitKeepsBound(f: Flow, payload: Payload, slot: nat, windowWrap: nat)
    ensures Bounded(SubmittedFlow(f, payload, slot), windowWrap) == Bounded(f, windowWrap)
  {
  }

  /** The window bound, exactly: it holds in every state of a run if and only if no step of
      the run polls d with its window starting at 251, four packets out and more waiting. */
  lemma {:induction false} WindowBoundedIff(ys: seq<System>, steps: seq<Step>, isMaster: bool, numDst: nat,
                                            memory: seq<Packet>, windowWrap: nat, d: uint8)
    requires windowWrap == WINDOW_WRAP || windowWrap == MAX_SEQUENCE_NUM
    requires |memory| <= MAX_STORE && numDst <= MAX_NODES && (!isMaster ==> numDst == 1)
    requires IsRun(ys, steps) && ys[0] == Start(isMaster, numDst, memory, windowWrap) && d as int < numDst
    ensures ys[|steps|].tx.windowWrap == windowWrap
    ensures (forall k :: 0 <= k <= |steps| ==> BoundedAt(ys[k], d)) <==>
            (forall k :: 0 <= k < |steps| ==> !OverstepsAt(ys[k], steps[k], d))
  {
    hide SystemInv, Apply, Enabled, BoundedAt, OverstepsAt;
    if steps == [] {
      StartBounded(isMaster, numDst, memory, windowWrap, d);
    } else {
      var n := |steps| - 1;
      WindowBoundedIff(ys[..n + 1], steps[..n], isMaster, numDst, memory, windowWrap, d);
      RunKeepsInv(ys[..n + 1], steps[..n], isMaster, numDst, memory, windowWrap);
      WrapStays(ys[n], steps[n]);
      if BoundedAt(ys[n], d) { StepKeepsBoundIff(ys[n], steps[n], d); }
      assert forall k :: 0 <= k <= n ==> ys[..n + 1][k] == ys[k];
      assert forall k :: 0 <= k < n ==> steps[..n][k] == steps[k];
    }
  }

  lemma WrapStays(y: System, step: Step)
    requires Enabled(y, step)
    ensures Apply(y, step).tx.windowWrap == y.tx.windowWrap
  {
    hide Find, TxSpec.Poll, Ack;
  }

  lemma StartBounded(isMaster: bool, numDst: nat, memory: seq<Packet>, windowWrap: nat, d: uint8)
    requires d as int < numDst
    ensures BoundedAt(Start(isMaster, numDst, memory, windowWrap), d)
  {
  }

  /** A window end that wraps at 255, as the numbers do, keeps every window of every run at
      four packets. */
  lemma WindowModulo255(ys: seq<System>, steps: seq<Step>, isMaster: bool, numDst: nat, memory: seq<Packet>, d: uint8)
    requires |memory| <= MAX_STORE && numDst <= MAX_NODES && (!isMaster ==> numDst == 1)
    requires IsRun(ys, steps) && ys[0] == Start(isMaster, numDst, memory, MAX_SEQUENCE_NUM) && d as int < numDst
    ensures d as int < |ys[|steps|].flows|
    ensures ys[|steps|].flows[d].next - ys[|steps|].flows[d].base <= SLIDING_WINDOW_SIZE
  {
    forall k | 0 <= k < |steps| ensures !OverstepsAt(ys[k], steps[k], d) {
      WindowBoundedIff(ys[..k + 1], steps[..k], isMaster, numDst, memory, MAX_SEQUENCE_NUM, d);
    }
    WindowBoundedIff(ys, steps, isMaster, numDst, memory, MAX_SEQUENCE_NUM, d);
    assert BoundedAt(ys[|steps|], d);
  }

  function Polls(s: TxState, d: uint8, k: nat): (t: TxState)
    requires s.Shaped() && d as int < |s.start|
    ensures t.Shaped() && t.start == s.start && t.windowWrap == s.windowWrap
  {
    if k == 0 then s else TxSpec.Poll(Polls(s, d, k - 1), d).0
  }

  lemma SendAt251(s: TxState, fs: seq<Flow>, d: uint8)
    requires Inv(s, fs) && d as int < |fs| && s.Shaped() && d as int < |s.start|
    requires s.windowWrap == WINDOW_WRAP && s.start[d] == 251 && s.pause[d] == 0 && fs[d].next < |fs[d].sent|
    ensures Inv(TxSpec.Poll(s, d).0, fs[d := fs[d].(next := fs[d].next + 1)]) && TxSpec.Poll(s, d).0.pause == s.pause
  {
    PollBranches(s, fs, d);
    PollKeepsInv(s, fs, d);
  }

  /** At 251 the window has no end: k polls in a row send k packets, as long as the buffer
      lasts. */
  lemma {:induction false} NoWindowAt251(s: TxState, fs: seq<Flow>, d: uint8, k: nat)
    requires Inv(s, fs) && s.Shaped() && d as int < |fs| == |s.start|
    requires s.windowWrap == WINDOW_WRAP && s.start[d] == 251 && s.pause[d] == 0
    requires fs[d].next + k <= |fs[d].sent|
    ensures Inv(Polls(s, d, k), fs[d := fs[d].(next := fs[d].next + k)]) && Polls(s, d, k).pause == s.pause
  {
    hide Inv, TxSpec.Poll;
    if k == 0 {
      assert fs[d := fs[d].(next := fs[d].next + 0)] == fs;
    } else {
      NoWindowAt251(s, fs, d, k - 1);
      var t, gs := Polls(s, d, k - 1), fs[d := fs[d].(next := fs[d].next + (k - 1))];
      SendAt251(t, gs, d);
      assert gs[d := gs[d].(next := gs[d].next + 1)] == fs[d := fs[d].(next := fs[d].next + k)];
    }
  }

  // ---------- a run to start number 251 ----------

  /** One destination, n packets through, k more submitted and waiting, nothing in flight. */
  ghost predicate Waiting(y: System, isMaster: bool, n: nat, k: nat) {
    && SystemInv(y) && Idle(y, 0) && OneDestination(y, isMaster)
    && y.tx.pending.None? && y.tx.pause[0] == 0
    && y.flows[0].base == y.flows[0].next == n == |y.peers[0].delivered| && |y.flows[0].sent| == n + k
  }

  ghost predicate OneDestination(y: System, isMaster: bool) {
    && |y.flows| == |y.peers| == 1 && y.tx.isMaster == isMaster && y.tx.windowWrap == WINDOW_WRAP
    && y.tx.Shaped() && |y.tx.start| == 1 && |y.tx.entries| >= 5 && !y.peers[0].stopped
    && forall j :: 0 <= j < |y.flows[0].sent| ==> |y.flows[0].sent[j]| == 1
  }

  lemma ActiveRoom(s: TxState, fs: seq<Flow>)
    requires Inv(s, fs) && |fs| == 1 && s.isMaster
    ensures |s.active.ids| <= 1
  {
    forall i | 0 <= i < |s.active.ids| ensures s.active.ids[i] < 1 {
      assert s.active.ids[i] in s.active.ids;
    }
    DistinctBelow(s.active.ids, 1);
  }

  lemma FreeEntry(s: TxState, fs: seq<Flow>)
    requires Inv(s, fs) && |fs| == 1 && s.pending.None? && |fs[0].sent| - fs[0].base < |s.entries|
    ensures exists i :: 0 <= i < |s.entries| && !s.entries[i].inUse
  {
    InUseIsOutstanding(s, fs);
    assert FlowStored(s, fs[0], 0);
    assert fs[..0] == [];
    assert Outstanding(fs) == |fs[0].slots|;
    if forall i :: 0 <= i < |s.entries| ==> s.entries[i].inUse {
      AllInUse(s.entries);
    }
  }

  lemma AllInUse(es: seq<Entry>)
    requires forall i :: 0 <= i < |es| ==> es[i].inUse
    ensures |InUse(es)| == |es|
  {
    assert InUse(es) == Below(|es|);
  }

  lemma AllocateOne(y: System, isMaster: bool, n: nat, k: nat)
    requires Waiting(y, isMaster, n, k) && k < 5
    ensures Enabled(y, Step.Allocate)
    ensures var z := Apply(y, Step.Allocate);
      Enabled(z, Step.Submit(0, [0])) && SystemInv(z) && z == y.(tx := z.tx)
      && Waiting(Apply(z, Step.Submit(0, [0])), isMaster, n, k + 1)
  {
    hide Inv, PeerOk, LowestFree;
    InvFormed(y);
    if isMaster { ActiveRoom(y.tx, y.flows); }
    FreeEntry(y.tx, y.flows);
    AllocateKeepsInv(y.tx, y.flows);
    StepKeepsInv(y, Step.Allocate);
    var z := Apply(y, Step.Allocate);
    InvFormed(z);
    SubmitStepKeepsInv(z, 0, [0]);
  }

  lemma SubmitOne(ys: seq<System>, steps: seq<Step>, isMaster: bool, n: nat, k: nat)
    returns (zs: seq<System>, more: seq<Step>)
    requires IsRun(ys, steps) && Waiting(ys[|steps|], isMaster, n, k) && k < 5
    ensures IsRun(zs, more) && zs[0] == ys[0] && Waiting(zs[|more|], isMaster, n, k + 1)
  {
    hide Waiting, IsRun;
    RunLength(ys, steps);
    WaitingInv(ys[|steps|], isMaster, n, k);
    AllocateOne(ys[|steps|], isMaster, n, k);
    var a := ExtendRun(ys, steps, Step.Allocate);
    var b := ExtendRun(ys + [a], steps + [Step.Allocate], Step.Submit(0, [0]));
    zs, more := ys + [a] + [b], steps + [Step.Allocate] + [Step.Submit(0, [0])];
  }

  lemma RunLength(ys: seq<System>, steps: seq<Step>)
    requires IsRun(ys, steps)
    ensures |ys| == |steps| + 1 && ys[|steps|] == ys[|ys| - 1]
  {
  }

  lemma WaitingInv(y: System, isMaster: bool, n: nat, k: nat)
    requires Waiting(y, isMaster, n, k)
    ensures SystemInv(y) && Idle(y, 0) && Smooth(y, 0) && BaseSize(y)
  {
  }

  predicate BaseSize(y: System) {
    |y.flows| == 1 && forall j :: 0 <= j < |y.flows[0].sent| ==> |y.flows[0].sent[j]| == 1
  }

  /** The four steps of a round. */
  lemma SendOne(ys: seq<System>, steps: seq<Step>, isMaster: bool, n: nat)
    returns (zs: seq<System>, more: seq<Step>)
    requires IsRun(ys, steps) && Waiting(ys[|steps|], isMaster, n, 1)
    ensures IsRun(zs, more) && zs[0] == ys[0] && Waiting(zs[|more|], isMaster, n + 1, 0)
  {
    hide Waiting, IsRun, Apply, Enabled;
    RunLength(ys, steps);
    var y := ys[|steps|];
    WaitingInv(y, isMaster, n, 1);
    RoundOne(y, isMaster, n);
    var a := ExtendRun(ys, steps, Step.Poll(0));
    var b := ExtendRun(ys + [a], steps + [Step.Poll(0)], Step.DeliverData(0));
    var c := ExtendRun(ys + [a] + [b], steps + [Step.Poll(0)] + [Step.DeliverData(0)], Step.SendAck(0));
    var e := ExtendRun(ys + [a] + [b] + [c], steps + [Step.Poll(0)] + [Step.DeliverData(0)] + [Step.SendAck(0)], Step.DeliverAck(0));
    zs := ys + [a] + [b] + [c] + [e];
    more := steps + [Step.Poll(0)] + [Step.DeliverData(0)] + [Step.SendAck(0)] + [Step.DeliverAck(0)];
  }

  lemma RoundOne(y: System, isMaster: bool, n: nat)
    requires Waiting(y, isMaster, n, 1)
    ensures Enabled(y, Step.Poll(0)) && Enabled(Apply(y, Step.Poll(0)), Step.DeliverData(0))
    ensures var b := Apply(Apply(y, Step.Poll(0)), Step.DeliverData(0));
      && Enabled(b, Step.SendAck(0)) && Enabled(Apply(b, Step.SendAck(0)), Step.DeliverAck(0))
      && Waiting(Apply(Apply(b, Step.SendAck(0)), Step.DeliverAck(0)), isMaster, n + 1, 0)
  {
    hide SystemInv, Apply, Enabled;
    WaitingInv(y, isMaster, n, 1);
    SmoothPolls(y, 0);
    PolledLink(y, 0);
    var a := Apply(y, Step.Poll(0));
    SameStore(y, Step.Poll(0));
    ArrivedLink(a, 0);
    var b := Apply(a, Step.DeliverData(0));
    SameStore(a, Step.DeliverData(0));
    AckedLink(b, 0);
    SameStore(b, Step.SendAck(0));
    SameStore(Apply(b, Step.SendAck(0)), Step.DeliverAck(0));
  }

  /** Steps that neither allocate nor submit. */
  lemma SameStore(y: System, step: Step)
    requires Enabled(y, step) && !step.Allocate? && !step.Submit?
    ensures var z := Apply(y, step);
      && z.tx.pending == y.tx.pending && |z.tx.entries| == |y.tx.entries|
      && z.tx.isMaster == y.tx.isMaster && z.tx.windowWrap == y.tx.windowWrap
      && |z.flows| == |y.flows| && |z.peers| == |y.peers|
      && z.tx.Shaped() && |z.tx.start| == |y.tx.start|
  {
    hide Find, FreeUpTo;
  }

  /** Any number of packets gets through. */
  lemma {:induction false} ReachBase(isMaster: bool, memory: seq<Packet>, n: nat)
    returns (ys: seq<System>, steps: seq<Step>)
    requires 5 <= |memory| <= MAX_STORE
    ensures IsRun(ys, steps) && ys[0] == Start(isMaster, 1, memory) && Waiting(ys[|steps|], isMaster, n, 0)
  {
    if n == 0 {
      ys, steps := [Start(isMaster, 1, memory)], [];
      RunKeepsInv(ys, steps, isMaster, 1, memory);
    } else {
      hide Waiting, IsRun;
      ys, steps := ReachBase(isMaster, memory, n - 1);
      RunLength(ys, steps);
      ys, steps := SubmitOne(ys, steps, isMaster, n - 1, 0);
      RunLength(ys, steps);
      ys, steps := SendOne(ys, steps, isMaster, n - 1);
    }
  }

  lemma {:induction false} Buffer(ys: seq<System>, steps: seq<Step>, isMaster: bool, n: nat, k: nat)
    returns (zs: seq<System>, more: seq<Step>)
    requires IsRun(ys, steps) && Waiting(ys[|steps|], isMaster, n, 0) && k <= 5
    ensures IsRun(zs, more) && zs[0] == ys[0] && Waiting(zs[|more|], isMaster, n, k)
  {
    hide Waiting, IsRun;
    RunLength(ys, steps);
    if k == 0 {
      zs, more := ys, steps;
    } else {
      zs, more := Buffer(ys, steps, isMaster, n, k - 1);
      RunLength(zs, more);
      zs, more := SubmitOne(zs, more, isMaster, n, k - 1);
    }
  }

  /** k of the buffered packets are out. */
  ghost predicate Out(y: System, isMaster: bool, n: nat, k: nat) {
    && SystemInv(y) && OneDestination(y, isMaster) && y.tx.pause[0] == 0
    && y.flows[0].base == n && y.flows[0].next == n + k && |y.flows[0].sent| == n + 5
  }

  lemma PollOne(y: System, isMaster: bool, n: nat, k: nat)
    requires Out(y, isMaster, n, k) && n % MAX_SEQUENCE_NUM == 251 && k < 5
    ensures Enabled(y, Step.Poll(0)) && Out(Apply(y, Step.Poll(0)), isMaster, n, k + 1)
  {
    InvFormed(y);
    hide Inv, PeerOk, Find;
    PollRefines(y.tx, y.flows, 0);
    PollBranches(y.tx, y.flows, 0);
    PollStepKeepsInv(y, 0);
  }

  lemma {:induction false} SendOut(ys: seq<System>, steps: seq<Step>, isMaster: bool, n: nat, k: nat)
    returns (zs: seq<System>, more: seq<Step>)
    requires IsRun(ys, steps) && Out(ys[|steps|], isMaster, n, 0) && n % MAX_SEQUENCE_NUM == 251 && k <= 5
    ensures IsRun(zs, more) && zs[0] == ys[0] && Out(zs[|more|], isMaster, n, k)
  {
    hide Out, IsRun, Apply, Enabled;
    RunLength(ys, steps);
    if k == 0 {
      zs, more := ys, steps;
    } else {
      zs, more := SendOut(ys, steps, isMaster, n, k - 1);
      RunLength(zs, more);
      var y := zs[|more|];
      OutInv(y, isMaster, n, k - 1);
      PollOne(y, isMaster, n, k - 1);
      var z := ExtendRun(zs, more, Step.Poll(0));
      zs, more := zs + [z], more + [Step.Poll(0)];
    }
  }

  lemma OutInv(y: System, isMaster: bool, n: nat, k: nat)
    requires Out(y, isMaster, n, k)
    ensures SystemInv(y)
  {
  }

  lemma WaitingIsOut(y: System, isMaster: bool, n: nat)
    requires Waiting(y, isMaster, n, 5)
    ensures Out(y, isMaster, n, 0)
  {
  }

  /** The window is overstepped in a run without a single loss: 251 packets get through one by
      one, five more are submitted, and all five are sent. */
  lemma WindowOverrun(isMaster: bool, memory: seq<Packet>) returns (ys: seq<System>, steps: seq<Step>)
    requires 5 <= |memory| <= MAX_STORE
    ensures IsRun(ys, steps) && ys[0] == Start(isMaster, 1, memory) && |ys[|steps|].flows| == 1
    ensures ys[|steps|].flows[0].base == 251 && ys[|steps|].flows[0].next == 251 + SLIDING_WINDOW_SIZE + 1
    ensures exists k :: 0 <= k < |steps| && OverstepsAt(ys[k], steps[k], 0)
  {
    hide Waiting, IsRun;
    ys, steps := ReachBase(isMaster, memory, 251);
    RunLength(ys, steps);
    ys, steps := Buffer(ys, steps, isMaster, 251, 5);
    RunLength(ys, steps);
    WaitingIsOut(ys[|steps|], isMaster, 251);
    ys, steps := SendOut(ys, steps, isMaster, 251, 5);
    RunLength(ys, steps);
    WindowBoundedIff(ys, steps, isMaster, 1, memory, WINDOW_WRAP, 0);
    assert !BoundedAt(ys[|steps|], 0);
  }
}
