/** Whole runs of a sender, its receivers and the channels between them. */
module DeliveryRuns {
  import opened Microbus
  import opened TxSpec
  import opened TxInvariant
  import opened TxConservation
  import opened Delivery

  /** A run is a sequence of states, each obtained from the one before by a step. */
  predicate IsRun(ys: seq<System>, steps: seq<Step>) {
    && |ys| == |steps| + 1
    && forall i :: 0 <= i < |steps| ==> Enabled(ys[i], steps[i]) && ys[i + 1] == Apply(ys[i], steps[i])
  }

  /** What the run's submissions to d were, in order. */
  function SubmittedTo(steps: seq<Step>, d: uint8): seq<Payload> {
    if steps == [] then []
    else
      var last := steps[|steps| - 1];
      SubmittedTo(steps[..|steps| - 1], d) + if last.Submit? && last.d == d then [last.payload] else []
  }

  lemma StartPeersOk(isMaster: bool, numDst: nat, memory: seq<Packet>, windowWrap: nat)
    ensures var y := Start(isMaster, numDst, memory, windowWrap);
      forall d :: 0 <= d < numDst ==> PeerOk(y.flows[d], y.peers[d])
  {
  }

  /** The queue of submitted packets grows by the submissions and by nothing else. */
  lemma StepSubmits(y: System, step: Step, d: uint8)
    requires Enabled(y, step) && d as int < |y.flows|
    ensures |Apply(y, step).flows| == |y.flows|
    ensures Apply(y, step).flows[d].sent ==
      y.flows[d].sent + if step.Submit? && step.d == d then [step.payload] else []
  {
  }

  lemma {:induction false} RunKeepsInv(ys: seq<System>, steps: seq<Step>, isMaster: bool, numDst: nat, memory: seq<Packet>,
                                       windowWrap: nat := WINDOW_WRAP)
    requires windowWrap == WINDOW_WRAP || windowWrap == MAX_SEQUENCE_NUM
    requires |memory| <= MAX_STORE && numDst <= MAX_NODES && (!isMaster ==> numDst == 1)
    requires IsRun(ys, steps) && ys[0] == Start(isMaster, numDst, memory, windowWrap)
    ensures SystemInv(ys[|steps|]) && Formed(ys[|steps|]) && |ys[|steps|].flows| == numDst
    ensures forall d: uint8 :: d as int < numDst ==> ys[|steps|].flows[d].sent == SubmittedTo(steps, d)
  {
    hide Inv, PeerOk, Apply;
    if steps == [] {
      InitEstablishesInv(isMaster, numDst, memory, windowWrap);
      StartPeersOk(isMaster, numDst, memory, windowWrap);
      InvFormed(ys[0]);
    } else {
      var n := |steps| - 1;
      RunKeepsInv(ys[..n + 1], steps[..n], isMaster, numDst, memory, windowWrap);
      StepKeepsInv(ys[n], steps[n]);
      InvFormed(ys[n + 1]);
      forall d: uint8 | d as int < numDst ensures ys[n + 1].flows[d].sent == SubmittedTo(steps, d) {
        StepSubmits(ys[n], steps[n], d);
      }
    }
  }

  /** End-to-end safety. In every run, whatever is lost, each receiver has accepted a
      prefix of what was submitted to it: nothing missing, repeated, reordered or altered.
      The sender has discarded only packets that were accepted. A packet of the maximum size
      is never accepted, and an empty one only by a receiver that stopped at it. */
  lemma DeliveredIsPrefix(ys: seq<System>, steps: seq<Step>, isMaster: bool, numDst: nat, memory: seq<Packet>, d: uint8)
    requires |memory| <= MAX_STORE && numDst <= MAX_NODES && (!isMaster ==> numDst == 1)
    requires IsRun(ys, steps) && ys[0] == Start(isMaster, numDst, memory) && d as int < numDst
    ensures SystemInv(ys[|steps|]) && |ys[|steps|].peers| == numDst
    ensures ys[|steps|].peers[d].delivered <= SubmittedTo(steps, d)
    ensures ys[|steps|].flows[d].base <= |ys[|steps|].peers[d].delivered|
    ensures forall k :: 0 <= k < |ys[|steps|].peers[d].delivered| ==>
      SizeOk(ys[|steps|].peers[d].delivered[k], ys[|steps|].peers[d].stopped)
  {
    RunKeepsInv(ys, steps, isMaster, numDst, memory);
    var y := ys[|steps|];
    assert PeerOk(y.flows[d], y.peers[d]);
  }

  lemma StepKeepsBalance(y: System, step: Step)
    requires Enabled(y, step) && Balanced(y.tx)
    ensures Balanced(Apply(y, step).tx)
  {
    hide Find, LowestFree, TxSpec.Submit, Ack, TxSpec.Allocate;
    match step
    case Allocate => AllocateKeepsBalance(y.tx);
    case Submit(d, payload) => SubmitKeepsBalance(y.tx, 1, d, payload);
    case DeliverAck(d) => AckKeepsBalance(y.tx, d, y.peers[d].acks[0].seqNum);
    case _ =>
  }

  /** Conservation, in every state of every run: the counters of stored and freed packets
      differ by the number of entries in use, and those are the packets of the windows and
      the allocated one. */
  lemma {:induction false} RunConserves(ys: seq<System>, steps: seq<Step>, isMaster: bool, numDst: nat, memory: seq<Packet>)
    requires |memory| <= MAX_STORE && numDst <= MAX_NODES && (!isMaster ==> numDst == 1)
    requires IsRun(ys, steps) && ys[0] == Start(isMaster, numDst, memory)
    ensures var y := ys[|steps|];
      && Balanced(y.tx)
      && |InUse(y.tx.entries)| == Outstanding(y.flows) + if y.tx.pending.Some? then 1 else 0
  {
    hide Inv, PeerOk, Apply, Enabled, Balanced;
    RunKeepsInv(ys, steps, isMaster, numDst, memory);
    StoreOfSystem(ys[|steps|]);
    InUseIsOutstanding(ys[|steps|].tx, ys[|steps|].flows);
    if steps == [] {
      StartBalanced(isMaster, numDst, memory);
    } else {
      var n := |steps| - 1;
      RunConserves(ys[..n + 1], steps[..n], isMaster, numDst, memory);
      StepKeepsBalance(ys[n], steps[n]);
    }
  }

  lemma StoreOfSystem(y: System)
    requires SystemInv(y)
    ensures StoreInv(y.tx, y.flows)
  {
  }

  lemma StartBalanced(isMaster: bool, numDst: nat, memory: seq<Packet>)
    ensures Balanced(Init(isMaster, numDst, memory))
  {
    assert InUse(Init(isMaster, numDst, memory).entries) == {};
  }
}
