/** What the scheduler guarantees over whole runs of slots. */
module SchedulerProofs {
  import opened Microbus
  import opened NodeQueues
  import opened SchedulerSpec

  // ---------- acknowledgement slots ----------

  /** The k-th node the cursor will reach. */
  function Probe(q: Queue, k: nat): uint8
    requires q.last < |q.ids| && k < |q.ids|
  {
    q.ids[if q.last + k < |q.ids| then q.last + k else q.last + k - |q.ids|]
  }

  /** Three slots cannot account for four distinct nodes. */
  lemma FourProbes(q: Queue, recent: seq<uint8>)
    requires q.Valid() && |q.ids| >= 4 && |recent| == MAX_MASTER_SLOTS_BETWEEN_ACKS
    ensures exists k :: 0 <= k < 4 && !RecentlySent(recent, Probe(q, k))
  {
    var a, b, c, d := Probe(q, 0), Probe(q, 1), Probe(q, 2), Probe(q, 3);
    assert a != b && a != c && a != d && b != c && b != d && c != d;
    var r := recent[..3];
    assert r == [recent[0], recent[1], recent[2]];
    if RecentlySent(recent, a) && RecentlySent(recent, b) && RecentlySent(recent, c) && RecentlySent(recent, d) {
      assert false;
    }
  }

  /** The cursor stands at its i-th probe, counted from q0's. */
  predicate AtProbe(q: Queue, q0: Queue, i: nat)
    requires q0.last < |q0.ids|
  {
    q.ids == q0.ids && q.last < |q.ids|
    && (i < |q.ids| ==> q.last == if q0.last + i < |q.ids| then q0.last + i else q0.last + i - |q.ids|)
  }

  lemma ProbeStep(q: Queue, q0: Queue, recent: seq<uint8>, i: nat)
    requires q0.last < |q0.ids| && AtProbe(q, q0, i) && i < |q.ids| && |recent| == MAX_MASTER_SLOTS_BETWEEN_ACKS
    ensures var (node, q1) := q.Next();
      && node == Probe(q0, i) && AtProbe(q1, q0, i + 1)
      && AckSearch(q, recent, i) == if RecentlySent(recent, node) then AckSearch(q1, recent, i + 1) else (node, q1)
  {
  }

  lemma SearchEnds(q: Queue, recent: seq<uint8>)
    requires q.Valid() && |recent| == MAX_MASTER_SLOTS_BETWEEN_ACKS
    ensures AckSearch(q, recent, |q.ids|) == (INVALID_NODE_ID, q)
    ensures q.ids != [] ==> AtProbe(q, q, 0)
  {
  }

  /** From the i-th probe on, the search returns the first node not recently scheduled. */
  lemma {:induction false} SearchFromProbe(q: Queue, q0: Queue, recent: seq<uint8>, i: nat)
    requires q0.Valid() && q0.ids != [] && i <= |q0.ids| && |recent| == MAX_MASTER_SLOTS_BETWEEN_ACKS
    requires q.ids == q0.ids && q.last < |q.ids|
    requires q.last == (if q0.last + i < |q0.ids| then q0.last + i else q0.last + i - |q0.ids|)
    ensures var node := AckSearch(q, recent, i).0;
      (node == INVALID_NODE_ID && forall k :: i <= k < |q0.ids| ==> RecentlySent(recent, Probe(q0, k)))
      || exists k :: i <= k < |q0.ids| && node == Probe(q0, k) && !RecentlySent(recent, node)
                     && forall m :: i <= m < k ==> RecentlySent(recent, Probe(q0, m))
    decreases |q0.ids| - i
  {
    if i < |q0.ids| {
      var (node, q1) := q.Next();
      assert node == Probe(q0, i);
      if RecentlySent(recent, node) {
        SearchFromProbe(q1, q0, recent, i + 1);
      }
    }
  }

  /** The search for a node to acknowledge ends within four probes or with the queue
      exhausted, whatever the queue's length and the cursor's place. */
  lemma AckSearchEnds(q: Queue, recent: seq<uint8>)
    requires NodesIn(q) && q.ids != [] && |recent| == MAX_MASTER_SLOTS_BETWEEN_ACKS
    ensures var node := AckSearch(q, recent).0;
      if node == INVALID_NODE_ID then |q.ids| <= 3 && forall x :: x in q.ids ==> RecentlySent(recent, x)
      else exists k :: 0 <= k < |q.ids| && k < 4 && node == Probe(q, k) && !RecentlySent(recent, node)
  {
    SearchFromProbe(q, q, recent, 0);
    var node := AckSearch(q, recent).0;
    if |q.ids| >= 4 { FourProbes(q, recent); }
    if node == INVALID_NODE_ID {
      forall k | 0 <= k < |q.ids| ensures Probe(q, k) != INVALID_NODE_ID && RecentlySent(recent, Probe(q, k)) {
        assert forall m :: 0 <= m < |q.ids| ==> Probe(q, m) in q.ids;
      }
      forall x | x in q.ids ensures RecentlySent(recent, x) {
        var j :| 0 <= j < |q.ids| && q.ids[j] == x;
        var k := if j >= q.last then j - q.last else j + |q.ids| - q.last;
        assert RecentlySent(recent, Probe(q, k));
      }
    }
  }

  // ---------- which slots are unallocated ----------

  lemma ScheduleNextKeepsValid(s: Sched, level: nat)
    requires s.Valid()
    ensures ScheduleNext(s, level).1.Valid()
    ensures s.tillService < MAX_SLOTS_BETWEEN_SERVICING ==>
      ScheduleNext(s, level).1.tillService < MAX_SLOTS_BETWEEN_SERVICING
    ensures ScheduleNext(s, level).1.numTxNodesScheduled == s.numTxNodesScheduled
  {
    hide ScheduleAllocated;
  }

  /** The gap becomes 1 only with a maximum of 1, when the 128th unallocated slot passes; it
      then stays 1, and the countdown to the next unallocated slot starts at 0 every time. */
  lemma GapBecomesOneIff(s: Sched)
    requires s.unallocatedSlotGap != 1
    ensures var t := WidenGap(s);
      && (t.unallocatedSlotGap == 1 <==>
            s.maxSlotsBetweenUnallocated == 1 && s.gapUpdateCount == NUM_SLOTS_BEFORE_ALLOCATION_CHANGED - 1
            && (2 * s.unallocatedSlotGap) % 256 > 1)
      && (t.unallocatedSlotGap == 1 ==> WidenGap(t) == t && (t.unallocatedSlotGap - 1) % 256 == 0)
  {
  }

  lemma {:induction false} TurnsFindNode(s: Sched, level: nat, turns: nat)
    requires s.Valid() && s.activeNodes.ids != []
    ensures TryTurns(s, level, turns).0 < MAX_NODES
    decreases turns
  {
    if turns > 0 {
      if s.nextTurn == MasterRxAck && s.activeTxNodes.ids != [] {
        AckSearchEnds(s.activeTxNodes, s.recent);
      }
      var (node, s1) := Propose(s, level);
      ProposeKeepsValid(s, level);
      if node == INVALID_NODE_ID {
        TurnsFindNode(s1.(nextTurn := s.nextTurn.Following()), level, turns - 1);
      } else {
        ProposedIsNode(s, level);
      }
    } else {
      assert s.activeNodes.ids[s.activeNodes.last] in s.activeNodes.ids;
    }
  }

  lemma ProposedIsNode(s: Sched, level: nat)
    requires s.Valid()
    ensures Propose(s, level).0 < MAX_NODES || Propose(s, level).0 == INVALID_NODE_ID
  {
    match s.nextTurn
    case MasterTx =>
    case MasterRxAck =>
      if s.activeTxNodes.ids != [] {
        AckSearchEnds(s.activeTxNodes, s.recent);
        var node := AckSearch(s.activeTxNodes, s.recent).0;
        if node != INVALID_NODE_ID {
          var k :| 0 <= k < |s.activeTxNodes.ids| && node == Probe(s.activeTxNodes, k);
          assert Probe(s.activeTxNodes, k) in s.activeTxNodes.ids;
        }
      }
    case NodeTx =>
      if s.nodeTxNodes.ids != [] {
        assert s.nodeTxNodes.ids[s.nodeTxNodes.last] in s.nodeTxNodes.ids;
      }
  }

  /** A choice is the master, a node, or nobody. */
  lemma AllocatedIsNode(s: Sched, level: nat)
    requires s.Valid()
    ensures ScheduleAllocated(s, level).0 < MAX_NODES || ScheduleAllocated(s, level).0 == INVALID_NODE_ID
  {
    ServiceGivesNode(s, true);
    TurnsGiveNode(s, level, 3);
    TurnsGiveNode(Service(s, true).1, level, 3);
    hide TryTurns, Service;
  }

  lemma ServiceGivesNode(s: Sched, avoidRecent: bool)
    requires s.Valid()
    ensures Service(s, avoidRecent).0 < MAX_NODES || Service(s, avoidRecent).0 == INVALID_NODE_ID
  {
    if s.activeNodes.ids != [] { assert s.activeNodes.ids[s.activeNodes.last] in s.activeNodes.ids; }
  }

  lemma {:induction false} TurnsGiveNode(s: Sched, level: nat, turns: nat)
    requires s.Valid()
    ensures TryTurns(s, level, turns).0 < MAX_NODES || TryTurns(s, level, turns).0 == INVALID_NODE_ID
    decreases turns
  {
    if turns == 0 {
      ServiceGivesNode(s, false);
    } else {
      ProposedIsNode(s, level);
      ProposeKeepsValid(s, level);
      TurnsGiveNode(Propose(s, level).1.(nextTurn := s.nextTurn.Following()), level, turns - 1);
    }
  }

  /** With nodes on the network, a slot is left unallocated exactly when an allocation is
      due; every other slot goes to the master or to a node. */
  lemma UnallocatedOnlyWhenDue(s: Sched, level: nat)
    requires s.Valid() && s.activeNodes.ids != []
    ensures var node := ScheduleNext(s, level).0;
      && (node == UNALLOCATED_NODE_ID <==> s.tillAllocation == 0)
      && (node != UNALLOCATED_NODE_ID ==> node < MAX_NODES)
  {
    if s.tillAllocation != 0 {
      if s.tillService == 0 {
        assert s.activeNodes.ids[s.activeNodes.last] in s.activeNodes.ids;
        TurnsFindNode(Service(s, true).1, level, 3);
      } else {
        TurnsFindNode(s, level, 3);
      }
    }
  }

  /** With nobody to serve, every slot is open; and no decision is ever 255, which nodes take
      for a slot they know nothing of. */
  lemma EmptyNetworkStaysOpen(s: Sched, level: nat)
    requires s.Valid()
    ensures ScheduleNext(s, level).0 != INVALID_NODE_ID
    ensures s.activeNodes.ids == s.activeTxNodes.ids == s.nodeTxNodes.ids == [] && (level == 0 || s.numTxNodesScheduled == 1)
      ==> ScheduleNext(s, level).0 == UNALLOCATED_NODE_ID
  {
    if s.activeNodes.ids == s.activeTxNodes.ids == s.nodeTxNodes.ids == [] && (level == 0 || s.numTxNodesScheduled == 1) {
      NobodyFound(s, level, 3);
      NobodyFound(Service(s, true).1, level, 3);
    }
    hide TryTurns;
  }

  lemma {:induction false} NobodyFound(s: Sched, level: nat, turns: nat)
    requires s.Valid() && s.activeNodes.ids == s.activeTxNodes.ids == s.nodeTxNodes.ids == []
    requires level == 0 || s.numTxNodesScheduled == 1
    ensures TryTurns(s, level, turns).0 == INVALID_NODE_ID
    decreases turns
  {
    if turns > 0 {
      ProposeKeepsValid(s, level);
      NobodyFound(Propose(s, level).1.(nextTurn := s.nextTurn.Following()), level, turns - 1);
    }
  }

  lemma {:induction false} MasterSlotsAppend(nodes: seq<uint8>, node: uint8)
    ensures MasterSlots(nodes + [node]) == MasterSlots(nodes) + if node == MASTER_NODE_ID then 1 else 0
  {
    if nodes != [] {
      assert (nodes + [node])[1..] == nodes[1..] + [node];
      MasterSlotsAppend(nodes[1..], node);
    }
  }

  // ---------- nodes with data to send ----------

  /** The queue of nodes with data lists exactly those whose last reported level was not 0. */
  ghost predicate LevelsAgree(q: Queue, levels: seq<uint8>) {
    && |levels| == MAX_NODES && NodesIn(q)
    && forall n: uint8 :: FIRST_NODE_ID <= n < MAX_NODES ==> (n in q.ids <==> levels[n] > 0)
  }

  /** schedulerUpdateNodeTxBufferLevel's queue. */
  function LevelUpdated(q: Queue, levels: seq<uint8>, src: uint8, level: uint8): Queue
    requires src as int < |levels|
  {
    if levels[src] == 0 && level > 0 then q.Add(src)
    else if levels[src] > 0 && level == 0 then q.Remove(src)
    else q
  }

  lemma LevelUpdateKeepsAgreement(q: Queue, levels: seq<uint8>, src: uint8, level: uint8)
    requires LevelsAgree(q, levels) && FIRST_NODE_ID <= src < MAX_NODES
    ensures LevelsAgree(LevelUpdated(q, levels, src, level), levels[src := level]) && |q.ids| < MAX_NODES
    ensures levels[src] > 0 ==> src in q.ids
  {
    forall i | 0 <= i < |q.ids| ensures FIRST_NODE_ID <= q.ids[i] < MAX_NODES {
      assert q.ids[i] in q.ids;
    }
    DistinctBelow(q.ids + [MASTER_NODE_ID], MAX_NODES);
    AddKeepsValid(q, src);
    RemoveKeepsRest(q, src);
  }

  /** The master's removal of a node clears the queue but not the recorded level: the two
      still agree exactly when that node had reported an empty buffer. If they do not, the
      next empty report under the same id asks to remove a node that is not queued. */
  lemma RemovalKeepsLevelsIff(q: Queue, levels: seq<uint8>, d: uint8)
    requires LevelsAgree(q, levels) && FIRST_NODE_ID <= d < MAX_NODES
    ensures LevelsAgree(q.Remove(d), levels) <==> levels[d] == 0
    ensures levels[d] > 0 ==> d !in q.Remove(d).ids
  {
    RemoveKeepsRest(q, d);
  }

  /** The next node under that id is then not queued however much data it reports, so it gets
      no turn for its data; and its first empty report asks to remove what is not there. */
  lemma StaleLevelKeepsNodeOut(q: Queue, levels: seq<uint8>, d: uint8, level: uint8)
    requires LevelsAgree(q, levels) && FIRST_NODE_ID <= d < MAX_NODES && levels[d] > 0
    ensures d !in LevelUpdated(q.Remove(d), levels, d, level).ids
    ensures level > 0 ==> LevelUpdated(q.Remove(d), levels, d, level) == q.Remove(d)
  {
    RemoveKeepsRest(q, d);
  }
}
