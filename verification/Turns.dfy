/** Each of the three turns comes round (src/scheduler.c): the master's own packets, the
    acknowledgements of those it sends packets to, and the nodes with data; and slots are
    left open for new nodes at the set distance. */
module Turns {
  import opened Microbus
  import opened NodeQueues
  import opened SchedulerSpec
  import opened SchedulerProofs
  import opened SchedulerFairness

  /** How many turns come before the given one. */
  function TurnsUntil(from: Turn, to: Turn): nat {
    if from == to then 0 else if from.Following() == to then 1 else 2
  }

  /** The turns follow in the order of the source's enumeration. */
  lemma TurnOrder()
    ensures MasterTx.Following() == MasterRxAck && MasterRxAck.Following() == NodeTx && NodeTx.Following() == MasterTx
  {
  }

  function AtTurn(s: Sched, turn: Turn): Sched {
    s.(nextTurn := turn)
  }

  /** The turn has somebody to propose. */
  predicate Wants(s: Sched, level: nat, turn: Turn)
    requires s.Valid()
  {
    Propose(AtTurn(s, turn), level).0 != INVALID_NODE_ID
  }

  /** The queue a turn serves. */
  function Served(s: Sched, turn: Turn): Queue {
    match turn
    case MasterTx => Queue([], 0)
    case MasterRxAck => s.activeTxNodes
    case NodeTx => s.nodeTxNodes
  }

  /** A proposal moves its own queue's cursor only. */
  lemma ProposeOwn(s: Sched, level: nat, turn: Turn)
    requires s.Valid() && turn != s.nextTurn
    ensures var t := Propose(s, level).1;
      && t.Valid() && Served(t, turn) == Served(s, turn) && t.tillService == s.tillService && t.nextTurn == s.nextTurn
      && Propose(AtTurn(t.(nextTurn := s.nextTurn.Following()), turn), level).0 == Propose(AtTurn(s, turn), level).0
      && Served(Propose(AtTurn(t.(nextTurn := s.nextTurn.Following()), turn), level).1, turn) ==
           Served(Propose(AtTurn(s, turn), level).1, turn)
  {
    ProposeKeepsValid(s, level);
  }

  /** A turn that wants a slot gets it, or one before it does and it moves up. */
  lemma {:induction false} TurnGrantedOrNearer(s: Sched, level: nat, turns: nat, turn: Turn)
    requires s.Valid() && Wants(s, level, turn) && TurnsUntil(s.nextTurn, turn) < turns <= 3
    ensures var (node, t) := TryTurns(s, level, turns);
      && node != INVALID_NODE_ID && t.tillService == s.tillService
      && ((node == Propose(AtTurn(s, turn), level).0 && t.nextTurn == turn.Following()
           && Served(t, turn) == Served(Propose(AtTurn(s, turn), level).1, turn))
          || (TurnsUntil(t.nextTurn, turn) < TurnsUntil(s.nextTurn, turn) && Served(t, turn) == Served(s, turn)))
    decreases turns
  {
    if s.nextTurn == turn {
      assert AtTurn(s, turn) == s;
      ProposeKeepsValid(s, level);
    } else {
      ProposeOwn(s, level, turn);
      var (node, s1) := Propose(s, level);
      var s2 := s1.(nextTurn := s.nextTurn.Following());
      hide Propose;
      if node == INVALID_NODE_ID { TurnGrantedOrNearer(s2, level, turns - 1, turn); }
    }
  }

  /** One choice of the scheduler, seen from a turn that wants a slot: the slot goes to
      service, which is due at most every sixth choice; to the turn; or to one before it. */
  lemma ChoiceAtTurn(s: Sched, level: nat, turn: Turn)
    requires s.Valid() && s.tillService < MAX_SLOTS_BETWEEN_SERVICING && s.tillAllocation != 0 && Wants(s, level, turn)
    ensures var (node, t) := ScheduleNext(s, level);
      || (s.tillService == 0 && t.tillService == 5 && t.nextTurn == s.nextTurn && Served(t, turn) == Served(s, turn))
      || (t.tillService == (if s.tillService == 0 then 5 else s.tillService - 1)
          && ((node == Propose(AtTurn(s, turn), level).0 && t.nextTurn == turn.Following()
               && Served(t, turn) == Served(Propose(AtTurn(s, turn), level).1, turn))
              || (TurnsUntil(t.nextTurn, turn) < TurnsUntil(s.nextTurn, turn) && Served(t, turn) == Served(s, turn))))
  {
    hide TryTurns;
    if s.tillService == 0 {
      var (node, s1) := Service(s, true);
      ServiceKeepsTurns(s, level, turn);
      hide Propose, Service;
      if node == INVALID_NODE_ID { TurnGrantedOrNearer(s1, level, 3, turn); }
    } else {
      hide Propose;
      TurnGrantedOrNearer(s, level, 3, turn);
    }
  }

  lemma ServiceKeepsTurns(s: Sched, level: nat, turn: Turn)
    requires s.Valid()
    ensures var s1 := Service(s, true).1;
      && s1.Valid() && s1.nextTurn == s.nextTurn && Served(s1, turn) == Served(s, turn)
      && Propose(AtTurn(s1, turn), level).0 == Propose(AtTurn(s, turn), level).0
      && Served(Propose(AtTurn(s1, turn), level).1, turn) == Served(Propose(AtTurn(s, turn), level).1, turn)
  {
  }

  // ---------- slots ----------

  /** The packets of the master's beyond the slots it already has. */
  function LevelLeft(b: Bus, level: nat): nat
    requires |b.window| > 0
  {
    if |b.window| == 1 then 0
    else if level > MasterSlots(b.window[1..]) then level - MasterSlots(b.window[1..]) else 0
  }

  /** A slot during which nothing from outside changes the turn's queue. */
  ghost predicate SteadyMoves(b: Bus, level: nat, c: Bus, turn: Turn) {
    Moves(b, level, c) && Served(c.sched, turn) == Served(UpdateWindow(b.sched, b.window, level).1, turn)
  }

  ghost predicate SteadyRun(bs: seq<Bus>, levels: seq<nat>, turn: Turn) {
    SlotRun(bs, levels) && forall i :: 0 < i < |bs| ==> SteadyMoves(bs[i - 1], levels[i - 1], bs[i], turn)
  }

  /** What a slot does to the fields the turns depend on. */
  lemma SlotAtTurn(b: Bus, level: nat, c: Bus, turn: Turn)
    requires BusOk(b) && SteadyMoves(b, level, c, turn)
    ensures if Chosen(b) then
              var (node, t) := ScheduleNext(b.sched, LevelLeft(b, level));
              && Decision(b, level) == node && c.sched.nextTurn == t.nextTurn && c.sched.tillService == t.tillService
              && c.sched.recent == t.recent && Served(c.sched, turn) == Served(t, turn)
            else
              && c.sched.nextTurn == b.sched.nextTurn && c.sched.tillService == b.sched.tillService
              && c.sched.recent == b.sched.recent && Served(c.sched, turn) == Served(b.sched, turn)
  {
    hide ScheduleAllocated;
  }

  /** The choices a turn can still be passed by: two for each that comes before it, and one
      more if service is due. */
  function Waiting(s: Sched, before: nat): nat {
    2 * before + if s.tillService == 0 then 1 else 0
  }

  // ---------- the master's turn ----------

  lemma MasterApproaches(b: Bus, level: nat, c: Bus)
    requires BusOk(b) && SteadyMoves(b, level, c, MasterTx) && BusOk(c) && |b.window| > 1 && LevelLeft(b, level) > 0
    requires Chosen(b) ==> Decision(b, level) != MASTER_NODE_ID
    ensures var w, v := Waiting(b.sched, TurnsUntil(b.sched.nextTurn, MasterTx)), Waiting(c.sched, TurnsUntil(c.sched.nextTurn, MasterTx));
      if Chosen(b) then v < w else v == w
  {
    SlotAtTurn(b, level, c, MasterTx);
    if Chosen(b) {
      assert Propose(AtTurn(b.sched, MasterTx), LevelLeft(b, level)).0 == MASTER_NODE_ID;
      ChoiceAtTurn(b.sched, LevelLeft(b, level), MasterTx);
      hide ScheduleNext, UpdateWindow, Propose;
    }
  }

  lemma {:induction false} MasterPassed(bs: seq<Bus>, levels: seq<nat>)
    requires SteadyRun(bs, levels, MasterTx) && bs != [] && |bs[0].window| > 1
    requires forall i :: 0 <= i < |bs| ==> |bs[i].window| > 0 && LevelLeft(bs[i], levels[i]) > 0
    requires forall i :: 0 <= i < |bs| && Chosen(bs[i]) ==> Decision(bs[i], levels[i]) != MASTER_NODE_ID
    ensures ChosenCount(bs) <= Waiting(bs[0].sched, TurnsUntil(bs[0].sched.nextTurn, MasterTx))
    decreases |bs|
  {
    hide UpdateWindow, LevelLeft, Chosen, Decision, TurnsUntil;
    var c := if |bs| == 1 then After(bs[0], levels[0]) else bs[1];
    if |bs| == 1 { assert ChosenCount(bs[1..]) == 0; }
    if |bs| == 1 { QuietAfter(bs[0], levels[0], MasterTx); } else { assert SteadyMoves(bs[0], levels[0], c, MasterTx); }
    MasterApproaches(bs[0], levels[0], c);
    if |bs| > 1 { DelayPasses(bs[0], levels[0], c); MasterPassed(bs[1..], levels[1..]); }
  }

  lemma QuietAfter(b: Bus, level: nat, turn: Turn)
    requires BusOk(b)
    ensures SteadyMoves(b, level, After(b, level), turn)
  {
    hide ScheduleNext;
  }

  /** A master with packets beyond the slots it has is given one by choice within 24 slots. */
  lemma MasterTurnComes(bs: seq<Bus>, levels: seq<nat>)
    requires SteadyRun(bs, levels, MasterTx) && |bs| >= 24 && |bs[0].window| > 1
    requires forall i :: 0 <= i < |bs| ==> |bs[i].window| > 0 && LevelLeft(bs[i], levels[i]) > 0
    ensures exists i :: 0 <= i < |bs| && Chosen(bs[i]) && Decision(bs[i], levels[i]) == MASTER_NODE_ID
  {
    hide UpdateWindow, LevelLeft, Chosen, Decision, Delay;
    ChosenEnough(bs, levels, 6);
    if forall i :: 0 <= i < |bs| && Chosen(bs[i]) ==> Decision(bs[i], levels[i]) != MASTER_NODE_ID {
      MasterPassed(bs, levels);
    }
  }

  lemma ChosenEnough(bs: seq<Bus>, levels: seq<nat>, n: nat)
    requires SlotRun(bs, levels) && bs != [] && |bs| >= (if |bs[0].window| == 1 then 2 else 4) * n
    ensures ChosenCount(bs) >= n
  {
    ChosenOften(bs, levels);
    hide Chosen, SlotRun;
    if |bs[0].window| == 1 {
      assert 2 * ChosenCount(bs) >= |bs| - 1;
    } else {
      assert 4 * ChosenCount(bs) >= |bs| - 3;
    }
  }

  /** The master is not given more slots by choice than it has packets for, and none when one
      slot is scheduled at a time. */
  lemma MasterNotOverscheduled(b: Bus, level: nat)
    requires BusOk(b) && Consulted(b) && Decision(b, level) == MASTER_NODE_ID
    ensures |b.window| > 1 && MasterSlots(UpdateWindow(b.sched, b.window, level).0) <= level
  {
    hide ScheduleAllocated, TryTurns;
    MasterChoiceNeedsLevel(b.sched, LevelLeft(b, level));
    if |b.window| > 1 { MasterSlotsAppend(b.window[1..], MASTER_NODE_ID); }
  }

  lemma MasterChoiceNeedsLevel(s: Sched, level: nat)
    requires s.Valid() && ScheduleNext(s, level).0 == MASTER_NODE_ID
    ensures level > 0 && s.numTxNodesScheduled > 1
  {
    if s.tillService == 0 {
      ServedIsNode(s, true);
      TurnNeedsLevel(Service(s, true).1, level, 3);
    } else {
      TurnNeedsLevel(s, level, 3);
    }
  }

  lemma ServedIsNode(s: Sched, avoidRecent: bool)
    requires s.Valid()
    ensures Service(s, avoidRecent).0 != MASTER_NODE_ID
  {
    if s.activeNodes.ids != [] { assert s.activeNodes.ids[s.activeNodes.last] in s.activeNodes.ids; }
  }

  lemma {:induction false} TurnNeedsLevel(s: Sched, level: nat, turns: nat)
    requires s.Valid() && TryTurns(s, level, turns).0 == MASTER_NODE_ID
    ensures level > 0 && s.numTxNodesScheduled > 1
    decreases turns
  {
    if turns == 0 {
      ServedIsNode(s, false);
    } else {
      ProposeKeepsValid(s, level);
      var (node, s1) := Propose(s, level);
      if node == INVALID_NODE_ID {
        TurnNeedsLevel(s1.(nextTurn := s.nextTurn.Following()), level, turns - 1);
      } else if s.nextTurn != MasterTx {
        NodeTurnsGiveNodes(s, level);
      }
    }
  }

  lemma NodeTurnsGiveNodes(s: Sched, level: nat)
    requires s.Valid() && s.nextTurn != MasterTx
    ensures Propose(s, level).0 != MASTER_NODE_ID
  {
    if s.nextTurn == MasterRxAck && s.activeTxNodes.ids != [] {
      AckSearchEnds(s.activeTxNodes, s.recent);
      forall k | 0 <= k < |s.activeTxNodes.ids| ensures Probe(s.activeTxNodes, k) != MASTER_NODE_ID {
        assert Probe(s.activeTxNodes, k) in s.activeTxNodes.ids;
      }
    }
    if s.nextTurn == NodeTx && s.nodeTxNodes.ids != [] {
      assert s.nodeTxNodes.ids[s.nodeTxNodes.last] in s.nodeTxNodes.ids;
    }
  }

  // ---------- nodes with data ----------

  lemma DataApproaches(b: Bus, level: nat, c: Bus, k: nat)
    requires BusOk(b) && SteadyMoves(b, level, c, NodeTx) && BusOk(c) && k < |b.sched.nodeTxNodes.ids|
    requires Chosen(b) ==> Decision(b, level) != b.sched.nodeTxNodes.ids[k]
    ensures c.sched.nodeTxNodes.ids == b.sched.nodeTxNodes.ids
    ensures var w := Waiting(b.sched, 3 * Ahead(b.sched.nodeTxNodes, k) + TurnsUntil(b.sched.nextTurn, NodeTx));
      var v := Waiting(c.sched, 3 * Ahead(c.sched.nodeTxNodes, k) + TurnsUntil(c.sched.nextTurn, NodeTx));
      if Chosen(b) then v < w else v == w
  {
    SlotAtTurn(b, level, c, NodeTx);
    if Chosen(b) {
      var q, l := b.sched.nodeTxNodes, LevelLeft(b, level);
      assert q.ids[q.last] in q.ids;
      assert Propose(AtTurn(b.sched, NodeTx), l) == (q.ids[q.last], AtTurn(b.sched, NodeTx).(nodeTxNodes := q.Next().1));
      CursorApproaches(q, k);
      ChoiceAtTurn(b.sched, l, NodeTx);
      hide ScheduleNext, UpdateWindow, Propose;
    }
  }

  lemma {:induction false} DataPassed(bs: seq<Bus>, levels: seq<nat>, k: nat)
    requires SteadyRun(bs, levels, NodeTx) && bs != [] && k < |bs[0].sched.nodeTxNodes.ids|
    requires forall i :: 0 <= i < |bs| ==> Decision(bs[i], levels[i]) != bs[0].sched.nodeTxNodes.ids[k]
    ensures ChosenCount(bs) <= Waiting(bs[0].sched, 3 * Ahead(bs[0].sched.nodeTxNodes, k) + TurnsUntil(bs[0].sched.nextTurn, NodeTx))
    decreases |bs|
  {
    hide UpdateWindow, Chosen, Decision, TurnsUntil, Ahead;
    var c := if |bs| == 1 then After(bs[0], levels[0]) else bs[1];
    if |bs| == 1 { QuietAfter(bs[0], levels[0], NodeTx); } else { assert SteadyMoves(bs[0], levels[0], c, NodeTx); }
    DataApproaches(bs[0], levels[0], c, k);
    if |bs| > 1 { DataPassed(bs[1..], levels[1..], k); } else { assert ChosenCount(bs[1..]) == 0; }
  }

  /** While n nodes have data, each of them is scheduled in any 2 * 6n successive slots when one
      slot is scheduled ahead, and in any 4 * 6n when several are. */
  lemma DataTurnComes(bs: seq<Bus>, levels: seq<nat>, v: uint8)
    requires SteadyRun(bs, levels, NodeTx) && bs != [] && v in bs[0].sched.nodeTxNodes.ids
    requires |bs| >= (if |bs[0].window| == 1 then 2 else 4) * (6 * |bs[0].sched.nodeTxNodes.ids|)
    ensures exists i :: 0 <= i < |bs| && Decision(bs[i], levels[i]) == v
  {
    hide UpdateWindow, Chosen, Decision, Delay;
    var k :| 0 <= k < |bs[0].sched.nodeTxNodes.ids| && bs[0].sched.nodeTxNodes.ids[k] == v;
    ChosenEnough(bs, levels, 6 * |bs[0].sched.nodeTxNodes.ids|);
    if forall i :: 0 <= i < |bs| ==> Decision(bs[i], levels[i]) != v {
      DataPassed(bs, levels, k);
    }
  }

  // ---------- acknowledgements ----------

  /** The search stops at a node not recently scheduled, or before it. */
  lemma {:induction false} SearchStopsAt(q: Queue, recent: seq<uint8>, i: nat, k: nat)
    requires NodesIn(q) && k < |q.ids| && i + Ahead(q, k) < |q.ids| && |recent| == MAX_MASTER_SLOTS_BETWEEN_ACKS
    requires !RecentlySent(recent, q.ids[k])
    ensures var (node, r) := AckSearch(q, recent, i);
      && node != INVALID_NODE_ID && r.ids == q.ids && r.last < |r.ids|
      && (node != q.ids[k] ==> Ahead(r, k) < Ahead(q, k))
    decreases |q.ids| - i
  {
    hide RecentlySent;
    assert q.ids[q.last] in q.ids;
    CursorApproaches(q, k);
    if RecentlySent(recent, q.ids[q.last]) {
      SearchStopsAt(q.Next().1, recent, i + 1, k);
    }
  }

  lemma AckApproaches(b: Bus, level: nat, c: Bus, k: nat, m: nat)
    requires BusOk(b) && SteadyMoves(b, level, c, MasterRxAck) && BusOk(c) && k < |b.sched.activeTxNodes.ids|
    requires Decision(b, level) != b.sched.activeTxNodes.ids[k] && NotLately(b.sched, b.sched.activeTxNodes.ids[k], m)
    ensures c.sched.activeTxNodes.ids == b.sched.activeTxNodes.ids
    ensures NotLately(c.sched, b.sched.activeTxNodes.ids[k], if Chosen(b) then m + 1 else m)
    ensures if Chosen(b) then AckPatience(c.sched, k, m + 1) < AckPatience(b.sched, k, m)
            else AckPatience(c.sched, k, m) == AckPatience(b.sched, k, m)
  {
    hide UpdateWindow, ScheduleNext;
    var q, l := b.sched.activeTxNodes, LevelLeft(b, level);
    assert q.ids[k] in q.ids;
    SlotAtTurn(b, level, c, MasterRxAck);
    if Chosen(b) {
      AckQueueStays(b.sched, l);
      ChoiceRecorded(b.sched, l);
      assert c.sched.recent == b.sched.recent[1..] + [c.sched.recent[3]];
      if m >= 4 {
        SearchStopsAt(q, b.sched.recent, 0, k);
        assert Propose(AtTurn(b.sched, MasterRxAck), l).0 == AckSearch(q, b.sched.recent).0;
        ChoiceAtTurn(b.sched, l, MasterRxAck);
      }
    }
  }

  /** As Patience is for service. */
  function AckPatience(s: Sched, k: nat, m: nat): nat
    requires k < |s.activeTxNodes.ids| && s.activeTxNodes.last < |s.activeTxNodes.ids|
  {
    if m >= 4 then Waiting(s, 3 * Ahead(s.activeTxNodes, k) + TurnsUntil(s.nextTurn, MasterRxAck))
    else 4 - m + 6 * |s.activeTxNodes.ids| - 1
  }

  lemma AckQueueStays(s: Sched, level: nat)
    requires s.Valid() && s.tillAllocation != 0
    ensures ScheduleNext(s, level).1.activeTxNodes.ids == s.activeTxNodes.ids
  {
    AckTurnsStay(s, level, 3);
    AckTurnsStay(Service(s, true).1, level, 3);
    hide TryTurns;
  }

  lemma {:induction false} AckTurnsStay(s: Sched, level: nat, turns: nat)
    requires s.Valid()
    ensures TryTurns(s, level, turns).1.activeTxNodes.ids == s.activeTxNodes.ids
    decreases turns
  {
    if turns > 0 {
      ProposeKeepsValid(s, level);
      AckTurnsStay(Propose(s, level).1.(nextTurn := s.nextTurn.Following()), level, turns - 1);
    }
  }

  lemma {:induction false} AckPassed(bs: seq<Bus>, levels: seq<nat>, k: nat, m: nat)
    requires SteadyRun(bs, levels, MasterRxAck) && bs != [] && k < |bs[0].sched.activeTxNodes.ids|
    requires NotLately(bs[0].sched, bs[0].sched.activeTxNodes.ids[k], m)
    requires forall i :: 0 <= i < |bs| ==> Decision(bs[i], levels[i]) != bs[0].sched.activeTxNodes.ids[k]
    ensures ChosenCount(bs) <= AckPatience(bs[0].sched, k, m)
    decreases |bs|
  {
    hide UpdateWindow, Chosen, Decision, AckPatience, NotLately;
    var c := if |bs| == 1 then After(bs[0], levels[0]) else bs[1];
    if |bs| == 1 { QuietAfter(bs[0], levels[0], MasterRxAck); } else { assert SteadyMoves(bs[0], levels[0], c, MasterRxAck); }
    AckApproaches(bs[0], levels[0], c, k, m);
    if |bs| > 1 {
      AckPassed(bs[1..], levels[1..], k, if Chosen(bs[0]) then m + 1 else m);
    } else {
      assert ChosenCount(bs[1..]) == 0;
    }
  }

  /** While the master waits for n destinations to acknowledge, each of them is scheduled in any
      2(6n + 4) successive slots when one slot is scheduled ahead, and in any 4(6n + 4) when
      several are. */
  lemma AckTurnComes(bs: seq<Bus>, levels: seq<nat>, v: uint8)
    requires SteadyRun(bs, levels, MasterRxAck) && bs != [] && v in bs[0].sched.activeTxNodes.ids
    requires |bs| >= (if |bs[0].window| == 1 then 2 else 4) * (6 * |bs[0].sched.activeTxNodes.ids| + 4)
    ensures exists i :: 0 <= i < |bs| && Decision(bs[i], levels[i]) == v
  {
    hide UpdateWindow, Chosen, Decision, Delay;
    var k :| 0 <= k < |bs[0].sched.activeTxNodes.ids| && bs[0].sched.activeTxNodes.ids[k] == v;
    ChosenEnough(bs, levels, 6 * |bs[0].sched.activeTxNodes.ids| + 4);
    if forall i :: 0 <= i < |bs| ==> Decision(bs[i], levels[i]) != v {
      AckPassed(bs, levels, k, 0);
    }
  }

  // ---------- recent slots ----------

  /** A node that a choice schedules for an acknowledgement, or because service was due, is none
      of those scheduled two, three and four choices before. */
  lemma ChoiceSkipsRecent(s: Sched, level: nat)
    requires s.Valid()
    ensures var (node, q) := AckSearch(s.activeTxNodes, s.recent);
      node != INVALID_NODE_ID ==> node != s.recent[0] && node != s.recent[1] && node != s.recent[2]
    ensures var node := Service(s, true).0;
      && (node != INVALID_NODE_ID ==> node != s.recent[0] && node != s.recent[1] && node != s.recent[2])
      && (node == INVALID_NODE_ID <==>
            (s.activeNodes.ids == [] || s.activeNodes.ids[s.activeNodes.last] in {s.recent[0], s.recent[1], s.recent[2]}))
  {
    if s.activeTxNodes.ids != [] { SearchFromProbe(s.activeTxNodes, s.activeTxNodes, s.recent, 0); }
    if s.activeNodes.ids != [] { assert s.activeNodes.ids[s.activeNodes.last] in s.activeNodes.ids; }
    assert s.recent[..3] == [s.recent[0], s.recent[1], s.recent[2]];
  }

  // ---------- open slots ----------

  /** The consultations from one open slot to the next. A gap that wrapped to 0 counts down
      from 255. */
  function GapSlots(s: Sched): nat {
    if s.unallocatedSlotGap == 0 then 256 else s.unallocatedSlotGap
  }

  // ---------- the gap ----------

  /** The gap after n more open slots. */
  function Widened(s: Sched, n: nat): Sched {
    if n == 0 then s else WidenGap(Widened(s, n - 1))
  }

  function DoubledUpTo(gap: nat, max: nat, k: nat): nat {
    if k == 0 then gap
    else
      var g := DoubledUpTo(gap, max, k - 1);
      if 2 * g > max then max else 2 * g
  }

  lemma {:induction false} DoubledBounds(gap: nat, max: nat, k: nat)
    requires 2 <= gap <= max
    ensures 2 <= DoubledUpTo(gap, max, k) <= max
  {
    if k > 0 { DoubledBounds(gap, max, k - 1); }
  }

  /** The gap doubles with the 128th open slot and with every 256th after that, up to the
      maximum. */
  lemma {:induction false} GapDoubles(s: Sched, n: nat)
    requires s.gapUpdateCount == 0 && 2 <= s.unallocatedSlotGap <= s.maxSlotsBetweenUnallocated <= 128
    ensures var t := Widened(s, n);
      && t == s.(gapUpdateCount := t.gapUpdateCount, unallocatedSlotGap := t.unallocatedSlotGap)
      && t.unallocatedSlotGap == DoubledUpTo(s.unallocatedSlotGap, s.maxSlotsBetweenUnallocated, (n + 128) / 256)
      && (t.unallocatedSlotGap != s.maxSlotsBetweenUnallocated ==> t.gapUpdateCount == n % 256)
  {
    if n > 0 {
      GapDoubles(s, n - 1);
      var k := (n - 1 + 128) / 256;
      DoubledBounds(s.unallocatedSlotGap, s.maxSlotsBetweenUnallocated, k);
      GapStep(Widened(s, n - 1), n);
      DoublingsStep(n);
      hide WidenGap;
    }
  }

  lemma DoublingsStep(n: nat)
    requires n > 0
    ensures (n + 128) / 256 == (n - 1 + 128) / 256 + if n % 256 == 128 then 1 else 0
  {
  }

  lemma GapStep(t: Sched, n: nat)
    requires n > 0 && 2 <= t.unallocatedSlotGap <= t.maxSlotsBetweenUnallocated <= 128
    requires t.unallocatedSlotGap != t.maxSlotsBetweenUnallocated ==> t.gapUpdateCount == (n - 1) % 256
    ensures var u := WidenGap(t);
      && u == t.(gapUpdateCount := u.gapUpdateCount, unallocatedSlotGap := u.unallocatedSlotGap)
      && u.unallocatedSlotGap ==
           (if n % 256 == 128 then (if 2 * t.unallocatedSlotGap > t.maxSlotsBetweenUnallocated then t.maxSlotsBetweenUnallocated
                                    else 2 * t.unallocatedSlotGap)
            else t.unallocatedSlotGap)
      && (u.unallocatedSlotGap != t.maxSlotsBetweenUnallocated ==> u.gapUpdateCount == n % 256)
  {
    assert ((n - 1) % 256 + 1) % 256 == n % 256;
  }

  /** With a maximum above 128 the gap doubles past its 8 bits: the slots then open once in
      256 for ever, however small the maximum was meant to keep the gap. */
  lemma {:induction false} GapOverflows(s: Sched, n: nat)
    requires s.gapUpdateCount == 127 && s.unallocatedSlotGap == 128 < s.maxSlotsBetweenUnallocated && n > 0
    ensures Widened(s, n).unallocatedSlotGap == 0 && GapSlots(Widened(s, n)) == 256
    ensures Widened(s, n).maxSlotsBetweenUnallocated == s.maxSlotsBetweenUnallocated
  {
    if n > 1 { GapOverflows(s, n - 1); } else { assert Widened(s, 0) == s; }
  }

  // ---------- the countdown ----------

  /** A slot during which no new node is heard. */
  ghost predicate QuietMoves(b: Bus, level: nat, c: Bus) {
    && Moves(b, level, c)
    && var t := UpdateWindow(b.sched, b.window, level).1;
       && c.sched.tillAllocation == t.tillAllocation && c.sched.unallocatedSlotGap == t.unallocatedSlotGap
       && c.sched.gapUpdateCount == t.gapUpdateCount && c.sched.maxSlotsBetweenUnallocated == t.maxSlotsBetweenUnallocated
  }

  ghost predicate QuietRun(bs: seq<Bus>, levels: seq<nat>) {
    && SlotRun(bs, levels)
    && forall i :: 0 < i < |bs| ==> QuietMoves(bs[i - 1], levels[i - 1], bs[i])
  }

  /** In how many slots of a run the scheduler was consulted. */
  function ConsultedCount(bs: seq<Bus>): nat
    requires forall i :: 0 <= i < |bs| ==> |bs[i].window| > 0
  {
    if bs == [] then 0 else ConsultedCount(bs[..|bs| - 1]) + if Consulted(bs[|bs| - 1]) then 1 else 0
  }

  /** The slot this decision hands out is left open. */
  predicate Open(b: Bus, level: nat)
    requires b.sched.Valid() && |b.window| == b.sched.numTxNodesScheduled
  {
    Decision(b, level) == UNALLOCATED_NODE_ID
  }

  lemma OpenIffDue(b: Bus, level: nat)
    requires BusOk(b) && b.sched.activeNodes.ids != []
    ensures Open(b, level) <==> Consulted(b) && b.sched.tillAllocation == 0
  {
    hide ScheduleNext;
    if Consulted(b) {
      var l := if |b.window| == 1 then 0
               else if level > MasterSlots(b.window[1..]) then level - MasterSlots(b.window[1..]) else 0;
      UnallocatedOnlyWhenDue(b.sched, l);
      assert Decision(b, level) == ScheduleNext(b.sched, l).0;
    }
  }

  /** Every consultation takes one off the count, and an open slot sets it to the gap. */
  lemma CountsDown(b: Bus, level: nat, c: Bus)
    requires BusOk(b) && QuietMoves(b, level, c)
    ensures c.sched.activeNodes.ids == b.sched.activeNodes.ids
    ensures if !Consulted(b) then c.sched.tillAllocation == b.sched.tillAllocation
            else if b.sched.tillAllocation > 0 then c.sched.tillAllocation == b.sched.tillAllocation - 1
            else c.sched.tillAllocation == GapSlots(c.sched) - 1
    ensures c.sched.unallocatedSlotGap ==
      if Consulted(b) && b.sched.tillAllocation == 0 then WidenGap(b.sched).unallocatedSlotGap else b.sched.unallocatedSlotGap
  {
    hide ScheduleAllocated;
  }

  lemma {:induction false} CountAfter(bs: seq<Bus>, levels: seq<nat>)
    requires QuietRun(bs, levels) && bs != [] && bs[0].sched.activeNodes.ids != []
    requires forall i :: 0 <= i < |bs| - 1 ==> !Open(bs[i], levels[i])
    ensures var last := bs[|bs| - 1];
      && last.sched.tillAllocation + ConsultedCount(bs[..|bs| - 1]) == bs[0].sched.tillAllocation
      && last.sched.unallocatedSlotGap == bs[0].sched.unallocatedSlotGap
      && last.sched.activeNodes.ids == bs[0].sched.activeNodes.ids
    decreases |bs|
  {
    hide UpdateWindow, Decision, Consulted;
    if |bs| > 1 {
      var n := |bs| - 1;
      CountAfter(bs[..n], levels[..n]);
      assert bs[..n][..n - 1] == bs[..n - 1];
      OpenIffDue(bs[n - 1], levels[n - 1]);
      CountsDown(bs[n - 1], levels[n - 1], bs[n]);
    }
  }

  /** Two successive open slots are exactly the gap of consultations apart. */
  lemma OpenSlotsSpaced(bs: seq<Bus>, levels: seq<nat>, j: nat)
    requires QuietRun(bs, levels) && 0 < j < |bs| && bs[0].sched.activeNodes.ids != []
    requires Open(bs[0], levels[0]) && Open(bs[j], levels[j])
    requires forall i :: 0 < i < j ==> !Open(bs[i], levels[i])
    ensures ConsultedCount(bs[1..j + 1]) == GapSlots(bs[1].sched)
  {
    hide UpdateWindow, Decision, Consulted;
    OpenIffDue(bs[0], levels[0]);
    CountsDown(bs[0], levels[0], bs[1]);
    var cs, ls := bs[1..j + 1], levels[1..j + 1];
    forall i | 0 < i < |cs| ensures QuietMoves(cs[i - 1], ls[i - 1], cs[i]) {
      assert QuietMoves(bs[i], levels[i], bs[i + 1]);
    }
    CountAfter(cs, ls);
    OpenIffDue(bs[j], levels[j]);
  }

  /** A slot opens in any run with more consultations than the count started with. */
  lemma OpenSlotComes(bs: seq<Bus>, levels: seq<nat>)
    requires QuietRun(bs, levels) && bs != [] && bs[0].sched.activeNodes.ids != []
    requires ConsultedCount(bs) > bs[0].sched.tillAllocation
    ensures exists i :: 0 <= i < |bs| && Open(bs[i], levels[i])
  {
    hide UpdateWindow, Decision, Consulted;
    if forall i :: 0 <= i < |bs| ==> !Open(bs[i], levels[i]) {
      CountAfter(bs, levels);
      OpenIffDue(bs[|bs| - 1], levels[|bs| - 1]);
    }
  }

  /** The count never exceeds the gap: not at the start, not after a new node was heard, and
      not after any slot. */
  lemma CountWithinGap(b: Bus, level: nat, c: Bus)
    requires BusOk(b) && QuietMoves(b, level, c) && b.sched.tillAllocation <= GapSlots(b.sched)
    ensures c.sched.tillAllocation <= GapSlots(c.sched)
    ensures Consulted(b) ==> c.sched.tillAllocation < GapSlots(c.sched)
  {
    CountsDown(b, level, c);
  }

  /** At the start service is due, no node counts as recent, and the master's turn is first. */
  lemma StartsWithService(numTxNodesScheduled: nat, max: uint8)
    requires 1 <= numTxNodesScheduled <= MAX_TX_NODES_SCHEDULED && max != 1
    ensures var s := InitSched(numTxNodesScheduled, max);
      && s.Valid() && s.tillService == 0 && s.nextTurn == MasterTx
      && s.activeNodes.ids == s.activeTxNodes.ids == s.nodeTxNodes.ids == []
      && forall v: uint8 :: v >= 1 ==> !RecentlySent(s.recent, v)
  {
  }

  /** After a new node was heard, as at the start, the third consultation opens a slot, and
      then every other one does. */
  lemma NewNodeHeardOpensSoon(s: Sched, numTxNodesScheduled: nat, max: uint8)
    ensures NewNodeHeard(s).tillAllocation == 2 == GapSlots(NewNodeHeard(s))
    ensures InitSched(numTxNodesScheduled, max).tillAllocation == 2 == GapSlots(InitSched(numTxNodesScheduled, max))
    ensures s.Valid() ==> NewNodeHeard(s).Valid()
  {
  }
}
