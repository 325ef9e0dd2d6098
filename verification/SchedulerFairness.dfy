/** No node starves, and with several slots scheduled ahead the master is always among
    the next speakers. */
module SchedulerFairness {
  import opened Microbus
  import opened NodeQueues
  import opened SchedulerSpec
  import opened SchedulerProofs
  import Timeouts

  /** The scheduler and the window of slots it has handed out. */
  datatype Bus = Bus(sched: Sched, window: seq<uint8>)

  ghost predicate BusOk(b: Bus) {
    b.sched.Valid() && b.sched.tillService < MAX_SLOTS_BETWEEN_SERVICING && |b.window| == b.sched.numTxNodesScheduled
  }

  /** What may happen between two slots: the queues of pending data change as they like
      and a new node may be heard, but no node joins or leaves. */
  ghost predicate Environment(s: Sched, t: Sched) {
    && t.Valid()
    && t.numTxNodesScheduled == s.numTxNodesScheduled && t.activeNodes == s.activeNodes
    && t.recent == s.recent && t.tillService == s.tillService && t.nextTurn == s.nextTurn
    && (t.tillAllocation == s.tillAllocation || t.tillAllocation == MIN_SLOTS_BETWEEN_UNALLOCATED)
  }

  /** The states before successive slots, with the master's buffer level at each. */
  ghost predicate SlotRun(bs: seq<Bus>, levels: seq<nat>) {
    && |levels| == |bs|
    && (forall i :: 0 <= i < |bs| ==> BusOk(bs[i]))
    && (forall i :: 0 < i < |bs| ==> Moves(bs[i - 1], levels[i - 1], bs[i]))
  }

  ghost predicate Moves(b: Bus, level: nat, c: Bus) {
    && BusOk(b)
    && c.window == UpdateWindow(b.sched, b.window, level).0
    && Environment(UpdateWindow(b.sched, b.window, level).1, c.sched)
  }

  /** The node that this slot's decision schedules. */
  function Decision(b: Bus, level: nat): uint8
    requires b.sched.Valid() && |b.window| == b.sched.numTxNodesScheduled
  {
    UpdateWindow(b.sched, b.window, level).0[b.sched.numTxNodesScheduled - 1]
  }

  /** The scheduler is consulted unless the master must first be given a slot. */
  predicate Consulted(b: Bus)
    requires |b.window| > 0
  {
    |b.window| == 1 || MASTER_NODE_ID in b.window[1..]
  }

  /** Slots in which a node or the master is chosen. */
  predicate Chosen(b: Bus)
    requires |b.window| > 0
  {
    Consulted(b) && b.sched.tillAllocation != 0
  }

  function ChosenCount(bs: seq<Bus>): nat
    requires forall i :: 0 <= i < |bs| ==> |bs[i].window| > 0
  {
    if bs == [] then 0 else (if Chosen(bs[0]) then 1 else 0) + ChosenCount(bs[1..])
  }

  // ---------- how often a node is chosen ----------

  /** How many nodes the cursor passes before slot k. */
  function Ahead(q: Queue, k: nat): nat
    requires k < |q.ids| && q.last < |q.ids|
  {
    if q.last <= k then k - q.last else k + |q.ids| - q.last
  }

  /** Slots until the cursor has reached slot k and the service after that is due. */
  function Wait(s: Sched, k: nat): nat
    requires k < |s.activeNodes.ids| && s.activeNodes.last < |s.activeNodes.ids|
  {
    6 * Ahead(s.activeNodes, k) + s.tillService
  }

  lemma CursorApproaches(q: Queue, k: nat)
    requires q.Valid() && k < |q.ids|
    ensures q.last < |q.ids| && q.Next().1.last < |q.ids| && q.Next().1.ids == q.ids && q.Next().1.Valid()
    ensures q.Next().0 == q.ids[k] <==> q.last == k
    ensures q.last != k ==> Ahead(q.Next().1, k) == Ahead(q, k) - 1
  {
  }

  /** The turns leave the servicing cursor alone, or service the node it points at. */
  lemma {:induction false} TurnsOrService(s: Sched, level: nat, turns: nat)
    requires s.Valid() && s.activeNodes.ids != []
    ensures var (node, t) := TryTurns(s, level, turns);
      || (t.activeNodes == s.activeNodes && t.tillService == s.tillService)
      || ((node, t.activeNodes) == s.activeNodes.Next() && t.tillService == MAX_SLOTS_BETWEEN_SERVICING)
    decreases turns
  {
    if turns > 0 {
      var (node, s1) := Propose(s, level);
      ProposeKeepsValid(s, level);
      if node == INVALID_NODE_ID {
        TurnsOrService(s1.(nextTurn := s.nextTurn.Following()), level, turns - 1);
      }
    }
  }

  /** A chosen slot that goes to another node than the k-th brings the k-th nearer, unless
      the k-th was scheduled two to four slots before. */
  lemma ChoiceApproaches(s: Sched, level: nat, k: nat)
    requires s.Valid() && s.tillService < MAX_SLOTS_BETWEEN_SERVICING && s.tillAllocation != 0
    requires k < |s.activeNodes.ids| && ScheduleNext(s, level).0 != s.activeNodes.ids[k]
    requires !RecentlySent(s.recent, s.activeNodes.ids[k])
    ensures var t := ScheduleNext(s, level).1;
      t.activeNodes.ids == s.activeNodes.ids && t.activeNodes.last < |t.activeNodes.ids| && Wait(t, k) < Wait(s, k)
  {
    hide TryTurns;
    var q := s.activeNodes;
    assert q.ids[k] in q.ids;
    CursorApproaches(q, k);
    if s.tillService == 0 {
      CursorApproaches(q.Next().1, k);
      TurnsOrService(Service(s, true).1, level, 3);
    } else {
      TurnsOrService(s, level, 3);
    }
  }

  /** The last four choices are remembered, an open slot among them as 255; open slots that
      were due are not. */
  lemma ChoiceRecorded(s: Sched, level: nat)
    requires s.Valid()
    ensures var (node, t) := ScheduleNext(s, level);
      if s.tillAllocation == 0 then t.recent == s.recent
      else |t.recent| == 4 && t.recent[..3] == s.recent[1..]
           && t.recent[3] == if node == UNALLOCATED_NODE_ID then INVALID_NODE_ID else node
  {
    AllocatedIsNode(s, level);
    hide ScheduleAllocated;
  }

  /** The last m recorded slots did not go to v. */
  predicate NotLately(s: Sched, v: uint8, m: nat)
    requires |s.recent| == MAX_MASTER_SLOTS_BETWEEN_ACKS
  {
    forall r :: 0 <= r < 4 && 4 - m <= r ==> s.recent[r] != v
  }

  function Patience(s: Sched, k: nat, m: nat): nat
    requires k < |s.activeNodes.ids| && s.activeNodes.last < |s.activeNodes.ids|
  {
    if m >= 4 then Wait(s, k) else 4 - m + 6 * |s.activeNodes.ids| - 1
  }

  /** One slot that does not schedule v: what it does to v's patience. */
  lemma SlotApproaches(b: Bus, level: nat, c: Bus, k: nat, m: nat)
    requires BusOk(b) && Moves(b, level, c) && BusOk(c) && k < |b.sched.activeNodes.ids|
    requires Decision(b, level) != b.sched.activeNodes.ids[k]
    requires NotLately(b.sched, b.sched.activeNodes.ids[k], m)
    ensures c.sched.activeNodes.ids == b.sched.activeNodes.ids
    ensures NotLately(c.sched, b.sched.activeNodes.ids[k], if Chosen(b) then m + 1 else m)
    ensures if Chosen(b) then Patience(c.sched, k, m + 1) < Patience(b.sched, k, m)
            else Patience(c.sched, k, m) == Patience(b.sched, k, m)
  {
    hide ScheduleAllocated;
    var s := b.sched;
    var v := s.activeNodes.ids[k];
    assert v in s.activeNodes.ids;
    if Chosen(b) {
      var l := if |b.window| == 1 then 0
               else if level > MasterSlots(b.window[1..]) then level - MasterSlots(b.window[1..]) else 0;
      assert UpdateWindow(s, b.window, level).1 == ScheduleNext(s, l).1;
      assert Decision(b, level) == ScheduleNext(s, l).0;
      ChoiceRecorded(s, l);
      ScheduleNextKeepsValid(s, l);
      assert c.sched.recent == s.recent[1..] + [c.sched.recent[3]];
      if m >= 4 {
        assert !RecentlySent(s.recent, v);
        ChoiceApproaches(s, l, k);
      }
    }
  }

  /** Chosen slots that pass v by are no more than its patience. */
  lemma {:induction false} PassedByAtMost(bs: seq<Bus>, levels: seq<nat>, k: nat, m: nat)
    requires SlotRun(bs, levels) && bs != [] && k < |bs[0].sched.activeNodes.ids|
    requires NotLately(bs[0].sched, bs[0].sched.activeNodes.ids[k], m)
    requires forall i :: 0 <= i < |bs| ==> Decision(bs[i], levels[i]) != bs[0].sched.activeNodes.ids[k]
    ensures ChosenCount(bs) <= Patience(bs[0].sched, k, m)
    decreases |bs|
  {
    hide UpdateWindow, Patience;
    var b, level := bs[0], levels[0];
    if |bs| == 1 {
      var c := After(b, level);
      SlotApproaches(b, level, c, k, m);
      assert ChosenCount(bs[1..]) == 0;
    } else {
      var c := bs[1];
      assert Moves(b, level, c);
      SlotApproaches(b, level, c, k, m);
      PassedByAtMost(bs[1..], levels[1..], k, if Chosen(b) then m + 1 else m);
    }
  }

  /** The next state with a quiet environment. */
  ghost function After(b: Bus, level: nat): (c: Bus)
    requires BusOk(b)
    ensures Moves(b, level, c) && BusOk(c)
  {
    var (w, s) := UpdateWindow(b.sched, b.window, level);
    if |b.window| == 1 then
      ScheduleNextKeepsValid(b.sched, 0);
      Bus(s, w)
    else
      ScheduleNextKeepsValid(b.sched, if level > MasterSlots(b.window[1..]) then level - MasterSlots(b.window[1..]) else 0);
      Bus(s, w)
  }

  // ---------- how often a slot is chosen ----------

  /** Slots before the next chosen one: at most one allocation at a time, and with several
      slots ahead at most one slot for the master between two decisions. */
  function Delay(b: Bus): nat
    requires |b.window| > 0
  {
    (if Consulted(b) then 0 else 1)
    + if b.sched.tillAllocation != 0 then 0 else if |b.window| == 1 then 1 else 2
  }

  function MaxDelay(b: Bus): nat {
    if |b.window| == 1 then 1 else 3
  }

  lemma DelayPasses(b: Bus, level: nat, c: Bus)
    requires BusOk(b) && Moves(b, level, c) && BusOk(c)
    ensures Delay(c) <= MaxDelay(c) && |c.window| == |b.window|
    ensures !Chosen(b) ==> Delay(c) < Delay(b)
  {
    var (w, s) := UpdateWindow(b.sched, b.window, level);
    if !Consulted(b) {
      assert w == b.window[1..] + [MASTER_NODE_ID];
      assert w[1..][|w| - 2] == MASTER_NODE_ID;
    }
  }

  lemma {:induction false} ChosenOften(bs: seq<Bus>, levels: seq<nat>)
    requires SlotRun(bs, levels) && bs != []
    ensures (MaxDelay(bs[0]) + 1) * ChosenCount(bs) >= |bs| - Delay(bs[0])
    decreases |bs|
  {
    hide UpdateWindow, Delay;
    if |bs| == 1 {
      var c := After(bs[0], levels[0]);
      DelayPasses(bs[0], levels[0], c);
      assert ChosenCount(bs[1..]) == 0;
    } else {
      assert Moves(bs[0], levels[0], bs[1]);
      DelayPasses(bs[0], levels[0], bs[1]);
      ChosenOften(bs[1..], levels[1..]);
    }
  }

  // ---------- the theorem ----------

  /** No starvation: with n nodes on the network, each is scheduled at least once in any
      2(6n + 4) successive slots when one slot is scheduled ahead, and in any 4(6n + 4)
      when several are. */
  lemma NoStarvation(bs: seq<Bus>, levels: seq<nat>, v: uint8)
    requires SlotRun(bs, levels) && bs != [] && v in bs[0].sched.activeNodes.ids
    requires |bs| >= (if |bs[0].window| == 1 then 2 else 4) * (6 * |bs[0].sched.activeNodes.ids| + 4)
    ensures exists i :: 0 <= i < |bs| && Decision(bs[i], levels[i]) == v
  {
    var k :| 0 <= k < |bs[0].sched.activeNodes.ids| && bs[0].sched.activeNodes.ids[k] == v;
    ChosenOften(bs, levels);
    if |bs[0].window| == 1 {
      assert 2 * ChosenCount(bs) >= |bs| - 1;
    } else {
      assert 4 * ChosenCount(bs) >= |bs| - 3;
    }
    assert ChosenCount(bs) >= 6 * |bs[0].sched.activeNodes.ids| + 4;
    if forall i :: 0 <= i < |bs| ==> Decision(bs[i], levels[i]) != v {
      PassedByAtMost(bs, levels, k, 0);
    }
  }


  lemma AtMost63(q: Queue)
    requires NodesIn(q)
    ensures |q.ids| <= 63
  {
    forall i | 0 <= i < |q.ids| ensures FIRST_NODE_ID <= q.ids[i] < MAX_NODES {
      assert q.ids[i] in q.ids;
    }
    DistinctBelow(q.ids + [MASTER_NODE_ID], MAX_NODES);
  }

  /** On a full network that bound is shorter than the time a node waits before it gives
      up its place. */
  lemma ServicedBeforeTimeout(b: Bus)
    requires BusOk(b)
    ensures var slots := (if |b.window| == 1 then 2 else 4) * (6 * |b.sched.activeNodes.ids| + 4);
      slots * Timeouts.SLOT_TIME_US < Timeouts.NODE_TIMEOUT_US
  {
    AtMost63(b.sched.activeNodes);
    assert (6 * |b.sched.activeNodes.ids| + 4) <= 382;
  }

  // ---------- the master is always heard ----------

  /** The window is what the next slots will be. */
  lemma {:induction false} WindowIsFuture(bs: seq<Bus>, levels: seq<nat>, j: nat)
    requires SlotRun(bs, levels) && j < |bs| && j < |bs[0].window|
    ensures |bs[j].window| == |bs[0].window| && bs[j].window[0] == bs[0].window[j]
  {
    if j > 0 {
      assert Moves(bs[0], levels[0], bs[1]);
      assert bs[1].window[..|bs[1].window| - 1] == bs[0].window[1..];
      WindowIsFuture(bs[1..], levels[1..], j - 1);
      assert bs[1].window[j - 1] == bs[0].window[1..][j - 1];
    }
  }

  /** With more than one slot scheduled ahead, after the first slot of any run the window
      holds a slot for the master, so among any numTxNodesScheduled successive speakers
      one is the master. */
  lemma MasterAlwaysHeard(bs: seq<Bus>, levels: seq<nat>, i: nat)
    requires SlotRun(bs, levels) && bs != [] && bs[0].sched.numTxNodesScheduled > 1
    requires 0 < i && i + bs[0].sched.numTxNodesScheduled <= |bs|
    ensures MASTER_NODE_ID in bs[i].window
    ensures exists m :: i <= m < i + bs[0].sched.numTxNodesScheduled && bs[m].window != [] && bs[m].window[0] == MASTER_NODE_ID
  {
    SameWidth(bs, levels, i - 1);
    SameWidth(bs, levels, i);
    assert Moves(bs[i - 1], levels[i - 1], bs[i]);
    var kept, w := bs[i - 1].window[1..], bs[i].window;
    assert w[..|w| - 1] == kept;
    if MASTER_NODE_ID in kept {
      var m :| 0 <= m < |kept| && kept[m] == MASTER_NODE_ID;
      assert w[m] == w[..|w| - 1][m];
    } else {
      assert w[|w| - 1] == MASTER_NODE_ID;
    }
    var j :| 0 <= j < |w| && w[j] == MASTER_NODE_ID;
    WindowIsFuture(bs[i..], levels[i..], j);
    assert bs[i..][j] == bs[i + j];
  }

  lemma {:induction false} SameWidth(bs: seq<Bus>, levels: seq<nat>, i: nat)
    requires SlotRun(bs, levels) && i < |bs|
    ensures bs[i].sched.numTxNodesScheduled == bs[0].sched.numTxNodesScheduled
  {
    if i > 0 {
      SameWidth(bs, levels, i - 1);
      assert Moves(bs[i - 1], levels[i - 1], bs[i]);
    }
  }
}
