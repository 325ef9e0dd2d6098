/** The master's record of who is on the network (src/networkManager.c, and the removal in
    src/master.c), as functions on values. */
module Membership {
  import opened Microbus
  import opened NodeQueues
  import opened Timeouts

  const MAX_NODES_ALLOCATED_AT_ONCE := 10

  /** A node given an id that has not been heard since. */
  datatype Join = Join(uniqueId: uint64, nodeId: uint8)

  datatype Members = Members(ttl: seq<uint8>, joins: seq<Join>, active: Queue, timeUs: uint32)

  predicate Asked(joins: seq<Join>, uniqueId: uint64) {
    exists i :: 0 <= i < |joins| && joins[i].uniqueId == uniqueId
  }

  /** getNextFreeNodeId; 64 stands for none. */
  function FreeId(ttl: seq<uint8>, from: nat := 1): (r: nat)
    requires from <= |ttl|
    ensures from <= r <= |ttl| && (r < |ttl| ==> ttl[r] == 0)
    ensures forall k :: from <= k < r ==> ttl[k] != 0
    decreases |ttl| - from
  {
    if from == |ttl| || ttl[from] == 0 then from else FreeId(ttl, from + 1)
  }

  /** networkManagerRegisterNewNode. */
  function Register(m: Members, uniqueId: uint64): Members
    requires |m.ttl| == MAX_NODES
  {
    if |m.joins| == MAX_NODES_ALLOCATED_AT_ONCE || Asked(m.joins, uniqueId) || FreeId(m.ttl) == MAX_NODES then m
    else
      var id: uint8 := FreeId(m.ttl);
      m.(ttl := m.ttl[id := MASTER_MAX_TIME_TO_LIVE], joins := m.joins + [Join(uniqueId, id)], active := m.active.Add(id))
  }

  /** networkManagerRemoveNewNodeRequest: the first entry with the id, if there is one. */
  function WithoutJoin(joins: seq<Join>, id: uint8): seq<Join> {
    if joins == [] then []
    else if joins[0].nodeId == id then joins[1..]
    else [joins[0]] + WithoutJoin(joins[1..], id)
  }

  /** networkManagerRecordRxPacket, called for nodes that are on the network. */
  function Heard(m: Members, id: uint8): Members
    requires |m.ttl| == MAX_NODES && id as int < MAX_NODES
  {
    m.(ttl := m.ttl[id := MASTER_MAX_TIME_TO_LIVE], joins := WithoutJoin(m.joins, id))
  }

  /** The master refreshes only nodes that are on the network. */
  function HeardBy(m: Members, id: uint8): Members
    requires |m.ttl| == MAX_NODES && id as int < MAX_NODES
  {
    if m.ttl[id] > 0 then Heard(m, id) else m
  }

  /** networkManagerUpdateTimeUs. */
  function Elapse(m: Members, us: uint32): Members {
    var (t, tick) := Accumulate(m.timeUs, us);
    m.(timeUs := t,
       ttl := if tick then seq(|m.ttl|, id requires 0 <= id < |m.ttl| => if id >= 1 then CountDown(m.ttl[id]) else m.ttl[id])
              else m.ttl)
  }

  function RemoveNode(m: Members, id: uint8): Members
    requires id as int < |m.ttl|
  {
    m.(ttl := m.ttl[id := 0], joins := WithoutJoin(m.joins, id), active := m.active.Remove(id))
  }

  function CleanOne(m: Members, id: uint8): Members
    requires id as int < |m.ttl|
  {
    if m.ttl[id] == REMOVE_NODE_TTL then RemoveNode(m, id) else m
  }

  /** masterRemoveAnyTimeoutNodes, from one id on. */
  function RemoveTimedOut(m: Members, from: nat := 1): (r: Members)
    requires from <= |m.ttl| <= MAX_NODES
    ensures |r.ttl| == |m.ttl|
    decreases |m.ttl| - from
  {
    if from == |m.ttl| then m
    else RemoveTimedOut(CleanOne(m, from), from + 1)
  }

  function InitMembers(): Members {
    Members(seq(MAX_NODES, _ => 0), [], Queue([], 0), 0)
  }

  // ---------- what holds ----------

  predicate Live(m: Members, id: nat) {
    FIRST_NODE_ID as int <= id < |m.ttl| && m.ttl[id] > 0
  }

  ghost predicate JoinsOk(m: Members) {
    && |m.joins| <= MAX_NODES_ALLOCATED_AT_ONCE
    && (forall i :: 0 <= i < |m.joins| ==> m.joins[i].uniqueId != 0 && Live(m, m.joins[i].nodeId))
    && (forall i, j :: 0 <= i < j < |m.joins| ==>
          m.joins[i].uniqueId != m.joins[j].uniqueId && m.joins[i].nodeId != m.joins[j].nodeId)
  }

  ghost predicate MembersInv(m: Members) {
    && |m.ttl| == MAX_NODES && m.active.Valid()
    && (forall id :: 1 <= id < MAX_NODES ==> m.ttl[id] <= MASTER_MAX_TIME_TO_LIVE || m.ttl[id] == REMOVE_NODE_TTL)
    && (forall id: uint8 :: id in m.active.ids <==> Live(m, id))
    && JoinsOk(m)
  }

  lemma InitMembersInv()
    ensures MembersInv(InitMembers())
  {
  }

  /** There are only 63 ids, so the queue always has room for one more node. */
  lemma ActiveHasRoom(m: Members)
    requires MembersInv(m)
    ensures |m.active.ids| < MAX_NODES
  {
    var ids := m.active.ids;
    assert forall i :: 0 <= i < |ids| ==> ids[i] in ids;
    var lowered: seq<nat> := seq(|ids|, i requires 0 <= i < |ids| => ids[i] - 1);
    DistinctBelow(lowered, MAX_NODES - 1);
  }

  lemma RegisterKeepsInv(m: Members, uniqueId: uint64)
    requires MembersInv(m) && uniqueId != 0
    ensures MembersInv(Register(m, uniqueId))
  {
    ActiveHasRoom(m);
    if Register(m, uniqueId) != m {
      var id: uint8 := FreeId(m.ttl);
      AddKeepsValid(m.active, id);
    }
  }

  /** A request is granted exactly when there is room in the table of joins and an id to give;
      the id is the lowest one free, with a full count, and nothing else changes. */
  lemma RegisterGrantsIff(m: Members, uniqueId: uint64)
    requires MembersInv(m) && uniqueId != 0 && !Asked(m.joins, uniqueId)
    ensures var z := Register(m, uniqueId);
      && (Asked(z.joins, uniqueId) <==>
            |m.joins| < 10 && exists id: uint8 :: 1 <= id < 64 && m.ttl[id] == 0)
      && (Asked(z.joins, uniqueId) ==>
            var id := z.joins[|m.joins|].nodeId;
            && z.joins == m.joins + [Join(uniqueId, id)]
            && 1 <= id < 64 && m.ttl[id] == 0 && (forall k :: 1 <= k < id ==> m.ttl[k] > 0)
            && z.ttl == m.ttl[id := 128] && id in z.active.ids)
      && (!Asked(z.joins, uniqueId) ==> z == m)
  {
    var id := FreeId(m.ttl);
    var z := Register(m, uniqueId);
    if z != m {
      assert z.joins[|m.joins|].uniqueId == uniqueId;
    }
  }

  /** A request that is already pending changes nothing. */
  lemma RegisterOnce(m: Members, uniqueId: uint64)
    requires MembersInv(m) && uniqueId != 0
    ensures Register(Register(m, uniqueId), uniqueId) == Register(m, uniqueId)
  {
    var z := Register(m, uniqueId);
    if z != m {
      assert z.joins[|m.joins|].uniqueId == uniqueId;
    }
  }

  /** The entry disappears and the others keep their order. */
  lemma {:induction false} WithoutJoinAt(joins: seq<Join>, id: uint8, i: nat)
    requires i < |joins| && joins[i].nodeId == id && forall k :: 0 <= k < i ==> joins[k].nodeId != id
    ensures WithoutJoin(joins, id) == Drop(joins, i)
  {
    if i > 0 {
      WithoutJoinAt(joins[1..], id, i - 1);
      assert joins[..i] == [joins[0]] + joins[1..][..i - 1];
    }
  }

  lemma {:induction false} WithoutJoinAbsent(joins: seq<Join>, id: uint8)
    requires forall k :: 0 <= k < |joins| ==> joins[k].nodeId != id
    ensures WithoutJoin(joins, id) == joins
  {
    if joins != [] { WithoutJoinAbsent(joins[1..], id); }
  }

  lemma WithoutJoinKeeps(m: Members, id: uint8)
    requires JoinsOk(m)
    ensures JoinsOk(m.(joins := WithoutJoin(m.joins, id)))
    ensures forall e :: e in WithoutJoin(m.joins, id) <==> e in m.joins && e.nodeId != id
  {
    hide WithoutJoin;
    if i :| 0 <= i < |m.joins| && m.joins[i].nodeId == id {
      assert forall k :: 0 <= k < i ==> m.joins[k].nodeId != id;
      WithoutJoinAt(m.joins, id, i);
      WithoutOne(m, i);
    } else {
      WithoutJoinAbsent(m.joins, id);
    }
  }

  lemma WithoutOne(m: Members, i: nat)
    requires JoinsOk(m) && i < |m.joins|
    ensures JoinsOk(m.(joins := Drop(m.joins, i)))
    ensures forall e :: e in Drop(m.joins, i) <==> e in m.joins && e.nodeId != m.joins[i].nodeId
  {
    hide Drop, Live;
    var r := Drop(m.joins, i);
    forall k: nat | k < |r| ensures r[k] == m.joins[if k < i then k else k + 1] {
      DropAt(m.joins, i, k);
    }
    forall e ensures e in m.joins <==> e in r || e == m.joins[i] {
      DropHas(m.joins, i, e);
    }
    assert forall k :: 0 <= k < |r| ==> Live(m.(joins := r), r[k].nodeId) == Live(m, r[k].nodeId) by {
      LiveByTtl(m, r);
    }
  }

  lemma LiveByTtl(m: Members, joins: seq<Join>)
    ensures forall id: nat :: Live(m.(joins := joins), id) == Live(m, id)
  {
  }

  lemma HeardKeepsInv(m: Members, id: uint8)
    requires MembersInv(m) && Live(m, id)
    ensures MembersInv(Heard(m, id))
  {
    WithoutJoinKeeps(m, id);
  }

  /** A heard node has joined for good: its pending join is gone and its count is full;
      nobody else's join or count changes. */
  lemma HeardCompletesJoin(m: Members, id: uint8)
    requires MembersInv(m) && Live(m, id)
    ensures var z := Heard(m, id);
      && (forall e :: e in z.joins <==> e in m.joins && e.nodeId != id)
      && |z.joins| == |m.joins| - (if exists e :: e in m.joins && e.nodeId == id then 1 else 0)
      && |z.ttl| == |m.ttl| && z.ttl[id] == MASTER_MAX_TIME_TO_LIVE
      && forall k :: 0 <= k < |m.ttl| && k != id as int ==> z.ttl[k] == m.ttl[k]
  {
    WithoutJoinKeeps(m, id);
    if i :| 0 <= i < |m.joins| && m.joins[i].nodeId == id {
      assert forall k :: 0 <= k < i ==> m.joins[k].nodeId != id;
      WithoutJoinAt(m.joins, id, i);
      assert m.joins[i] in m.joins;
    } else {
      WithoutJoinAbsent(m.joins, id);
    }
  }

  lemma ElapseKeepsInv(m: Members, us: uint32)
    requires MembersInv(m)
    ensures MembersInv(Elapse(m, us))
  {
    hide Accumulate;
    var z := Elapse(m, us);
    assert forall id :: 0 <= id < MAX_NODES ==> Live(z, id) == Live(m, id);
  }

  lemma RemoveNodeKeepsInv(m: Members, id: uint8)
    requires MembersInv(m) && FIRST_NODE_ID <= id && id as int < MAX_NODES
    ensures MembersInv(RemoveNode(m, id))
  {
    RemoveKeepsRest(m.active, id);
    WithoutJoinKeeps(m, id);
    var z := RemoveNode(m, id);
    forall i | 0 <= i < |z.joins| ensures z.joins[i].uniqueId != 0 && Live(z, z.joins[i].nodeId) {
      assert z.joins[i] in z.joins;
    }
  }

  lemma CleanOneKeepsInv(m: Members, id: uint8)
    requires MembersInv(m) && FIRST_NODE_ID <= id && id as int < MAX_NODES
    ensures var t := CleanOne(m, id);
      && MembersInv(t) && t.timeUs == m.timeUs && |t.ttl| == MAX_NODES
      && t.ttl == m.ttl[id := if m.ttl[id] == REMOVE_NODE_TTL then 0 else m.ttl[id]]
  {
    if m.ttl[id] == REMOVE_NODE_TTL { RemoveNodeKeepsInv(m, id); }
  }

  lemma CleanOneJoin(m: Members, id: uint8, e: Join)
    requires MembersInv(m) && FIRST_NODE_ID <= id && id as int < MAX_NODES
    ensures e in CleanOne(m, id).joins <==> e in m.joins && Kept(CleanOne(m, id).ttl, e)
  {
    JoinLive(m, e);
    if m.ttl[id] == REMOVE_NODE_TTL { WithoutJoinKeeps(m, id); }
  }

  lemma {:induction false} RemoveTimedOutCounts(m: Members, from: nat)
    requires MembersInv(m) && 1 <= from <= MAX_NODES
    ensures var z := RemoveTimedOut(m, from);
      && MembersInv(z) && z.timeUs == m.timeUs && |z.ttl| == |m.ttl| == MAX_NODES
      && forall id :: 0 <= id < MAX_NODES ==>
           z.ttl[id] == if id >= from && m.ttl[id] == REMOVE_NODE_TTL then 0 else m.ttl[id]
    decreases MAX_NODES - from
  {
    assert |m.ttl| == MAX_NODES;
    hide MembersInv, RemoveNode;
    if from < MAX_NODES {
      CleanOneKeepsInv(m, from);
      hide CleanOne;
      RemoveTimedOutCounts(CleanOne(m, from), from + 1);
    }
  }

  predicate Kept(ttl: seq<uint8>, e: Join) {
    e.nodeId as int < |ttl| && ttl[e.nodeId] > 0
  }

  /** One id: its pending join goes if and only if the id was marked. */
  lemma {:induction false} RemoveTimedOutJoin(m: Members, from: nat, e: Join)
    requires MembersInv(m) && 1 <= from <= MAX_NODES
    ensures e in RemoveTimedOut(m, from).joins <==> e in m.joins && Kept(RemoveTimedOut(m, from).ttl, e)
    decreases MAX_NODES - from
  {
    assert |m.ttl| == MAX_NODES;
    JoinLive(m, e);
    RemoveTimedOutCounts(m, from);
    hide MembersInv, RemoveNode;
    if from < MAX_NODES {
      CleanOneKeepsInv(m, from);
      CleanOneJoin(m, from, e);
      hide CleanOne;
      RemoveTimedOutJoin(CleanOne(m, from), from + 1, e);
    }
  }

  lemma JoinLive(m: Members, e: Join)
    requires MembersInv(m)
    ensures e in m.joins ==> Kept(m.ttl, e)
  {
  }

  /** Cleaning up removes exactly the marked nodes, from every table. */
  lemma RemoveTimedOutExact(m: Members, from: nat)
    requires MembersInv(m) && 1 <= from <= MAX_NODES
    ensures var z := RemoveTimedOut(m, from);
      && MembersInv(z) && z.timeUs == m.timeUs
      && (forall id :: 0 <= id < MAX_NODES ==>
            z.ttl[id] == if id >= from && m.ttl[id] == REMOVE_NODE_TTL then 0 else m.ttl[id])
      && (forall e :: e in z.joins <==> e in m.joins && z.ttl[e.nodeId] > 0)
  {
    RemoveTimedOutCounts(m, from);
    var z := RemoveTimedOut(m, from);
    forall e ensures e in z.joins <==> e in m.joins && Kept(z.ttl, e) {
      RemoveTimedOutJoin(m, from, e);
    }
    forall e | e in m.joins ensures e.nodeId as int < MAX_NODES {
      JoinLive(m, e);
    }
    hide MembersInv, RemoveTimedOut;
  }

  // ---------- runs ----------

  datatype Event = NewNode(uniqueId: uint64) | HeardFrom(id: uint8) | TimePasses(us: uint32) | Cleanup

  predicate Enabled(m: Members, event: Event) {
    && |m.ttl| == MAX_NODES
    && match event
       case NewNode(uniqueId) => uniqueId != 0
       case HeardFrom(id) => id as int < MAX_NODES && Live(m, id)
       case TimePasses(us) => true
       case Cleanup => true
  }

  function Apply(m: Members, event: Event): Members
    requires Enabled(m, event)
  {
    match event
    case NewNode(uniqueId) => Register(m, uniqueId)
    case HeardFrom(id) => Heard(m, id)
    case TimePasses(us) => Elapse(m, us)
    case Cleanup => RemoveTimedOut(m)
  }

  lemma EventKeepsInv(m: Members, event: Event)
    requires MembersInv(m) && Enabled(m, event)
    ensures MembersInv(Apply(m, event))
  {
    hide MembersInv, Register, Heard, Elapse, RemoveTimedOut;
    match event
    case NewNode(uniqueId) => RegisterKeepsInv(m, uniqueId);
    case HeardFrom(id) => HeardKeepsInv(m, id);
    case TimePasses(us) => ElapseKeepsInv(m, us);
    case Cleanup => RemoveTimedOutExact(m, 1);
  }

  ghost predicate IsRun(ms: seq<Members>, events: seq<Event>) {
    && |ms| == |events| + 1
    && forall k :: 0 <= k < |events| ==> Enabled(ms[k], events[k]) && ms[k + 1] == Apply(ms[k], events[k])
  }

  /** The tables agree in every state of every run. */
  lemma {:induction false} RunKeepsInv(ms: seq<Members>, events: seq<Event>)
    requires IsRun(ms, events) && MembersInv(ms[0])
    ensures MembersInv(ms[|events|])
    decreases |events|
  {
    hide MembersInv, Enabled, Apply;
    if events != [] {
      var n := |events| - 1;
      RunKeepsInv(ms[..n + 1], events[..n]);
      EventKeepsInv(ms[n], events[n]);
    }
  }

  /** One step short of a clean-up: a live id stays live, and nobody is given it. */
  lemma LiveIdNotGiven(m: Members, event: Event, id: uint8)
    requires MembersInv(m) && Enabled(m, event) && event != Cleanup && Live(m, id)
    ensures Live(Apply(m, event), id)
    ensures forall e :: e in Apply(m, event).joins && e.nodeId == id ==> e in m.joins
  {
    hide Accumulate;
    if event.HeardFrom? { WithoutJoinKeeps(m, event.id); }
  }

  /** From the moment an id is taken, marked for removal or not, until a clean-up, it is
      handed to no other node. */
  lemma {:induction false} MarkedIdNotHandedOut(ms: seq<Members>, events: seq<Event>, id: uint8)
    requires IsRun(ms, events) && MembersInv(ms[0]) && Live(ms[0], id) && Cleanup !in events
    ensures Live(ms[|events|], id)
    ensures forall e :: e in ms[|events|].joins && e.nodeId == id ==> e in ms[0].joins
    decreases |events|
  {
    hide MembersInv, Enabled, Apply, Live;
    if events != [] {
      var n := |events| - 1;
      RunKeepsInv(ms[..n + 1], events[..n]);
      MarkedIdNotHandedOut(ms[..n + 1], events[..n], id);
      assert events[n] in events;
      LiveIdNotGiven(ms[n], events[n], id);
    }
  }

  /** A clean-up takes an id away exactly when it was marked, which is when the count for
      it ran out: for one id, the table is the clock of Timeouts. */
  lemma ElapseIsMasterTick(m: Members, us: uint32, id: uint8)
    requires MembersInv(m) && FIRST_NODE_ID <= id && id as int < MAX_NODES
    ensures Clock(Elapse(m, us).timeUs, Elapse(m, us).ttl[id]) == MasterTick(Clock(m.timeUs, m.ttl[id]), us)
  {
    hide Accumulate;
  }
}
