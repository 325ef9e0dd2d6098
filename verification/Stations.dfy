/** The master's table together with the nodes that hold the ids it gave out
    (src/networkManager.c, src/node.c): when two nodes can hold the same id. */
module Stations {
  import opened Microbus
  import opened NodeQueues
  import opened Timeouts
  import opened Membership
  import opened JoinResponse

  /** A node: its unique id, the id it holds, and the time it has left. */
  datatype Station = Station(uniqueId: uint64, nodeId: uint8, timeToLive: int)
  {
    predicate On() {
      nodeId != UNALLOCATED_NODE_ID
    }
  }

  datatype Network = Network(members: Members, stations: seq<Station>)

  /** The master hears a request, a node hears a response, a node transmits, time passes for
      both sides, a node that timed out or was reset leaves, the master cleans up. */
  datatype Happening =
    | Request(i: nat)
    | Answer(i: nat)
    | Transmit(i: nat, heard: bool)
    | BothElapse(us: uint32)
    | Leave(i: nat)
    | CleanUp

  /** A node looks at its timeout in every slot, so between two reports of time. */
  predicate Enabled(y: Network, e: Happening) {
    && |y.members.ttl| == MAX_NODES
    && match e
       case Request(i) => i < |y.stations| && !y.stations[i].On() && y.stations[i].uniqueId != 0
       case Answer(i) => i < |y.stations| && !y.stations[i].On()
       case Transmit(i, _) => i < |y.stations| && y.stations[i].On() && y.stations[i].nodeId as int < MAX_NODES
       case BothElapse(us) =>
         us < 0x8000_0000 && forall i :: 0 <= i < |y.stations| && y.stations[i].On() ==> !TimedOut(y.stations[i].timeToLive)
       case Leave(i) => i < |y.stations| && y.stations[i].On()
       case CleanUp => true
  }

  /** The id the response holds for a unique id. */
  function Answered(m: Members, uniqueId: uint64): Option<uint8> {
    Decode(Encode(m.joins), |m.joins|, uniqueId)
  }

  function Happen(y: Network, e: Happening): Network
    requires Enabled(y, e)
  {
    match e
    case Request(i) => y.(members := Register(y.members, y.stations[i].uniqueId))
    case Answer(i) =>
      var r := Answered(y.members, y.stations[i].uniqueId);
      if r.None? then y
      else y.(stations := y.stations[i := y.stations[i].(nodeId := r.value, timeToLive := NODE_TIMEOUT_US)])
    case Transmit(i, heard) =>
      var s := y.stations[i];
      Network(if heard then HeardBy(y.members, s.nodeId) else y.members, y.stations[i := s.(timeToLive := NODE_TIMEOUT_US)])
    case BothElapse(us) =>
      Network(Elapse(y.members, us),
              seq(|y.stations|, i requires 0 <= i < |y.stations| =>
                y.stations[i].(timeToLive := NodeTick(y.stations[i].timeToLive, us))))
    case Leave(i) => y.(stations := y.stations[i := y.stations[i].(nodeId := UNALLOCATED_NODE_ID)])
    case CleanUp => y.(members := RemoveTimedOut(y.members))
  }

  /** The condition of NodeTimesOutFirstIff for an id whose node starts its timeout now. */
  predicate Covered(m: Members, id: uint8) {
    && id as int < |m.ttl| && m.ttl[id] <= MASTER_MAX_TIME_TO_LIVE
    && m.timeUs + NODE_TIMEOUT_US <= (m.ttl[id] - 1) * TIME_TO_LIVE_UPDATE_TIME_US
  }

  /** Whenever a node starts its timeout, the ticks the master's count has left cover it. */
  predicate Timely(y: Network, e: Happening)
    requires Enabled(y, e)
  {
    match e
    case Answer(i) =>
      var r := Answered(y.members, y.stations[i].uniqueId);
      r.Some? ==> Covered(y.members, r.value)
    case Transmit(i, heard) => Covered(Happen(y, e).members, y.stations[i].nodeId)
    case _ => true
  }

  // ---------- the invariant ----------

  /** A node on the network holds an id that is live and not marked, and has less time left
      than the master's count for it. */
  predicate Held(m: Members, s: Station) {
    s.On() ==>
      && FIRST_NODE_ID <= s.nodeId && s.nodeId as int < |m.ttl|
      && 1 <= m.ttl[s.nodeId] <= MASTER_MAX_TIME_TO_LIVE
      && s.timeToLive <= NODE_TIMEOUT_US
      && (!TimedOut(s.timeToLive) ==>
            m.timeUs + s.timeToLive <= (m.ttl[s.nodeId] - 1) * TIME_TO_LIVE_UPDATE_TIME_US)
  }

  /** A pending join for the node's id is the node's own. */
  predicate OwnJoin(m: Members, s: Station) {
    s.On() ==> forall e :: e in m.joins && e.nodeId == s.nodeId ==> e.uniqueId == s.uniqueId
  }

  predicate DistinctUniqueIds(ss: seq<Station>) {
    forall i, j :: 0 <= i < j < |ss| ==> ss[i].uniqueId != ss[j].uniqueId
  }

  predicate DistinctNodeIds(ss: seq<Station>) {
    forall i, j :: 0 <= i < j < |ss| && ss[i].On() && ss[j].On() ==> ss[i].nodeId != ss[j].nodeId
  }

  ghost predicate NetworkInv(y: Network) {
    && MembersInv(y.members) && DistinctUniqueIds(y.stations) && DistinctNodeIds(y.stations)
    && (forall i :: 0 <= i < |y.stations| ==> Held(y.members, y.stations[i]) && OwnJoin(y.members, y.stations[i]))
  }

  lemma RequestKeepsInv(y: Network, i: nat)
    requires NetworkInv(y) && Enabled(y, Request(i))
    ensures NetworkInv(Happen(y, Request(i)))
  {
    var m, uniqueId := y.members, y.stations[i].uniqueId;
    RegisterKeepsInv(m, uniqueId);
    var n := Register(m, uniqueId);
    hide MembersInv;
    forall k | 0 <= k < |y.stations| ensures Held(n, y.stations[k]) && OwnJoin(n, y.stations[k]) {
      assert Held(m, y.stations[k]) && OwnJoin(m, y.stations[k]);
    }
  }

  /** The response gives a node the id of its own pending join. */
  lemma AnsweredIsOwn(m: Members, uniqueId: uint64)
    requires MembersInv(m) && Answered(m, uniqueId).Some?
    ensures var id := Answered(m, uniqueId).value;
      && Join(uniqueId, id) in m.joins && Live(m, id)
      && forall e :: e in m.joins && e.nodeId == id ==> e.uniqueId == uniqueId
  {
    JoinRoundTrip(m, [], uniqueId);
    assert Encode(m.joins) + [] == Encode(m.joins);
  }

  lemma AnswerKeepsInv(y: Network, i: nat)
    requires NetworkInv(y) && Enabled(y, Answer(i)) && Timely(y, Answer(i))
    ensures NetworkInv(Happen(y, Answer(i)))
  {
    hide Answered, MembersInv;
    var m, z := y.members, Happen(y, Answer(i));
    if Answered(m, y.stations[i].uniqueId).Some? {
      AnsweredIsOwn(m, y.stations[i].uniqueId);
      forall k | 0 <= k < |y.stations| && k != i && y.stations[k].On() ensures y.stations[k].nodeId != z.stations[i].nodeId {
        assert OwnJoin(m, y.stations[k]);
      }
      forall k | 0 <= k < |y.stations| ensures Held(m, z.stations[k]) && OwnJoin(m, z.stations[k]) {
        assert Held(m, y.stations[k]) && OwnJoin(m, y.stations[k]);
      }
    }
  }

  lemma TransmitKeepsInv(y: Network, i: nat, heard: bool)
    requires NetworkInv(y) && Enabled(y, Transmit(i, heard)) && Timely(y, Transmit(i, heard))
    ensures NetworkInv(Happen(y, Transmit(i, heard)))
  {
    var m, id, z := y.members, y.stations[i].nodeId, Happen(y, Transmit(i, heard));
    assert Held(m, y.stations[i]);
    if heard {
      HeardKeepsInv(m, id);
      WithoutJoinKeeps(m, id);
    }
    hide MembersInv;
    forall k | 0 <= k < |y.stations| ensures Held(z.members, z.stations[k]) && OwnJoin(z.members, z.stations[k]) {
      assert Held(m, y.stations[k]) && OwnJoin(m, y.stations[k]);
    }
  }

  /** A node whose time is covered times out before the count for its id is marked. */
  lemma ElapseHeld(m: Members, s: Station, us: uint32)
    requires MembersInv(m) && Held(m, s) && us < 0x8000_0000 && (s.On() ==> !TimedOut(s.timeToLive))
    ensures Held(Elapse(m, us), s.(timeToLive := NodeTick(s.timeToLive, us)))
  {
    if s.On() {
      hide MembersInv, MasterTick, Accumulate;
      ElapseIsMasterTick(m, us, s.nodeId);
      TickPaid(Clock(m.timeUs, m.ttl[s.nodeId]), us);
    }
  }

  lemma BothElapseKeepsInv(y: Network, us: uint32)
    requires NetworkInv(y) && Enabled(y, BothElapse(us))
    ensures NetworkInv(Happen(y, BothElapse(us)))
  {
    var m, z := y.members, Happen(y, BothElapse(us));
    ElapseKeepsInv(m, us);
    hide MembersInv, Held;
    forall k | 0 <= k < |y.stations| ensures Held(z.members, z.stations[k]) && OwnJoin(z.members, z.stations[k]) {
      assert Held(m, y.stations[k]) && OwnJoin(m, y.stations[k]);
      ElapseHeld(m, y.stations[k], us);
    }
  }

  lemma CleanUpKeepsInv(y: Network)
    requires NetworkInv(y) && Enabled(y, CleanUp)
    ensures NetworkInv(Happen(y, CleanUp))
  {
    var m, n := y.members, RemoveTimedOut(y.members);
    RemoveTimedOutExact(m, 1);
    hide MembersInv, RemoveTimedOut;
    forall k | 0 <= k < |y.stations| ensures Held(n, y.stations[k]) && OwnJoin(n, y.stations[k]) {
      assert Held(m, y.stations[k]) && OwnJoin(m, y.stations[k]);
    }
  }

  lemma HappenKeepsInv(y: Network, e: Happening)
    requires NetworkInv(y) && Enabled(y, e) && Timely(y, e)
    ensures NetworkInv(Happen(y, e))
  {
    match e
    case Request(i) => hide NetworkInv, Happen; RequestKeepsInv(y, i);
    case Answer(i) => hide NetworkInv, Happen; AnswerKeepsInv(y, i);
    case Transmit(i, heard) => hide NetworkInv, Happen; TransmitKeepsInv(y, i, heard);
    case BothElapse(us) => hide NetworkInv, Happen; BothElapseKeepsInv(y, us);
    case Leave(i) => hide MembersInv;
    case CleanUp => hide NetworkInv, Happen; CleanUpKeepsInv(y);
  }

  // ---------- runs ----------

  ghost predicate IsRun(ys: seq<Network>, es: seq<Happening>) {
    && |ys| == |es| + 1
    && forall k :: 0 <= k < |es| ==> Enabled(ys[k], es[k]) && ys[k + 1] == Happen(ys[k], es[k])
  }

  /** Nobody is on the network yet. */
  ghost predicate Fresh(y: Network) {
    && y.members == InitMembers() && DistinctUniqueIds(y.stations)
    && forall i :: 0 <= i < |y.stations| ==> !y.stations[i].On()
  }

  ghost predicate AllTimely(ys: seq<Network>, es: seq<Happening>)
    requires IsRun(ys, es)
  {
    forall k :: 0 <= k < |es| ==> Timely(ys[k], es[k])
  }

  /** No two nodes on the network hold the same id in any state of any run in which every
      node that starts its timeout meets the condition of NodeTimesOutFirstIff. */
  lemma {:induction false} RunKeepsIdsDistinct(ys: seq<Network>, es: seq<Happening>)
    requires IsRun(ys, es) && Fresh(ys[0]) && AllTimely(ys, es)
    ensures NetworkInv(ys[|es|]) && DistinctNodeIds(ys[|es|].stations)
    decreases |es|
  {
    if es == [] {
      InitMembersInv();
    } else {
      var n := |es| - 1;
      assert AllTimely(ys[..n + 1], es[..n]) by {
        forall k | 0 <= k < n ensures Timely(ys[..n + 1][k], es[..n][k]) {
          assert Timely(ys[k], es[k]);
        }
      }
      hide Happen, Enabled, Timely, Held, OwnJoin, MembersInv;
      RunKeepsIdsDistinct(ys[..n + 1], es[..n]);
      HappenKeepsInv(ys[n], es[n]);
    }
  }

  /** A transmission that the master hears is always in time when time is reported in steps
      of at most one tick (AccumulatorBounded). */
  lemma HeardIsTimely(y: Network, i: nat)
    requires NetworkInv(y) && Enabled(y, Transmit(i, true)) && y.members.timeUs < TIME_TO_LIVE_UPDATE_TIME_US
    ensures Timely(y, Transmit(i, true))
  {
    assert Held(y.members, y.stations[i]);
  }

  // ---------- two nodes with one id ----------

  /** The table with id 1 given to a node not heard since, and its count at ttl. */
  function OneMember(uniqueId: uint64, ttl: uint8): Members {
    Members(seq(MAX_NODES, id => if id == 1 then ttl else 0), [Join(uniqueId, 1)], Queue([1], 0), 0)
  }

  lemma RegisterFirst(uniqueId: uint64)
    ensures Register(InitMembers(), uniqueId) == OneMember(uniqueId, MASTER_MAX_TIME_TO_LIVE)
  {
    assert FreeId(InitMembers().ttl) == 1;
    assert Register(InitMembers(), uniqueId).ttl == OneMember(uniqueId, MASTER_MAX_TIME_TO_LIVE).ttl;
  }

  lemma TickOneMember(uniqueId: uint64, ttl: uint8)
    requires 1 <= ttl <= MASTER_MAX_TIME_TO_LIVE
    ensures Elapse(OneMember(uniqueId, ttl), TIME_TO_LIVE_UPDATE_TIME_US) == OneMember(uniqueId, CountDown(ttl))
  {
    assert Elapse(OneMember(uniqueId, ttl), TIME_TO_LIVE_UPDATE_TIME_US).ttl == OneMember(uniqueId, CountDown(ttl)).ttl;
  }

  lemma AnswerOneMember(uniqueId: uint64, ttl: uint8)
    ensures Answered(OneMember(uniqueId, ttl), uniqueId) == Some(1)
  {
    var joins := [Join(uniqueId, 1)];
    EncodedFields(joins, [], 0);
    assert Encode(joins) + [] == Encode(joins);
  }

  lemma CleanUpOneMember(uniqueId: uint64)
    ensures RemoveTimedOut(OneMember(uniqueId, REMOVE_NODE_TTL)) == InitMembers()
  {
    var m := OneMember(uniqueId, REMOVE_NODE_TTL);
    var n := RemoveNode(m, 1);
    assert n.ttl == InitMembers().ttl;
    NothingMarked(n, 2);
  }

  lemma {:induction false} NothingMarked(m: Members, from: nat)
    requires 1 <= from <= |m.ttl| <= MAX_NODES && forall id :: from <= id < |m.ttl| ==> m.ttl[id] != REMOVE_NODE_TTL
    ensures RemoveTimedOut(m, from) == m
    decreases |m.ttl| - from
  {
    if from < |m.ttl| { NothingMarked(m, from + 1); }
  }

  lemma ExtendRun(ys: seq<Network>, es: seq<Happening>, e: Happening) returns (zs: seq<Network>, more: seq<Happening>)
    requires IsRun(ys, es) && Enabled(ys[|es|], e)
    ensures zs == ys + [Happen(ys[|es|], e)] && more == es + [e] && IsRun(zs, more)
    ensures |more| == |es| + 1 && zs[0] == ys[0] && zs[|more|] == Happen(ys[|es|], e)
    ensures SingleTicks(es) && SingleTicks([e]) ==> SingleTicks(more)
  {
    zs, more := ys + [Happen(ys[|es|], e)], es + [e];
  }

  /** Time is reported in single ticks. */
  predicate SingleTicks(es: seq<Happening>) {
    forall e :: e in es && e.BothElapse? ==> e.us == TIME_TO_LIVE_UPDATE_TIME_US
  }

  /** Both nodes off the network and the first one's id waiting for it, k ticks later. */
  lemma {:induction false} WaitForAnswer(a: uint64, b: uint64, k: nat) returns (ys: seq<Network>, es: seq<Happening>)
    requires a != 0 && k < 128
    ensures IsRun(ys, es) && ys[0] == TwoNodes(InitMembers(), a, b)
    ensures ys[|es|] == TwoNodes(OneMember(a, MASTER_MAX_TIME_TO_LIVE - k), a, b)
    ensures SingleTicks(es)
  {
    if k == 0 {
      RegisterFirst(a);
      ys, es := ExtendRun([TwoNodes(InitMembers(), a, b)], [], Request(0));
    } else {
      hide IsRun, Happen, Enabled;
      ys, es := WaitForAnswer(a, b, k - 1);
      TickWhileWaiting(a, b, MASTER_MAX_TIME_TO_LIVE - (k - 1));
      ys, es := ExtendRun(ys, es, BothElapse(TIME_TO_LIVE_UPDATE_TIME_US));
    }
  }

  function TwoNodes(m: Members, a: uint64, b: uint64): Network {
    Network(m, [Station(a, UNALLOCATED_NODE_ID, 0), Station(b, UNALLOCATED_NODE_ID, 0)])
  }

  lemma TickWhileWaiting(a: uint64, b: uint64, ttl: uint8)
    requires 1 < ttl <= MASTER_MAX_TIME_TO_LIVE
    ensures var e := BothElapse(TIME_TO_LIVE_UPDATE_TIME_US);
      && Enabled(TwoNodes(OneMember(a, ttl), a, b), e)
      && Happen(TwoNodes(OneMember(a, ttl), a, b), e) == TwoNodes(OneMember(a, ttl - 1), a, b)
  {
    TickOneMember(a, ttl);
  }

  /** Without that condition two nodes can hold the same id. The first node's response arrives
      when the master's count for it is down to 1, the node's first transmissions are not
      heard, the master marks and removes the id one tick later and gives it to the second
      node; the first still has 519418 microseconds left. Time is reported in single ticks
      throughout. */
  lemma TwoNodesShareAnId(a: uint64, b: uint64) returns (ys: seq<Network>, es: seq<Happening>)
    requires a != 0 && b != 0 && a != b
    ensures IsRun(ys, es) && Fresh(ys[0])
    ensures SingleTicks(es)
    ensures ys[|es|].stations == [Station(a, 1, NODE_TIMEOUT_US - TIME_TO_LIVE_UPDATE_TIME_US), Station(b, 1, NODE_TIMEOUT_US)]
    ensures !DistinctNodeIds(ys[|es|].stations)
  {
    ys, es := WaitForAnswer(a, b, 127);
    assert Fresh(ys[0]);
    var s0, t0 := Station(a, 1, NODE_TIMEOUT_US), Station(a, 1, NODE_TIMEOUT_US - TIME_TO_LIVE_UPDATE_TIME_US);
    var off := Station(b, UNALLOCATED_NODE_ID, 0);
    LateAnswer(a, b);
    IdGivenAgain(a, b, t0);
    TickIsSingle();
    hide IsRun, Happen, Enabled, SingleTicks;
    ys, es := ExtendRun(ys, es, Answer(0));
    ys, es := ExtendRun(ys, es, BothElapse(TIME_TO_LIVE_UPDATE_TIME_US));
    ys, es := ExtendRun(ys, es, CleanUp);
    ys, es := ExtendRun(ys, es, Request(1));
    ys, es := ExtendRun(ys, es, Answer(1));
    assert ys[|es|].stations[0].nodeId == ys[|es|].stations[1].nodeId;
  }

  lemma TickIsSingle()
    ensures SingleTicks([Answer(0)]) && SingleTicks([BothElapse(TIME_TO_LIVE_UPDATE_TIME_US)])
    ensures SingleTicks([CleanUp]) && SingleTicks([Request(1)]) && SingleTicks([Answer(1)])
  {
  }

  /** The first node takes its id with one tick left, and the tick comes. */
  lemma LateAnswer(a: uint64, b: uint64)
    ensures var y := TwoNodes(OneMember(a, 1), a, b);
      var s0, t0 := Station(a, 1, NODE_TIMEOUT_US), Station(a, 1, NODE_TIMEOUT_US - TIME_TO_LIVE_UPDATE_TIME_US);
      var off := Station(b, UNALLOCATED_NODE_ID, 0);
      && Enabled(y, Answer(0)) && Happen(y, Answer(0)) == Network(OneMember(a, 1), [s0, off])
      && var e := BothElapse(TIME_TO_LIVE_UPDATE_TIME_US);
         && Enabled(Network(OneMember(a, 1), [s0, off]), e)
         && Happen(Network(OneMember(a, 1), [s0, off]), e) == Network(OneMember(a, REMOVE_NODE_TTL), [t0, off])
  {
    AnswerOneMember(a, 1);
    TickOneMember(a, 1);
    hide Answered, Elapse;
  }

  /** The id is cleaned up and given to the second node. */
  lemma IdGivenAgain(a: uint64, b: uint64, t0: Station)
    requires b != 0
    ensures var off, on := Station(b, UNALLOCATED_NODE_ID, 0), Station(b, 1, NODE_TIMEOUT_US);
      var marked, cleaned := Network(OneMember(a, REMOVE_NODE_TTL), [t0, off]), Network(InitMembers(), [t0, off]);
      var given := Network(OneMember(b, MASTER_MAX_TIME_TO_LIVE), [t0, off]);
      && Enabled(marked, CleanUp) && Happen(marked, CleanUp) == cleaned
      && Enabled(cleaned, Request(1)) && Happen(cleaned, Request(1)) == given
      && Enabled(given, Answer(1)) && Happen(given, Answer(1)) == Network(OneMember(b, MASTER_MAX_TIME_TO_LIVE), [t0, on])
  {
    CleanUpOneMember(a);
    RegisterFirst(b);
    AnswerOneMember(b, MASTER_MAX_TIME_TO_LIVE);
    hide Answered, Register, RemoveTimedOut;
  }
}
