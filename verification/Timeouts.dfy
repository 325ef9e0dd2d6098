/** The two timeouts of one node (src/networkManager.c): its own, counted down in
    microseconds, and the master's, counted down in ticks of a shared accumulator. */
module Timeouts {
  import opened Microbus

  const SLOT_TIME_US := 341
  const NODE_TIMEOUT_US := 523776
  const MASTER_MAX_TIME_TO_LIVE: uint8 := 128
  const TIME_TO_LIVE_UPDATE_TIME_US := 4358
  const REMOVE_NODE_TTL: uint8 := 0xFF

  /** The values above are those of the source's formulas: a 192-byte slot, an allocation
      every two slots, six slots between services, and a hundred slots more for the master. */
  lemma TimingConstants()
    ensures SLOT_TIME_US == 8 * 192 * 10 / 45
    ensures NODE_TIMEOUT_US == 2 * 2 * 6 * MAX_NODES * SLOT_TIME_US
    ensures TIME_TO_LIVE_UPDATE_TIME_US == (NODE_TIMEOUT_US + 100 * SLOT_TIME_US) / MASTER_MAX_TIME_TO_LIVE
  {
  }

  // ---------- the node ----------

  /** The value an int32_t takes when it is assigned a sum or difference out of range. */
  function ToInt32(x: int): int {
    var r := x % 0x1_0000_0000;
    if r < 0x8000_0000 then r else r - 0x1_0000_0000
  }

  /** nodeNwUpdateTimeUs. */
  function NodeTick(timeToLive: int, us: uint32): int {
    if timeToLive > 0 then ToInt32(timeToLive - us) else timeToLive
  }

  predicate TimedOut(timeToLive: int) {
    timeToLive <= 0
  }

  // ---------- the master ----------

  /** The shared accumulator, and the count of one node. */
  datatype Clock = Clock(timeUs: uint32, ttl: uint8)

  /** networkManagerUpdateTimeUs: the accumulator, and whether this call is a tick. */
  function Accumulate(timeUs: uint32, us: uint32): (uint32, bool) {
    var t := (timeUs + us) % 0x1_0000_0000;
    if t >= TIME_TO_LIVE_UPDATE_TIME_US then (t - TIME_TO_LIVE_UPDATE_TIME_US, true) else (t, false)
  }

  /** A tick takes a live count down; one that reaches zero is marked for removal. */
  function CountDown(ttl: uint8): uint8 {
    if ttl > 0 && ttl != REMOVE_NODE_TTL then (if ttl == 1 then REMOVE_NODE_TTL else ttl - 1) else ttl
  }

  function MasterTick(c: Clock, us: uint32): Clock {
    var (t, tick) := Accumulate(c.timeUs, us);
    Clock(t, if tick then CountDown(c.ttl) else c.ttl)
  }

  // ---------- runs of both ----------

  function MasterAfter(c: Clock, increments: seq<uint32>): Clock {
    if increments == [] then c
    else MasterTick(MasterAfter(c, increments[..|increments| - 1]), increments[|increments| - 1])
  }

  function NodeAfter(timeToLive: int, increments: seq<uint32>): int {
    if increments == [] then timeToLive
    else NodeTick(NodeAfter(timeToLive, increments[..|increments| - 1]), increments[|increments| - 1])
  }

  function Sum(increments: seq<uint32>): nat {
    if increments == [] then 0 else Sum(increments[..|increments| - 1]) + increments[|increments| - 1]
  }

  /** No single increment is so long that the node's signed count turns positive again. */
  predicate Sensible(increments: seq<uint32>) {
    forall i :: 0 <= i < |increments| ==> increments[i] < 0x8000_0000
  }

  /** When the master's count is marked, the node had timed out an increment earlier. */
  predicate NodeFirst(c: Clock, increments: seq<uint32>) {
    MasterAfter(c, increments).ttl == REMOVE_NODE_TTL ==>
      increments != [] && TimedOut(NodeAfter(NODE_TIMEOUT_US, increments[..|increments| - 1]))
  }

  lemma {:induction false} NodeCountsDown(timeToLive: int, increments: seq<uint32>)
    requires 0 < timeToLive <= NODE_TIMEOUT_US && Sensible(increments)
    ensures var t := NodeAfter(timeToLive, increments);
      if Sum(increments) < timeToLive then t == timeToLive - Sum(increments) else TimedOut(t)
  {
    if increments != [] {
      NodeCountsDown(timeToLive, increments[..|increments| - 1]);
    }
  }

  lemma TickPaid(c: Clock, us: uint32)
    requires 1 <= c.ttl <= MASTER_MAX_TIME_TO_LIVE
    ensures var z := MasterTick(c, us);
      || (z.ttl == REMOVE_NODE_TTL && c.ttl == 1)
      || (1 <= z.ttl <= c.ttl
          && z.timeUs + (c.ttl - z.ttl) * TIME_TO_LIVE_UPDATE_TIME_US <= c.timeUs + us)
  {
  }

  /** Every tick is paid for by time that has gone by or was left in the accumulator. */
  lemma {:induction false} TicksArePaid(c: Clock, increments: seq<uint32>)
    requires 1 <= c.ttl <= MASTER_MAX_TIME_TO_LIVE
    ensures var z := MasterAfter(c, increments);
      || z.ttl == REMOVE_NODE_TTL
      || (1 <= z.ttl <= c.ttl
          && z.timeUs + (c.ttl - z.ttl) * TIME_TO_LIVE_UPDATE_TIME_US <= c.timeUs + Sum(increments))
  {
    if increments != [] {
      var before := increments[..|increments| - 1];
      TicksArePaid(c, before);
      hide MasterTick;
      if MasterAfter(c, before).ttl != REMOVE_NODE_TTL {
        TickPaid(MasterAfter(c, before), increments[|increments| - 1]);
      } else {
        MarkedStays(MasterAfter(c, before), increments[|increments| - 1]);
      }
    }
  }

  lemma MarkedStays(c: Clock, us: uint32)
    requires c.ttl == REMOVE_NODE_TTL
    ensures MasterTick(c, us).ttl == REMOVE_NODE_TTL
  {
  }

  /** The moment of marking: all but one of the ticks were paid for before the last
      increment. */
  lemma {:induction false} MarkedLate(c: Clock, increments: seq<uint32>)
    requires 1 <= c.ttl <= MASTER_MAX_TIME_TO_LIVE && Sensible(increments)
    requires c.timeUs + NODE_TIMEOUT_US <= (c.ttl - 1) * TIME_TO_LIVE_UPDATE_TIME_US
    ensures NodeFirst(c, increments)
  {
    if increments != [] && MasterAfter(c, increments).ttl == REMOVE_NODE_TTL {
      var before := increments[..|increments| - 1];
      TicksArePaid(c, before);
      NodeCountsDown(NODE_TIMEOUT_US, before);
      if MasterAfter(c, before).ttl == REMOVE_NODE_TTL {
        MarkedLate(c, before);
        assert before == before[..|before| - 1] + [before[|before| - 1]];
      }
    }
  }

  lemma TickNow(c: Clock, us: uint32)
    requires TIME_TO_LIVE_UPDATE_TIME_US <= c.timeUs + us < 0x1_0000_0000 && 1 <= c.ttl <= MASTER_MAX_TIME_TO_LIVE
    ensures MasterTick(c, us) ==
      Clock(c.timeUs + us - TIME_TO_LIVE_UPDATE_TIME_US, if c.ttl == 1 then REMOVE_NODE_TTL else c.ttl - 1)
  {
  }

  /** Time already in the accumulator ticks away one call at a time. */
  lemma {:induction false} Drain(c: Clock, first: uint32, n: nat)
    requires 1 <= c.ttl <= MASTER_MAX_TIME_TO_LIVE && n + 1 < c.ttl as int
    requires (n + 1) * TIME_TO_LIVE_UPDATE_TIME_US <= c.timeUs + first < 0x1_0000_0000
    ensures var increments := [first] + seq(n, _ => 0);
      && MasterAfter(c, increments) == Clock(c.timeUs + first - (n + 1) * TIME_TO_LIVE_UPDATE_TIME_US, c.ttl - (n + 1))
      && Sum(increments) == first
  {
    var increments: seq<uint32> := [first] + seq(n, _ => 0);
    var before := increments[..n];
    hide MasterTick;
    if n == 0 {
      assert before == [];
      assert MasterAfter(c, []) == c;
    } else {
      Drain(c, first, n - 1);
      assert before == [first] + seq(n - 1, _ => 0);
    }
    assert MasterAfter(c, increments) == MasterTick(MasterAfter(c, before), increments[n]);
    TickNow(MasterAfter(c, before), increments[n]);
  }

  /** A run in which the master marks the node while the node is still on the network. */
  function EarlyMark(c: Clock): seq<uint32>
    requires 1 <= c.ttl
  {
    (if c.ttl == 1 then [] else [NODE_TIMEOUT_US - 1] + seq(c.ttl - 2, _ => 0)) + [TIME_TO_LIVE_UPDATE_TIME_US]
  }

  lemma EarlyMarkMarks(c: Clock)
    requires 1 <= c.ttl <= MASTER_MAX_TIME_TO_LIVE && c.timeUs < 0x8000_0000
    requires c.timeUs + NODE_TIMEOUT_US > (c.ttl - 1) * TIME_TO_LIVE_UPDATE_TIME_US
    ensures Sensible(EarlyMark(c)) && !NodeFirst(c, EarlyMark(c))
  {
    hide MasterTick;
    var increments := EarlyMark(c);
    var before := increments[..|increments| - 1];
    if c.ttl > 1 {
      Drain(c, NODE_TIMEOUT_US - 1, c.ttl - 2);
      assert before == [NODE_TIMEOUT_US - 1] + seq(c.ttl - 2, _ => 0);
    } else {
      assert before == [];
    }
    TickNow(MasterAfter(c, before), TIME_TO_LIVE_UPDATE_TIME_US);
    NodeCountsDown(NODE_TIMEOUT_US, before);
  }

  /** Timeout ordering, exactly: when a node starts its timeout while the master's count for
      it stands at ttl and the accumulator at timeUs, the node times out strictly before the
      master can mark it, however time is reported, if and only if the ticks left but one
      cover the node's timeout. */
  lemma NodeTimesOutFirstIff(c: Clock)
    requires 1 <= c.ttl <= MASTER_MAX_TIME_TO_LIVE && c.timeUs < 0x8000_0000
    ensures (forall increments :: Sensible(increments) ==> NodeFirst(c, increments)) <==>
            c.timeUs + NODE_TIMEOUT_US <= (c.ttl - 1) * TIME_TO_LIVE_UPDATE_TIME_US
  {
    if c.timeUs + NODE_TIMEOUT_US <= (c.ttl - 1) * TIME_TO_LIVE_UPDATE_TIME_US {
      forall increments | Sensible(increments) ensures NodeFirst(c, increments) {
        MarkedLate(c, increments);
      }
    } else {
      EarlyMarkMarks(c);
    }
  }

  /** Reported in steps of at most one tick, time never piles up in the accumulator. */
  lemma {:induction false} AccumulatorBounded(c: Clock, increments: seq<uint32>)
    requires c.timeUs < TIME_TO_LIVE_UPDATE_TIME_US
    requires forall i :: 0 <= i < |increments| ==> increments[i] <= TIME_TO_LIVE_UPDATE_TIME_US
    ensures MasterAfter(c, increments).timeUs < TIME_TO_LIVE_UPDATE_TIME_US
  {
    if increments != [] {
      AccumulatorBounded(c, increments[..|increments| - 1]);
    }
  }

  /** One report of at most one tick: time is kept to the microsecond. */
  lemma AccumulateExact(timeUs: uint32, us: uint32)
    requires timeUs < TIME_TO_LIVE_UPDATE_TIME_US && us <= TIME_TO_LIVE_UPDATE_TIME_US
    ensures var (t, tick) := Accumulate(timeUs, us);
      && t == (timeUs + us) % TIME_TO_LIVE_UPDATE_TIME_US
      && (if tick then 1 else 0) == (timeUs + us) / TIME_TO_LIVE_UPDATE_TIME_US
  {
  }

  /** Quotients and remainders of a sum taken one report at a time. */
  lemma DivideStep(total: nat, us: nat)
    ensures var t := TIME_TO_LIVE_UPDATE_TIME_US;
      && (total + us) % t == (total % t + us) % t
      && (total + us) / t == total / t + (total % t + us) / t
  {
  }

  /** Time reported in steps of at most one tick is neither lost nor counted twice: the ticks
      are the whole ticks of all the time there was, and the rest stays in the accumulator. */
  lemma {:induction false} TicksExact(c: Clock, increments: seq<uint32>)
    requires 1 <= c.ttl <= MASTER_MAX_TIME_TO_LIVE && c.timeUs < TIME_TO_LIVE_UPDATE_TIME_US
    requires forall i :: 0 <= i < |increments| ==> increments[i] <= TIME_TO_LIVE_UPDATE_TIME_US
    ensures var z, total := MasterAfter(c, increments), c.timeUs + Sum(increments);
      && z.timeUs == total % TIME_TO_LIVE_UPDATE_TIME_US
      && (if total / TIME_TO_LIVE_UPDATE_TIME_US < c.ttl then z.ttl == c.ttl - total / TIME_TO_LIVE_UPDATE_TIME_US
          else z.ttl == REMOVE_NODE_TTL)
  {
    if increments != [] {
      var n := |increments| - 1;
      var y, total := MasterAfter(c, increments[..n]), c.timeUs + Sum(increments[..n]);
      TicksExact(c, increments[..n]);
      AccumulateExact(y.timeUs, increments[n]);
      DivideStep(total, increments[n]);
      hide Accumulate;
    }
  }

  /** So a silent node is marked exactly when its ticks have gone by. */
  lemma MarkedIff(c: Clock, increments: seq<uint32>)
    requires 1 <= c.ttl <= MASTER_MAX_TIME_TO_LIVE && c.timeUs < TIME_TO_LIVE_UPDATE_TIME_US
    requires forall i :: 0 <= i < |increments| ==> increments[i] <= TIME_TO_LIVE_UPDATE_TIME_US
    ensures MasterAfter(c, increments).ttl == REMOVE_NODE_TTL <==>
            c.timeUs + Sum(increments) >= c.ttl * TIME_TO_LIVE_UPDATE_TIME_US
  {
    TicksExact(c, increments);
  }

  /** A node whose last transmission the master heard, with time reported from power-up in
      steps of at most one tick, always times out first. */
  lemma HeardNodeTimesOutFirst(history: seq<uint32>, ttl: uint8, increments: seq<uint32>)
    requires forall i :: 0 <= i < |history| ==> history[i] <= TIME_TO_LIVE_UPDATE_TIME_US
    requires Sensible(increments)
    ensures NodeFirst(MasterAfter(Clock(0, ttl), history).(ttl := MASTER_MAX_TIME_TO_LIVE), increments)
  {
    AccumulatorBounded(Clock(0, ttl), history);
    MarkedLate(MasterAfter(Clock(0, ttl), history).(ttl := MASTER_MAX_TIME_TO_LIVE), increments);
  }

  /** A node that hears its join response only after seven ticks, and is not heard since,
      can outlive its place in the master's table. */
  lemma LateJoinOutlivesEntry(timeUs: uint32, ttl: uint8)
    requires 1 <= ttl <= MASTER_MAX_TIME_TO_LIVE - 7 && timeUs < 0x8000_0000
    ensures exists increments :: Sensible(increments) && !NodeFirst(Clock(timeUs, ttl), increments)
  {
    EarlyMarkMarks(Clock(timeUs, ttl));
  }
}
