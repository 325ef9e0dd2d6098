/** Shared definitions of the bus: integer widths, identifiers, sequence numbers
    and the wrap macros (src/microbus.h). */
module Microbus {

  type uint8 = x: int | 0 <= x < 256
  type uint32 = x: int | 0 <= x < 0x1_0000_0000
  type uint64 = x: int | 0 <= x < 0x1_0000_0000_0000_0000

  const MAX_NODES := 64
  const MASTER_NODE_ID: uint8 := 0
  const FIRST_NODE_ID: uint8 := 1
  const UNALLOCATED_NODE_ID: uint8 := 0xFE
  const INVALID_NODE_ID: uint8 := 0xFF
  const MAX_TX_NODES_SCHEDULED := 4
  const SLIDING_WINDOW_SIZE := 4
  const MAX_PACKET_DATA_SIZE := 178

  /** Sequence numbers run from 0 to 254; 255 says that nothing was sent or accepted yet. */
  const NULL_SEQUENCE_NUM: uint8 := 255
  const MAX_SEQUENCE_NUM := 255

  datatype Option<+T> = None | Some(value: T)

  /** The 8-bit increment of INCR_SEQUENCE_NUM. */
  function IncrSeq(s: uint8): (r: uint8)
    ensures r < MAX_SEQUENCE_NUM
    ensures s < MAX_SEQUENCE_NUM ==> forall c: nat | c % MAX_SEQUENCE_NUM == s :: r == (c + 1) % MAX_SEQUENCE_NUM
  {
    var t := (s + 1) % 256;
    if t >= MAX_SEQUENCE_NUM then 0 else t
  }

  function IncrAndWrap(val: int, incr: int, max: int): int {
    if val >= max - incr then incr - (max - val) else val + incr
  }

  function DecrAndWrap(val: int, decr: int, max: int): int {
    if val < decr then max - decr + val else val - decr
  }

  /** How many increments lead from one sequence number to another. */
  function SeqDistance(from: uint8, to: uint8): (n: nat)
    requires from < MAX_SEQUENCE_NUM && to < MAX_SEQUENCE_NUM
    ensures n < MAX_SEQUENCE_NUM
    ensures n == 0 <==> from == to
  {
    if from <= to then to - from else MAX_SEQUENCE_NUM - from + to
  }

  lemma SeqDistanceStep(from: uint8, to: uint8)
    requires from < MAX_SEQUENCE_NUM && to < MAX_SEQUENCE_NUM && from != to
    ensures SeqDistance(IncrSeq(from), to) == SeqDistance(from, to) - 1
  {
  }

  /** Counting less than a lap on from a counter wraps at most once. */
  lemma ResidueAfter(c: nat, k: nat)
    requires k < MAX_SEQUENCE_NUM
    ensures (c + k) % MAX_SEQUENCE_NUM ==
      c % MAX_SEQUENCE_NUM + k - if c % MAX_SEQUENCE_NUM + k < MAX_SEQUENCE_NUM then 0 else MAX_SEQUENCE_NUM
  {
  }

  /** Two counters less than one lap apart that share a residue are equal. */
  lemma SameResidue(a: int, b: int)
    requires a % MAX_SEQUENCE_NUM == b % MAX_SEQUENCE_NUM
    requires -MAX_SEQUENCE_NUM < a - b < MAX_SEQUENCE_NUM
    ensures a == b
  {
  }

  ghost predicate Distinct<T>(s: seq<T>) {
    forall i, j :: 0 <= i < j < |s| ==> s[i] != s[j]
  }

  /** The sequence without one position. */
  function Drop<T>(s: seq<T>, i: nat): (r: seq<T>)
    requires i < |s|
    ensures |r| == |s| - 1
  {
    s[..i] + s[i + 1..]
  }

  lemma DropAt<T>(s: seq<T>, i: nat, k: nat)
    requires i < |s| && k < |s| - 1
    ensures Drop(s, i)[k] == s[if k < i then k else k + 1]
  {
  }

  lemma DropHas<T>(s: seq<T>, i: nat, x: T)
    requires i < |s|
    ensures x in s <==> x in Drop(s, i) || x == s[i]
  {
    if x in s && x != s[i] {
      var k :| 0 <= k < |s| && s[k] == x;
      DropAt(s, i, if k < i then k else k - 1);
    }
  }

  lemma DropDistinct<T>(s: seq<T>, i: nat)
    requires i < |s| && Distinct(s)
    ensures Distinct(Drop(s, i)) && s[i] !in Drop(s, i)
  {
    hide Drop;
    forall k: nat | k < |s| - 1 ensures Drop(s, i)[k] == s[if k < i then k else k + 1] {
      DropAt(s, i, k);
    }
  }

  function Elements<T>(s: seq<T>): set<T> {
    set x | x in s
  }

  /** A sequence without repetitions has as many elements as the set of its elements. */
  lemma {:induction false} DistinctCardinality<T>(s: seq<T>)
    requires Distinct(s)
    ensures |Elements(s)| == |s|
  {
    if s != [] {
      var rest := s[1..];
      DistinctCardinality(rest);
      assert Elements(s) == {s[0]} + Elements(rest);
    }
  }

  /** The set {0, ..., n - 1}. */
  function Below(n: nat): (r: set<nat>)
    ensures |r| == n
    ensures forall x: nat :: x in r <==> x < n
  {
    if n == 0 then {} else Below(n - 1) + {n - 1}
  }

  /** Pigeonhole: distinct indices below n are at most n. */
  lemma {:induction false} DistinctBelow(s: seq<nat>, n: nat)
    requires Distinct(s)
    requires forall i :: 0 <= i < |s| ==> s[i] < n
    ensures |s| <= n
  {
    DistinctCardinality(s);
    SubsetCardinality(Elements(s), Below(n));
  }

  lemma {:induction false} SubsetCardinality<T>(a: set<T>, b: set<T>)
    requires a <= b
    ensures |a| <= |b|
  {
    assert |b| == |b - a| + |a| by {
      assert b == (b - a) + a;
    }
  }
}
