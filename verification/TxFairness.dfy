/** Which destination the master serves next. */
module TxFairness {
  import opened Microbus
  import opened TxSpec
  import opened TxInvariant

  /** The order in which the scan after slot i meets slot k: 0 for the first. */
  function Turn(i: nat, k: nat, n: nat): nat
    requires i < n && k < n
  {
    StepsTo(NextIndex(i, n), k, n)
  }

  predicate Sendable(s: TxState, fs: seq<Flow>, k: nat)
    requires s.Shaped() && ActiveInRange(s) && |fs| == |s.start| && k < |s.active.ids|
  {
    CanSend(fs[s.active.ids[k]], s.pause[s.active.ids[k]], s.windowWrap)
  }

  /** The slots from the one after i up to `last`. */
  predicate OnPath(i: nat, k: nat, last: nat, n: nat)
    requires i < n && last < n
  {
    k < n && Turn(i, k, n) <= Turn(i, last, n)
  }

  /** A poll that sends nothing at most starts that destination's pause. */
  lemma FutilePoll(s: TxState, fs: seq<Flow>, d: uint8)
    requires Inv(s, fs) && d as int < |fs| && !CanSend(fs[d], s.pause[d], s.windowWrap)
    ensures var t := Poll(s, d).0;
      && Inv(t, fs) && Poll(s, d).1.None?
      && t == s.(pause := t.pause) && t.pause[d] >= s.pause[d]
      && forall e :: 0 <= e < |fs| && e != d as int ==> t.pause[e] == s.pause[e]
  {
    PollBranches(s, fs, d);
    PollKeepsInv(s, fs, d);
    assert fs[d := fs[d]] == fs;
  }

  /** The scan serves the first sendable destination it meets, and sends nothing only when
      it met none. */
  lemma {:induction false} ScanServesFirst(s: TxState, fs: seq<Flow>, i: nat, last: nat)
    requires Inv(s, fs) && s.isMaster && ActiveInRange(s)
    requires i < |s.active.ids| && last < |s.active.ids|
    ensures var n := |s.active.ids|;
      var (t, p, j) := Scan(s, i, last);
      && OnPath(i, j, last, n)
      && (forall k :: OnPath(i, k, last, n) && Turn(i, k, n) < Turn(i, j, n) ==> !Sendable(s, fs, k))
      && (p.Some? <==> Sendable(s, fs, j))
      && (p.Some? ==> s.DstOf(p.value) == s.active.ids[j])
      && (p.None? ==> j == last)
    decreases StepsTo(NextIndex(i, |s.active.ids|), last, |s.active.ids|)
  {
    hide Inv, Poll, Scan;
    var n := |s.active.ids|;
    var j := NextIndex(i, n);
    var d := s.active.ids[j];
    DestinationInRange(s, fs, d);
    PollRefines(s, fs, d);
    var (s1, p) := Poll(s, d);
    ScanStep(s, i, last, s1, p);
    if j != last && p.None? {
      FutilePoll(s, fs, d);
      DistinctActive(s, fs);
      ScanServesFirst(s1, fs, j, last);
      forall k: nat | OnPath(i, k, last, n) && k != j
        ensures OnPath(j, k, last, n) && Turn(i, k, n) == Turn(j, k, n) + 1
        ensures Sendable(s, fs, k) == Sendable(s1, fs, k)
      {
        assert s.active.ids[k] != d;
      }
    }
  }

  lemma DestinationInRange(s: TxState, fs: seq<Flow>, d: uint8)
    requires Inv(s, fs) && s.isMaster && d in s.active.ids
    ensures s.Shaped() && d as int < |fs| == |s.start|
  {
  }

  lemma DistinctActive(s: TxState, fs: seq<Flow>)
    requires Inv(s, fs) && s.isMaster
    ensures Distinct(s.active.ids)
  {
  }

  function StartSlot(s: TxState): nat
    requires s.active.ids != []
  {
    if s.lastTxQueueIndex >= |s.active.ids| then |s.active.ids| - 1 else s.lastTxQueueIndex
  }

  lemma ShapeOf(s: TxState, fs: seq<Flow>)
    requires Inv(s, fs)
    ensures s.Shaped() && |fs| == |s.start|
  {
  }

  /** The master sends nothing exactly when no active destination is sendable: each is
      paused, at the end of its window, or at the end of its buffer. Otherwise the
      destination served is the first sendable one after the slot served before. */
  lemma MasterServesNextSendable(s: TxState, fs: seq<Flow>)
    requires Inv(s, fs) && s.isMaster
    ensures s.Shaped() && ActiveInRange(s) && |fs| == |s.start|
    ensures MasterGetNext(s).1.None? <==> forall k :: 0 <= k < |s.active.ids| ==> !Sendable(s, fs, k)
    ensures MasterGetNext(s).1.Some? ==>
      var (t, p) := MasterGetNext(s);
      var j := t.lastTxQueueIndex;
      && j < |s.active.ids| && Sendable(s, fs, j) && s.DstOf(p.value) == s.active.ids[j]
      && forall k :: 0 <= k < |s.active.ids| && Sendable(s, fs, k) ==>
           Turn(StartSlot(s), j, |s.active.ids|) <= Turn(StartSlot(s), k, |s.active.ids|)
  {
    ActiveHasWindows(s, fs);
    ShapeOf(s, fs);
    hide Inv, Scan, ActiveInRange, CanSend;
    if s.active.ids != [] {
      var n := |s.active.ids|;
      var last := StartSlot(s);
      ScanServesFirst(s, fs, last, last);
      forall k | 0 <= k < n ensures OnPath(last, k, last, n) {
      }
    }
  }

  /** Serving another destination brings slot k's turn nearer. */
  lemma TurnApproaches(i: nat, j: nat, k: nat, n: nat)
    requires i < n && j < n && k < n && j != k && Turn(i, j, n) <= Turn(i, k, n)
    ensures Turn(j, k, n) < Turn(i, k, n)
  {
  }

  /** The states before successive calls of the master's choice, with anything in between
      that leaves the queue of destinations and its cursor alone. */
  ghost predicate Calls(ss: seq<TxState>, fss: seq<seq<Flow>>) {
    && |fss| == |ss| > 0
    && (forall c :: 0 <= c < |ss| ==> Inv(ss[c], fss[c]) && ss[c].isMaster && ActiveInRange(ss[c]))
    && (forall c :: 0 <= c < |ss| ==> ss[c].active.ids == ss[0].active.ids)
    && (forall c :: 0 < c < |ss| ==> ss[c].lastTxQueueIndex == MasterGetNext(ss[c - 1]).0.lastTxQueueIndex)
  }

  predicate Serves(s: TxState, d: uint8)
    requires s.Shaped() && ActiveInRange(s)
  {
    var p := MasterGetNext(s).1;
    p.Some? && s.DstOf(p.value) == d
  }

  lemma {:induction false} ServedWithinTurn(ss: seq<TxState>, fss: seq<seq<Flow>>, k: nat) returns (c: nat)
    requires Calls(ss, fss) && k < |ss[0].active.ids|
    requires |ss| > Turn(StartSlot(ss[0]), k, |ss[0].active.ids|)
    requires forall c :: 0 <= c < |ss| ==> Sendable(ss[c], fss[c], k)
    ensures c <= Turn(StartSlot(ss[0]), k, |ss[0].active.ids|) && Serves(ss[c], ss[0].active.ids[k])
    decreases |ss|
  {
    hide Inv, MasterGetNext;
    var n := |ss[0].active.ids|;
    MasterServesNextSendable(ss[0], fss[0]);
    assert Sendable(ss[0], fss[0], k);
    var j := MasterGetNext(ss[0]).0.lastTxQueueIndex;
    if j == k {
      c := 0;
    } else {
      TurnApproaches(StartSlot(ss[0]), j, k, n);
      assert ss[1].lastTxQueueIndex == j && StartSlot(ss[1]) == j;
      assert Calls(ss[1..], fss[1..]);
      c := ServedWithinTurn(ss[1..], fss[1..], k);
      c := c + 1;
    }
  }

  /** Fair selection: with a fixed queue of n destinations, one that stays sendable is
      served at least once in any n successive calls. */
  lemma FairSelection(ss: seq<TxState>, fss: seq<seq<Flow>>, k: nat)
    requires Calls(ss, fss) && k < |ss[0].active.ids| == |ss|
    requires forall c :: 0 <= c < |ss| ==> Sendable(ss[c], fss[c], k)
    ensures exists c :: 0 <= c < |ss| && Serves(ss[c], ss[0].active.ids[k])
  {
    var c := ServedWithinTurn(ss, fss, k);
  }
}
