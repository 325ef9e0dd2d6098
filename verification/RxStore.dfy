/** What the receive store keeps: who owns which entry, and the queue seen as a sequence
    of packets. */
module RxStore {
  import opened Microbus
  import opened RxSpec

  // ---------- the queue as a sequence of packets ----------

  lemma {:induction false} WaitingAppend(packets: seq<RxPacket>, line: seq<Option<nat>>, e: nat)
    requires forall k :: 0 <= k < |line| && line[k].Some? ==> line[k].value < |packets|
    requires e < |packets|
    ensures Waiting(packets, line + [Some(e)]) == Waiting(packets, line) + [packets[e]]
  {
    if line == [] {
      assert (line + [Some(e)])[1..] == [];
    } else {
      WaitingAppend(packets, line[1..], e);
      assert (line + [Some(e)])[1..] == line[1..] + [Some(e)];
    }
  }

  /** Only the packets in queued entries matter. */
  lemma {:induction false} WaitingFrame(before: seq<RxPacket>, after: seq<RxPacket>, line: seq<Option<nat>>)
    requires |before| == |after|
    requires forall k :: 0 <= k < |line| && line[k].Some? ==>
      line[k].value < |before| && before[line[k].value] == after[line[k].value]
    ensures Waiting(before, line) == Waiting(after, line)
  {
    if line != [] {
      WaitingFrame(before, after, line[1..]);
    }
  }

  lemma {:induction false} AppendContents(s: Store, e: nat)
    requires s.Shaped() && e < s.Size() && !s.Full()
    ensures Append(s, e).Contents() == s.Contents() + [s.packets[e]]
  {
    AppendLine(s, e);
    WaitingAppend(s.packets, s.Line(), e);
  }

  function Blanks(line: seq<Option<nat>>): (r: nat)
    ensures r <= |line| && forall k :: 0 <= k < r ==> line[k].None?
    ensures r < |line| ==> line[r].Some?
  {
    if line == [] || line[0].Some? then 0 else 1 + Blanks(line[1..])
  }

  lemma {:induction false} WaitingBlanks(packets: seq<RxPacket>, line: seq<Option<nat>>)
    requires forall k :: 0 <= k < |line| && line[k].Some? ==> line[k].value < |packets|
    ensures Waiting(packets, line[Blanks(line)..]) == Waiting(packets, line)
  {
    if line != [] && line[0].None? {
      WaitingBlanks(packets, line[1..]);
      assert line[1..][Blanks(line[1..])..] == line[Blanks(line)..];
    }
  }

  lemma {:induction false} SkipLine(s: Store)
    requires s.Shaped()
    ensures Skip(s).Line() == s.Line()[Blanks(s.Line())..]
    decreases |s.Line()|
  {
    hide Store.Shaped, Store.Line, Store.InRing;
    if s.Line() != [] && s.Line()[0].None? {
      AdvanceLine(s);
      SkipLine(Advance(s));
    }
  }

  lemma BlanksKeepEntries(line: seq<Option<nat>>)
    ensures forall x: nat :: Some(x) in line[Blanks(line)..] <==> Some(x) in line
  {
    var b := Blanks(line);
    forall x: nat | Some(x) in line ensures Some(x) in line[b..] {
      var k :| 0 <= k < |line| && line[k] == Some(x);
      assert line[b..][k - b] == Some(x);
    }
  }

  /** Peeking changes no packet; afterwards the oldest one is at the front. */
  lemma SkipKeepsContents(s: Store)
    requires s.Shaped()
    ensures Skip(s).Contents() == s.Contents()
    ensures Skip(s).Line() == [] <==> s.Contents() == []
  {
    hide Skip, Store.Line, Store.InRing;
    SkipLine(s);
    WaitingBlanks(s.packets, s.Line());
  }

  lemma {:induction false} PopContents(s: Store)
    requires s.Shaped() && s.Line() != [] && s.Line()[0].Some?
    ensures s.Contents() == [s.packets[s.Line()[0].value]] + Pop(s).Contents()
    ensures Pop(s).Line() == s.Line()[1..]
  {
    AdvanceLine(s);
  }

  // ---------- removal ----------

  function Others(ps: seq<RxPacket>, src: uint8): seq<RxPacket> {
    if ps == [] then []
    else (if ps[0].srcNodeId == src then [] else [ps[0]]) + Others(ps[1..], src)
  }

  /** Removal empties slots where they stand: no other slot moves. */
  lemma RemoveAllLine(s: Store, src: uint8)
    requires s.Shaped()
    ensures var t := RemoveAll(s, src);
      && |t.Line()| == |s.Line()|
      && forall k :: 0 <= k < |s.Line()| ==> t.Line()[k] == if From(s, s.Line()[k], src) then None else s.Line()[k]
  {
    var t := RemoveAll(s, src);
    LineSlots(s);
    LineSlots(t);
    hide Store.Line;
    forall k | 0 <= k < |s.Line()| ensures t.Line()[k] == if From(s, s.Line()[k], src) then None else s.Line()[k] {
      var i := IncrAndWrap(s.start, k, s.Size());
      assert t.queue[i] == if s.InRing(i) && From(s, s.queue[i], src) then None else s.queue[i];
    }
  }

  lemma {:induction false} WaitingHoles(s: Store, line: seq<Option<nat>>, holes: seq<Option<nat>>, src: uint8)
    requires s.Shaped() && |line| == |holes|
    requires forall k :: 0 <= k < |line| && line[k].Some? ==> line[k].value < |s.packets|
    requires forall k :: 0 <= k < |holes| && holes[k].Some? ==> holes[k].value < |s.packets|
    requires forall k :: 0 <= k < |line| ==> holes[k] == if From(s, line[k], src) then None else line[k]
    ensures Waiting(s.packets, holes) == Others(Waiting(s.packets, line), src)
  {
    if line != [] {
      var rest := Waiting(s.packets, line[1..]);
      WaitingHoles(s, line[1..], holes[1..], src);
      assert holes[0] == if From(s, line[0], src) then None else line[0];
      if line[0].Some? {
        var p := s.packets[line[0].value];
        assert Waiting(s.packets, line) == [p] + rest && ([p] + rest)[1..] == rest;
        assert Others([p] + rest, src) == (if p.srcNodeId == src then [] else [p]) + Others(rest, src);
      } else {
        assert Waiting(s.packets, line) == rest;
        assert Waiting(s.packets, holes) == Waiting(s.packets, holes[1..]);
      }
    }
  }

  /** The user sees the same sequence without the removed node's packets. */
  lemma {:induction false} RemoveAllFilters(s: Store, src: uint8)
    requires s.Shaped()
    ensures RemoveAll(s, src).Contents() == Others(s.Contents(), src)
  {
    RemoveAllLine(s, src);
    WaitingHoles(s, s.Line(), RemoveAll(s, src).Line(), src);
  }

  /** The index of the removal loop at its k-th test: the wrap comes after the test. */
  function Probe(start: nat, size: nat, k: nat): nat {
    if k == 0 then start
    else
      var i := Probe(start, size, k - 1);
      (if i >= size then 0 else i) + 1
  }

  lemma {:induction false} ProbeClimbs(start: nat, size: nat, from: nat, k: nat)
    requires Probe(start, size, from) + k <= size || (Probe(start, size, from) == size && 1 <= k <= size)
    ensures Probe(start, size, from + k) == if Probe(start, size, from) + k <= size then Probe(start, size, from) + k else k
  {
    if k > 0 {
      ProbeClimbs(start, size, from, k - 1);
      assert from + k - 1 == from + (k - 1);
    }
  }

  lemma {:induction false} ProbePositive(start: nat, size: nat, k: nat)
    requires start > 0
    ensures Probe(start, size, k) > 0
  {
    if k > 0 { ProbePositive(start, size, k - 1); }
  }

  predicate Stops(s: Store) {
    !(s.end == 0 && s.start > 0)
  }

  /** The removal loop reaches its end except when the queue is wrapped right up to the
      end of its buffer. */
  lemma {:induction false} RemovalStopsIff(s: Store)
    requires s.Shaped()
    ensures (exists k :: Probe(s.start, s.Size(), k) == s.end) <==> Stops(s)
  {
    if s.start <= s.end {
      ProbeClimbs(s.start, s.Size(), 0, s.end - s.start);
    } else {
      ProbeClimbs(s.start, s.Size(), 0, s.Size() - s.start);
      if s.end > 0 { ProbeClimbs(s.start, s.Size(), s.Size() - s.start, s.end); }
      forall k ensures Probe(s.start, s.Size(), k) > 0 { ProbePositive(s.start, s.Size(), k); }
    }
  }

  /** The removal after its first n slots. */
  ghost function Removing(s: Store, src: uint8, n: nat): Store
    requires s.Shaped() && n <= |s.Line()|
  {
    s.(inUse := seq(s.Size(), e requires 0 <= e < s.Size() => s.inUse[e] && !(Some(e) in s.Line()[..n] && From(s, Some(e), src))),
       queue := seq(s.Size(), i requires 0 <= i < s.Size() =>
         if s.InRing(i) && DecrAndWrap(i, s.start, s.Size()) < n && From(s, s.queue[i], src) then None else s.queue[i]))
  }

  /** What the removal loop does at one index. */
  ghost function RemoveAt(s: Store, src: uint8, i: nat): Store
    requires s.Shaped() && i < s.Size()
  {
    if From(s, s.queue[i], src) then s.(inUse := s.inUse[s.queue[i].value := false], queue := s.queue[i := None]) else s
  }

  lemma RemovingStarts(s: Store, src: uint8)
    requires s.Shaped()
    ensures Removing(s, src, 0) == s
  {
    hide Store.Line, Store.InRing;
    var t := Removing(s, src, 0);
    assert t.inUse == s.inUse && t.queue == s.queue;
  }

  lemma RemovingEnds(s: Store, src: uint8)
    requires s.Shaped()
    ensures Removing(s, src, |s.Line()|) == RemoveAll(s, src)
  {
    hide Store.Line;
    LineSlots(s);
    assert s.Line()[..|s.Line()|] == s.Line();
    var t, r := Removing(s, src, |s.Line()|), RemoveAll(s, src);
    assert t.inUse == r.inUse && t.queue == r.queue;
  }

  lemma RemovingStep(s: Store, src: uint8, n: nat)
    requires s.Shaped() && n < |s.Line()|
    ensures Removing(s, src, n).Shaped()
    ensures Removing(s, src, n + 1) == RemoveAt(Removing(s, src, n), src, IncrAndWrap(s.start, n, s.Size()))
  {
    hide Store.InRing, From;
    RemovingShaped(s, src, n);
    LineAt(s, n);
    hide Store.Line;
    assert s.Line()[..n + 1] == s.Line()[..n] + [s.queue[IncrAndWrap(s.start, n, s.Size())]];
    RemovingUse(s, src, n);
    RemovingQueue(s, src, n);
  }

  lemma LineAt(s: Store, k: nat)
    requires s.Shaped() && k < |s.Line()|
    ensures 0 <= IncrAndWrap(s.start, k, s.Size()) < s.Size()
    ensures s.Line()[k] == s.queue[IncrAndWrap(s.start, k, s.Size())]
  {
  }

  lemma RemovingShaped(s: Store, src: uint8, n: nat)
    requires s.Shaped() && n <= |s.Line()|
    ensures Removing(s, src, n).Shaped()
  {
    hide Store.Line, Store.InRing, From;
  }

  lemma RemovingUse(s: Store, src: uint8, n: nat)
    requires s.Shaped() && n < |s.Line()| && Removing(s, src, n).Shaped()
    requires s.Line()[..n + 1] == s.Line()[..n] + [s.queue[IncrAndWrap(s.start, n, s.Size())]]
    ensures Removing(s, src, n + 1).inUse == RemoveAt(Removing(s, src, n), src, IncrAndWrap(s.start, n, s.Size())).inUse
  {
    hide Store.Line, Store.InRing;
    var i := IncrAndWrap(s.start, n, s.Size());
    assert Removing(s, src, n).queue[i] == s.queue[i];
  }

  lemma RemovingQueue(s: Store, src: uint8, n: nat)
    requires s.Shaped() && n < |s.Line()| && Removing(s, src, n).Shaped()
    ensures Removing(s, src, n + 1).queue == RemoveAt(Removing(s, src, n), src, IncrAndWrap(s.start, n, s.Size())).queue
  {
    hide Store.Line;
    LineSlots(s);
    var i := IncrAndWrap(s.start, n, s.Size());
    assert Removing(s, src, n).queue[i] == s.queue[i];
  }

  // ---------- ownership ----------

  predicate LineDistinct(line: seq<Option<nat>>) {
    forall i, j :: 0 <= i < j < |line| && line[i].Some? ==> line[i] != line[j]
  }

  /** The entries in use are the queued ones and those held by the receive path, and no
      entry is both, or queued twice. */
  ghost predicate Owned(s: Store, held: set<nat>) {
    && s.Shaped() && LineDistinct(s.Line())
    && (forall e :: 0 <= e < s.Size() ==> (s.inUse[e] <==> Some(e) in s.Line() || e in held))
    && (forall e :: e in held ==> e < s.Size() && Some(e) !in s.Line())
  }

  function Queued(line: seq<Option<nat>>): (r: set<nat>)
    ensures |r| <= |line|
    ensures forall x: nat :: x in r <==> Some(x) in line
  {
    if line == [] then {}
    else
      assert line == [line[0]] + line[1..];
      Queued(line[1..]) + if line[0].Some? then {line[0].value} else {}
  }

  /** While only the next entry is held, the search for a free entry fails exactly when
      the queue is full: holes in the queue never use up the pool. */
  lemma {:induction false} FreeEntryIff(s: Store, next: nat)
    requires Owned(s, {next})
    ensures FindFree(s).0.None? <==> s.Full()
  {
    if !s.Full() && FirstFree(s.inUse) == s.Size() {
      FullIff(s);
      var used := Queued(s.Line()) + {next};
      forall e | e in Below(s.Size()) ensures e in used {
        assert s.inUse[e];
      }
      SubsetCardinality(Below(s.Size()), used);
      assert false;
    }
  }

  lemma FindFreeOwned(s: Store, next: nat)
    requires Owned(s, {next}) && !s.Full()
    ensures var (r, t) := FindFree(s);
      && r.Some? && r.value != next && Some(r.value) !in s.Line() && t.Line() == s.Line()
      && Owned(t, {next, r.value})
  {
    FreeEntryIff(s, next);
  }

  lemma AppendOwned(s: Store, next: nat, prev: nat)
    requires Owned(s, {next, prev}) && next != prev && !s.Full()
    ensures Owned(Append(s, prev), {next})
  {
    hide Store.Line, Store.InRing;
    AppendLine(s, prev);
    var t := Append(s, prev);
    assert forall e: nat :: Some(e) in t.Line() <==> Some(e) in s.Line() || e == prev;
  }

  lemma FreeOwned(s: Store, next: nat, prev: nat)
    requires Owned(s, {next, prev}) && next != prev
    ensures var t := s.(inUse := s.inUse[prev := false]); t.Line() == s.Line() && Owned(t, {next})
  {
  }

  lemma SkipOwned(s: Store, held: set<nat>)
    requires Owned(s, held)
    ensures Owned(Skip(s), held)
  {
    hide Skip, Store.Line, Store.InRing;
    SkipLine(s);
    BlanksKeepEntries(s.Line());
  }

  lemma PopOwned(s: Store, held: set<nat>)
    requires Owned(s, held) && s.Line() != [] && s.Line()[0].Some?
    ensures Owned(Pop(s), held)
  {
    PopContents(s);
    var line := s.Line();
    assert line == [line[0]] + line[1..];
    assert line[0] !in line[1..];
  }

  /** Removal gives back exactly the entries of the removed node's packets. */
  lemma RemoveAllOwned(s: Store, src: uint8, held: set<nat>)
    requires Owned(s, held)
    ensures Owned(RemoveAll(s, src), held)
    ensures forall e :: 0 <= e < s.Size() ==>
      (s.inUse[e] && !RemoveAll(s, src).inUse[e] <==> Some(e) in s.Line() && s.packets[e].srcNodeId == src)
  {
    hide Store.Line, Store.InRing;
    RemoveAllLine(s, src);
    var t := RemoveAll(s, src);
    forall e: nat ensures Some(e) in t.Line() <==> Some(e) in s.Line() && !From(s, Some(e), src) {
      if Some(e) in s.Line() && !From(s, Some(e), src) {
        var k :| 0 <= k < |s.Line()| && s.Line()[k] == Some(e);
        assert t.Line()[k] == Some(e);
      }
    }
  }
}
