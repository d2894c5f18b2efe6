/**
  What br_ran's `retransmitted` is worth: the tracker of BrRan against the bytes of a flow that were
  actually seen on br-ran.
  */
module Retransmissions {
  import opened Bytes
  import opened Capture
  import opened BrRan

  ghost predicate DataOn(runs: seq<Run>, target: string, p: Packet, flow: Flow) {
    Data(runs, target, p) && FlowOf(p) == flow
  }

  ghost function BytesOf(p: Packet, at: int): set<int> {
    Interval(at, at + p.payload)
  }

  /** The bytes of a flow seen in the first n packets. */
  ghost function Seen(runs: seq<Run>, target: string, pkts: seq<Packet>, pos: seq<int>, flow: Flow, n: nat): set<int>
    requires n <= |pkts| == |pos|
  {
    if n == 0 then {} else
    var before := Seen(runs, target, pkts, pos, flow, n - 1);
    if DataOn(runs, target, pkts[n - 1], flow) then before + BytesOf(pkts[n - 1], pos[n - 1]) else before
  }

  /** Every byte of segment i was seen before. */
  ghost predicate AllSeen(runs: seq<Run>, target: string, pkts: seq<Packet>, pos: seq<int>, i: nat)
    requires i < |pkts| == |pos|
  {
    BytesOf(pkts[i], pos[i]) <= Seen(runs, target, pkts, pos, FlowOf(pkts[i]), i)
  }

  /** Segment i carries a byte not seen, although an earlier segment of its flow reached as far as its end. */
  ghost predicate FillsHole(runs: seq<Run>, target: string, pkts: seq<Packet>, pos: seq<int>, i: nat)
    requires i < |pkts| == |pos|
  {
    !AllSeen(runs, target, pkts, pos, i)
    && exists j :: 0 <= j < i && ReachesAsFar(runs, target, pkts, pos, i, j)
  }

  ghost predicate ReachesAsFar(runs: seq<Run>, target: string, pkts: seq<Packet>, pos: seq<int>, i: nat, j: nat)
    requires i < |pkts| == |pos| && j < |pkts|
  {
    DataOn(runs, target, pkts[j], FlowOf(pkts[i])) && pos[i] + pkts[i].payload <= pos[j] + pkts[j].payload
  }

  /** The tracker counts segment i as retransmitted. */
  ghost predicate Flagged(runs: seq<Run>, target: string, pkts: seq<Packet>, i: nat)
    requires i < |pkts|
  {
    TakenForOld(TrackerAfter(runs, target, pkts[..i]).top, pkts[i])
  }

  lemma {:induction false} SeenIff(runs: seq<Run>, target: string, pkts: seq<Packet>, pos: seq<int>, flow: Flow,
                                   n: nat, x: int)
    requires n <= |pkts| == |pos|
    ensures x in Seen(runs, target, pkts, pos, flow, n)
            <==> exists j | 0 <= j < n :: DataOn(runs, target, pkts[j], flow) && pos[j] <= x < pos[j] + pkts[j].payload
  {
    if n > 0 {
      SeenIff(runs, target, pkts, pos, flow, n - 1, x);
    }
  }

  /** A segment is counted exactly when all of it was seen, or when it fills a hole below its flow's highest end. */
  lemma {:induction false} FlaggedIff(runs: seq<Run>, target: string, pkts: seq<Packet>, pos: seq<int>, i: nat)
    requires Positions(pkts, pos) && NearTop(runs, target, pkts, pos) && i < |pkts| && Data(runs, target, pkts[i])
    ensures Flagged(runs, target, pkts, i)
            <==> AllSeen(runs, target, pkts, pos, i) || FillsHole(runs, target, pkts, pos, i)
  {
    OldIffReached(runs, target, pkts, pos, i);
    if AllSeen(runs, target, pkts, pos, i) {
      var x := pos[i] + pkts[i].payload - 1;
      assert x in BytesOf(pkts[i], pos[i]);
      SeenIff(runs, target, pkts, pos, FlowOf(pkts[i]), i, x);
      var j :| 0 <= j < i && DataOn(runs, target, pkts[j], FlowOf(pkts[i])) && pos[j] <= x < pos[j] + pkts[j].payload;
      assert ReachesAsFar(runs, target, pkts, pos, i, j);
    }
    if Reached(runs, target, pkts, pos, i) {
      var j :| 0 <= j < i && Data(runs, target, pkts[j]) && FlowOf(pkts[j]) == FlowOf(pkts[i])
               && pos[i] + pkts[i].payload <= pos[j] + pkts[j].payload;
      assert ReachesAsFar(runs, target, pkts, pos, i, j);
    }
  }

  // ---------------------------------------------------------------- captures without holes

  /** Where a flow's first segment starts. */
  ghost function First(runs: seq<Run>, target: string, pkts: seq<Packet>, pos: seq<int>, flow: Flow,
                       n: nat): Option<int>
    requires n <= |pkts| == |pos|
  {
    if n == 0 then None else
    var before := First(runs, target, pkts, pos, flow, n - 1);
    if before.None? && DataOn(runs, target, pkts[n - 1], flow) then Some(pos[n - 1]) else before
  }

  /** Segment j leaves no gap: it starts neither beyond its flow's highest end nor before its flow's first segment. */
  ghost predicate LeavesNoGap(runs: seq<Run>, target: string, pkts: seq<Packet>, pos: seq<int>, flow: Flow, j: nat)
    requires j < |pkts| == |pos|
  {
    var first, high := First(runs, target, pkts, pos, flow, j), HighestEnd(runs, target, pkts, pos, flow, j);
    DataOn(runs, target, pkts[j], flow) && first.Some? && high.Some? ==> first.value <= pos[j] <= high.value
  }

  ghost predicate NoGaps(runs: seq<Run>, target: string, pkts: seq<Packet>, pos: seq<int>, flow: Flow, n: nat)
    requires n <= |pkts| == |pos|
  {
    forall j | 0 <= j < n :: LeavesNoGap(runs, target, pkts, pos, flow, j)
  }

  /** Without gaps, what was seen of a flow is one stretch, from its first segment to its highest end. */
  lemma {:induction false} SeenIsStretch(runs: seq<Run>, target: string, pkts: seq<Packet>, pos: seq<int>,
                                         flow: Flow, n: nat)
    requires n <= |pkts| == |pos| && NoGaps(runs, target, pkts, pos, flow, n)
    ensures var first, high := First(runs, target, pkts, pos, flow, n), HighestEnd(runs, target, pkts, pos, flow, n);
            && (first.Some? <==> high.Some?)
            && (first.Some? ==> first.value <= high.value
                                && Seen(runs, target, pkts, pos, flow, n) == Interval(first.value, high.value))
            && (first.None? ==> Seen(runs, target, pkts, pos, flow, n) == {})
  {
    if n > 0 {
      SeenIsStretch(runs, target, pkts, pos, flow, n - 1);
      assert LeavesNoGap(runs, target, pkts, pos, flow, n - 1);
    }
  }

  /** In a flow without gaps up to segment i, it is counted exactly when every byte of it was seen. */
  lemma {:induction false} FlaggedIffSeen(runs: seq<Run>, target: string, pkts: seq<Packet>, pos: seq<int>, i: nat)
    requires Positions(pkts, pos) && NearTop(runs, target, pkts, pos) && i < |pkts| && Data(runs, target, pkts[i])
    requires NoGaps(runs, target, pkts, pos, FlowOf(pkts[i]), i + 1)
    ensures Flagged(runs, target, pkts, i) <==> AllSeen(runs, target, pkts, pos, i)
  {
    var flow := FlowOf(pkts[i]);
    FlaggedIff(runs, target, pkts, pos, i);
    assert forall j | 0 <= j < i :: LeavesNoGap(runs, target, pkts, pos, flow, j);
    SeenIsStretch(runs, target, pkts, pos, flow, i);
    assert LeavesNoGap(runs, target, pkts, pos, flow, i);
    HighestEndIsMax(runs, target, pkts, pos, flow, i, pos[i] + pkts[i].payload);
    OldIffReached(runs, target, pkts, pos, i);
  }

  lemma {:induction false} SeenOfTwo(runs: seq<Run>, target: string, pkts: seq<Packet>, pos: seq<int>, flow: Flow)
    requires |pkts| == |pos| >= 2 && DataOn(runs, target, pkts[0], flow) && DataOn(runs, target, pkts[1], flow)
    ensures Seen(runs, target, pkts, pos, flow, 2) == BytesOf(pkts[0], pos[0]) + BytesOf(pkts[1], pos[1])
  {
    assert Seen(runs, target, pkts, pos, flow, 1) == BytesOf(pkts[0], pos[0]);
  }

  lemma {:induction false} BetweenTwo(a: Packet, b: Packet, c: Packet)
    requires a.payload == b.payload == c.payload == 100
    ensures BytesOf(c, 100) !! BytesOf(a, 0) + BytesOf(b, 200) && 100 in BytesOf(c, 100)
  {
  }

  /** Three segments of 100 bytes, the second of them sent last: it is counted, and none of its bytes was seen. */
  lemma {:induction false} HoleFillerIsFlagged(runs: seq<Run>, target: string, pkts: seq<Packet>, pos: seq<int>,
                                               flow: Flow)
    requires Positions(pkts, pos) && pos == [0, 200, 100]
    requires forall i | 0 <= i < 3 :: DataOn(runs, target, pkts[i], flow) && pkts[i].payload == 100
    ensures Flagged(runs, target, pkts, 2) && BytesOf(pkts[2], 100) !! Seen(runs, target, pkts, pos, flow, 2)
  {
    assert HighestEnd(runs, target, pkts, pos, flow, 1) == Some(100);
    assert HighestEnd(runs, target, pkts, pos, flow, 2) == Some(300);
    assert forall i | 0 <= i < 3 :: NearTopAt(runs, target, pkts, pos, i);
    SeenOfTwo(runs, target, pkts, pos, flow);
    BetweenTwo(pkts[0], pkts[1], pkts[2]);
    assert ReachesAsFar(runs, target, pkts, pos, 2, 1);
    assert Reached(runs, target, pkts, pos, 2);
    OldIffReached(runs, target, pkts, pos, 2);
  }

  // ---------------------------------------------------------------- the counter

  ghost predicate DataUnder(runs: seq<Run>, target: string, p: Packet, key: Key) {
    Booked(runs, target, p) == Some(key) && p.payload > 0
  }

  /** The segments booked under `key` among the first n that carry nothing new. */
  ghost function Repeats(runs: seq<Run>, target: string, pkts: seq<Packet>, pos: seq<int>, key: Key, n: nat): nat
    requires n <= |pkts| == |pos|
  {
    if n == 0 then 0 else
    var before := Repeats(runs, target, pkts, pos, key, n - 1);
    if DataUnder(runs, target, pkts[n - 1], key) && AllSeen(runs, target, pkts, pos, n - 1) then before + 1 else before
  }

  /** Those that fill a hole. */
  ghost function HoleFillers(runs: seq<Run>, target: string, pkts: seq<Packet>, pos: seq<int>, key: Key, n: nat): nat
    requires n <= |pkts| == |pos|
  {
    if n == 0 then 0 else
    var before := HoleFillers(runs, target, pkts, pos, key, n - 1);
    if DataUnder(runs, target, pkts[n - 1], key) && FillsHole(runs, target, pkts, pos, n - 1) then
      before + 1
    else
      before
  }

  lemma {:induction false} CountStep(s: Tracker, runs: seq<Run>, target: string, p: Packet, key: Key)
    requires s.out.Keys == Keys(runs) && key in Keys(runs)
    ensures Observe(s, runs, target, p).out[key].retransmitted
         == s.out[key].retransmitted + if DataUnder(runs, target, p, key) && TakenForOld(s.top, p) then 1 else 0
  {
  }

  lemma {:induction false} CountedOnce(runs: seq<Run>, target: string, pkts: seq<Packet>, pos: seq<int>, i: nat)
    requires Positions(pkts, pos) && NearTop(runs, target, pkts, pos) && i < |pkts| && Data(runs, target, pkts[i])
    ensures var nothingNew, fills := AllSeen(runs, target, pkts, pos, i), FillsHole(runs, target, pkts, pos, i);
            (if TakenForOld(TrackerAfter(runs, target, pkts[..i]).top, pkts[i]) then 1 else 0)
            == (if nothingNew then 1 else 0) + if fills then 1 else 0
  {
    FlaggedIff(runs, target, pkts, pos, i);
  }

  /** The retransmissions reported of a run and direction: segments with nothing new, and those that fill a hole. */
  lemma {:induction false} RetransmittedIs(runs: seq<Run>, target: string, pkts: seq<Packet>, pos: seq<int>,
                                           key: Key, n: nat)
    requires Positions(pkts, pos) && NearTop(runs, target, pkts, pos) && n <= |pkts| && key in Keys(runs)
    ensures TrackerAfter(runs, target, pkts[..n]).out[key].retransmitted
         == Repeats(runs, target, pkts, pos, key, n) + HoleFillers(runs, target, pkts, pos, key, n)
  {
    if n > 0 {
      RetransmittedIs(runs, target, pkts, pos, key, n - 1);
      TrackerStep(runs, target, pkts, n);
      CountStep(TrackerAfter(runs, target, pkts[..n - 1]), runs, target, pkts[n - 1], key);
      if DataUnder(runs, target, pkts[n - 1], key) {
        CountedOnce(runs, target, pkts, pos, n - 1);
      }
    }
  }

  /** No segment leaves a gap in its own flow. */
  ghost predicate NoGapsAnywhere(runs: seq<Run>, target: string, pkts: seq<Packet>, pos: seq<int>, n: nat)
    requires n <= |pkts| == |pos|
  {
    forall j | 0 <= j < n :: LeavesNoGap(runs, target, pkts, pos, FlowOf(pkts[j]), j)
  }

  lemma {:induction false} NoGapsOfFlow(runs: seq<Run>, target: string, pkts: seq<Packet>, pos: seq<int>, flow: Flow,
                                        n: nat)
    requires n <= |pkts| == |pos| && NoGapsAnywhere(runs, target, pkts, pos, n)
    ensures NoGaps(runs, target, pkts, pos, flow, n)
  {
    forall j | 0 <= j < n ensures LeavesNoGap(runs, target, pkts, pos, flow, j) {
      assert LeavesNoGap(runs, target, pkts, pos, FlowOf(pkts[j]), j);
    }
  }

  lemma {:induction false} NothingToFill(runs: seq<Run>, target: string, pkts: seq<Packet>, pos: seq<int>, i: nat)
    requires Positions(pkts, pos) && NearTop(runs, target, pkts, pos) && i < |pkts| && Data(runs, target, pkts[i])
    requires NoGapsAnywhere(runs, target, pkts, pos, i + 1)
    ensures !FillsHole(runs, target, pkts, pos, i)
  {
    NoGapsOfFlow(runs, target, pkts, pos, FlowOf(pkts[i]), i + 1);
    FlaggedIffSeen(runs, target, pkts, pos, i);
    FlaggedIff(runs, target, pkts, pos, i);
  }

  /** Without gaps in the flows no segment fills a hole: what is reported is exactly what carries nothing new. */
  lemma {:induction false} NoGapsNoHoles(runs: seq<Run>, target: string, pkts: seq<Packet>, pos: seq<int>, key: Key,
                                         n: nat)
    requires Positions(pkts, pos) && NearTop(runs, target, pkts, pos) && n <= |pkts|
    requires NoGapsAnywhere(runs, target, pkts, pos, n)
    ensures HoleFillers(runs, target, pkts, pos, key, n) == 0
  {
    if n > 0 {
      NoGapsNoHoles(runs, target, pkts, pos, key, n - 1);
      if Data(runs, target, pkts[n - 1]) {
        NothingToFill(runs, target, pkts, pos, n - 1);
      }
    }
  }
}
