/**
  The tracker of experiments/network/throughput.py: per run and direction, the TCP segments
  on br-ran, their payload, and those that reach no further than their flow did before. It keeps one
  32-bit value per flow and compares as RFC 1982 does; it is proved here against the flow's
  unbounded byte stream.
  */
module BrRan {
  import opened Bytes
  import opened Capture

  datatype Flow = Flow(src: string, sport: nat, dst: string, dport: nat)
  datatype Counts = Counts(segments: nat, payloadBytes: nat, retransmitted: nat)
  datatype Key = Key(idx: int, dir: Direction)

  /** What the loop over the packets updates: the counters and the top of every flow. */
  datatype Tracker = Tracker(out: map<Key, Counts>, top: map<Flow, Seq32>)

  function FlowOf(p: Packet): Flow {
    Flow(p.src, p.sport, p.dst, p.dport)
  }

  /** The counters a packet belongs to, or None when the loop passes over it. */
  function Booked(runs: seq<Run>, target: string, p: Packet): Option<Key> {
    match LookupByBisect(runs, p.t)
    case None => None
    case Some(run) =>
      if !p.tcp || (target != p.src && target != p.dst) || !p.whole then None
      else Some(Key(run.idx, DirectionOf(p, target)))
  }

  /** The end of a segment in the 32-bit sequence space. */
  function EndOf(p: Packet): Seq32 {
    (p.seqno + p.payload) % 0x1_0000_0000
  }

  /** Serial-number distance from the flow's top to the end of a segment, section 3.2 of RFC 1982. */
  function Ahead(end: Seq32, top: Seq32): Seq32 {
    (end - top) % 0x1_0000_0000
  }

  predicate IsOld(end: Seq32, top: Seq32) {
    Ahead(end, top) == 0 || Ahead(end, top) >= 0x8000_0000
  }

  function Keys(runs: seq<Run>): (keys: set<Key>)
    ensures forall r <- runs :: Key(r.idx, Dl) in keys && Key(r.idx, Ul) in keys
  {
    (set r <- runs :: Key(r.idx, Dl)) + (set r <- runs :: Key(r.idx, Ul))
  }

  function Zeroes(runs: seq<Run>): map<Key, Counts> {
    map key <- Keys(runs) :: Counts(0, 0, 0)
  }

  lemma {:induction false} BookedUnderARun(runs: seq<Run>, target: string, p: Packet)
    requires Booked(runs, target, p).Some?
    ensures Booked(runs, target, p).value in Keys(runs)
  {
    assert LookupByBisect(runs, p.t).value in runs;
  }

  /** A packet added to its counters. */
  function Tally(c: Counts, payload: int, resent: bool): Counts {
    Counts(c.segments + 1, c.payloadBytes + (if payload > 0 then payload else 0),
            c.retransmitted + (if resent then 1 else 0))
  }

  /** Whether the tracker takes a segment for old: its flow has a top, and the end is not ahead of it. */
  predicate TakenForOld(top: map<Flow, Seq32>, p: Packet) {
    FlowOf(p) in top && IsOld(EndOf(p), top[FlowOf(p)])
  }

  /** What one packet does to the tracker. */
  function Observe(s: Tracker, runs: seq<Run>, target: string, p: Packet): (s': Tracker)
    requires s.out.Keys == Keys(runs)
    ensures s'.out.Keys == Keys(runs)
  {
    match Booked(runs, target, p)
    case None => s
    case Some(key) =>
      BookedUnderARun(runs, target, p);
      var seen := p.payload > 0 && TakenForOld(s.top, p);
      Tracker(s.out[key := Tally(s.out[key], p.payload, seen)],
              if p.payload <= 0 || seen then s.top else s.top[FlowOf(p) := EndOf(p)])
  }

  /** The loop, as a function of the packets read so far. */
  function TrackerAfter(runs: seq<Run>, target: string, pkts: seq<Packet>): (s: Tracker)
    ensures s.out.Keys == Keys(runs)
  {
    if pkts == [] then Tracker(Zeroes(runs), map[])
    else Observe(TrackerAfter(runs, target, pkts[..|pkts| - 1]), runs, target, pkts[|pkts| - 1])
  }

  // ---------------------------------------------------------------- the code

  method Track(windows: seq<Run>, target: string, pkts: seq<Packet>)
    returns (out: map<Key, Counts>, top: map<Flow, Seq32>)
    ensures Tracker(out, top) == TrackerAfter(SortRuns(windows), target, pkts)
  {
    var runs := SortRuns(windows);
    out, top := Zeroes(runs), map[];
    for i := 0 to |pkts|
      invariant Tracker(out, top) == TrackerAfter(runs, target, pkts[..i])
      invariant out.Keys == Keys(runs)
    {
      var p := pkts[i];
      assert pkts[..i + 1][..i] == pkts[..i] && pkts[..i + 1][i] == p;
      ghost var before := Tracker(out, top);
      var booked := Booked(runs, target, p);
      if booked == None {
        continue;
      }
      BookedUnderARun(runs, target, p);
      var seen := false;
      if p.payload > 0 {
        var flow := FlowOf(p);
        var end := EndOf(p);
        var ahead := if flow in top then Ahead(end, top[flow]) else 1;
        if ahead == 0 || ahead >= 0x8000_0000 {
          seen := true;
        } else {
          top := top[flow := end];
        }
      }
      assert seen == (p.payload > 0 && TakenForOld(before.top, p));
      out := out[booked.value := Tally(out[booked.value], p.payload, seen)];
      assert Tracker(out, top) == Observe(before, runs, target, p);
    }
    assert pkts[..|pkts|] == pkts;
  }

  // ---------------------------------------------------------------- the unbounded stream

  /** Packet i is a booked segment with data. */
  predicate Data(runs: seq<Run>, target: string, p: Packet) {
    Booked(runs, target, p).Some? && p.payload > 0
  }

  /** The highest true end on `flow` after one more packet, at `at` in its flow. */
  function HighestNext(high: Option<int>, runs: seq<Run>, target: string, p: Packet, at: int, flow: Flow): Option<int> {
    if !Data(runs, target, p) || FlowOf(p) != flow then high else Higher(high, at + p.payload)
  }

  function Higher(high: Option<int>, end: int): Option<int> {
    if high == None || high.value < end then Some(end) else high
  }

  /** The largest true end seen on `flow` in the first n packets. */
  ghost function HighestEnd(runs: seq<Run>, target: string, pkts: seq<Packet>, pos: seq<int>, flow: Flow,
                            n: nat): Option<int>
    requires n <= |pkts| == |pos|
  {
    if n == 0 then None else
    HighestNext(HighestEnd(runs, target, pkts, pos, flow, n - 1), runs, target, pkts[n - 1], pos[n - 1], flow)
  }

  /** An earlier segment of the flow reached at least as far; what this says about its bytes is in Retransmissions. */
  ghost predicate Reached(runs: seq<Run>, target: string, pkts: seq<Packet>, pos: seq<int>, i: nat)
    requires i < |pkts| == |pos|
  {
    && Data(runs, target, pkts[i])
    && exists j | 0 <= j < i ::
         && Data(runs, target, pkts[j]) && FlowOf(pkts[j]) == FlowOf(pkts[i])
         && pos[i] + pkts[i].payload <= pos[j] + pkts[j].payload
  }

  ghost predicate NearTopAt(runs: seq<Run>, target: string, pkts: seq<Packet>, pos: seq<int>, i: nat)
    requires i < |pkts| == |pos|
  {
    var high := HighestEnd(runs, target, pkts, pos, FlowOf(pkts[i]), i);
    Data(runs, target, pkts[i]) && high.Some? ==>
      -0x8000_0000 <= pos[i] + pkts[i].payload - high.value < 0x8000_0000
  }

  /** Each segment ends within half the sequence space of the highest end seen before it on its flow. */
  ghost predicate NearTop(runs: seq<Run>, target: string, pkts: seq<Packet>, pos: seq<int>)
    requires |pkts| == |pos|
  {
    forall i {:trigger NearTopAt(runs, target, pkts, pos, i)} | 0 <= i < |pkts| :: NearTopAt(runs, target, pkts, pos, i)
  }

  /** The three counters as sums over the packets booked under `key`, none of them mentioning 32-bit values. */
  ghost function TrueCounts(runs: seq<Run>, target: string, pkts: seq<Packet>, pos: seq<int>, key: Key, n: nat): Counts
    requires n <= |pkts| == |pos|
  {
    if n == 0 then Counts(0, 0, 0) else
    var c, p := TrueCounts(runs, target, pkts, pos, key, n - 1), pkts[n - 1];
    if Booked(runs, target, p) != Some(key) then c else
    Tally(c, p.payload, Reached(runs, target, pkts, pos, n - 1))
  }

  /** Serial comparison is exact within half the space of the top; both ends of that range are tight. */
  lemma {:induction false} SerialComparison(end: int, top: int)
    ensures -0x8000_0000 <= end - top < 0x8000_0000
            ==> (IsOld(end % 0x1_0000_0000, top % 0x1_0000_0000) <==> end <= top)
    ensures end - top == 0x8000_0000 ==> IsOld(end % 0x1_0000_0000, top % 0x1_0000_0000)
    ensures end - top == -0x8000_0000 - 1 ==> !IsOld(end % 0x1_0000_0000, top % 0x1_0000_0000)
  {
    ModDifference(end, top);
  }

  lemma {:induction false} HighestOneMore(runs: seq<Run>, target: string, pkts: seq<Packet>, pos: seq<int>,
                                          flow: Flow, n: nat, e: int)
    requires 0 < n <= |pkts| == |pos|
    ensures var before, p := HighestEnd(runs, target, pkts, pos, flow, n - 1), pkts[n - 1];
            var high := HighestEnd(runs, target, pkts, pos, flow, n);
            (high.Some? && e <= high.value) <==>
            (before.Some? && e <= before.value)
            || (Data(runs, target, p) && FlowOf(p) == flow && e <= pos[n - 1] + p.payload)
  {
  }

  lemma {:induction false} HighestEndIsMax(runs: seq<Run>, target: string, pkts: seq<Packet>, pos: seq<int>,
                                           flow: Flow, n: nat, e: int)
    requires n <= |pkts| == |pos|
    ensures var high := HighestEnd(runs, target, pkts, pos, flow, n);
            (high.Some? && e <= high.value) <==>
            exists j | 0 <= j < n ::
                Data(runs, target, pkts[j]) && FlowOf(pkts[j]) == flow && e <= pos[j] + pkts[j].payload
  {
    if n > 0 {
      HighestEndIsMax(runs, target, pkts, pos, flow, n - 1, e);
      HighestOneMore(runs, target, pkts, pos, flow, n, e);
    }
  }

  /** One segment: against a top that is the highest true end modulo 2^32, "old" means not beyond that end. */
  lemma {:induction false} OldIffNotBeyond(top: map<Flow, Seq32>, p: Packet, at: int, high: Option<int>)
    requires p.seqno == at % 0x1_0000_0000
    requires high.Some? <==> FlowOf(p) in top
    requires high.Some? ==> top[FlowOf(p)] == high.value % 0x1_0000_0000
                            && -0x8000_0000 <= at + p.payload - high.value < 0x8000_0000
    ensures EndOf(p) == (at + p.payload) % 0x1_0000_0000
    ensures TakenForOld(top, p) <==> high.Some? && at + p.payload <= high.value
  {
    ModSum(at, p.payload);
    if high.Some? {
      SerialComparison(at + p.payload, high.value);
    }
  }

  /** The top of a flow stands for its highest true end. */
  ghost predicate TopIs(top: map<Flow, Seq32>, flow: Flow, high: Option<int>) {
    && (flow in top <==> high.Some?)
    && (high.Some? ==> top[flow] == high.value % 0x1_0000_0000)
  }

  lemma {:induction false} ObserveData(s: Tracker, runs: seq<Run>, target: string, p: Packet)
    requires s.out.Keys == Keys(runs) && Data(runs, target, p)
    ensures Observe(s, runs, target, p).top == if TakenForOld(s.top, p) then s.top else s.top[FlowOf(p) := EndOf(p)]
  {
  }

  lemma {:induction false} TopMoves(top: map<Flow, Seq32>, p: Packet, at: int, high: Option<int>)
    requires p.seqno == at % 0x1_0000_0000 && TopIs(top, FlowOf(p), high)
    requires high.Some? ==> -0x8000_0000 <= at + p.payload - high.value < 0x8000_0000
    ensures TopIs(if TakenForOld(top, p) then top else top[FlowOf(p) := EndOf(p)],
                  FlowOf(p), Higher(high, at + p.payload))
  {
    OldIffNotBeyond(top, p, at, high);
  }

  lemma {:induction false} SameTop(top: map<Flow, Seq32>, top': map<Flow, Seq32>, flow: Flow, high: Option<int>)
    requires top == top' && TopIs(top, flow, high)
    ensures TopIs(top', flow, high)
  {
  }

  lemma {:induction false} TopKept(s: Tracker, runs: seq<Run>, target: string, p: Packet, at: int, high: Option<int>)
    requires s.out.Keys == Keys(runs) && Data(runs, target, p)
    requires p.seqno == at % 0x1_0000_0000 && TopIs(s.top, FlowOf(p), high)
    requires high.Some? ==> -0x8000_0000 <= at + p.payload - high.value < 0x8000_0000
    ensures TopIs(Observe(s, runs, target, p).top, FlowOf(p), HighestNext(high, runs, target, p, at, FlowOf(p)))
  {
    var moved := if TakenForOld(s.top, p) then s.top else s.top[FlowOf(p) := EndOf(p)];
    var next := HighestNext(high, runs, target, p, at, FlowOf(p));
    assert TopIs(moved, FlowOf(p), next) by {
      TopMoves(s.top, p, at, high);
    }
    assert moved == Observe(s, runs, target, p).top by {
      ObserveData(s, runs, target, p);
    }
    SameTop(moved, Observe(s, runs, target, p).top, FlowOf(p), next);
  }

  lemma {:induction false} TopUntouched(s: Tracker, runs: seq<Run>, target: string, p: Packet, at: int, flow: Flow,
                                        high: Option<int>)
    requires s.out.Keys == Keys(runs) && !(Data(runs, target, p) && FlowOf(p) == flow)
    requires TopIs(s.top, flow, high)
    ensures TopIs(Observe(s, runs, target, p).top, flow, HighestNext(high, runs, target, p, at, flow))
  {
    assert HighestNext(high, runs, target, p, at, flow) == high;
  }

  lemma {:induction false} TrackerStep(runs: seq<Run>, target: string, pkts: seq<Packet>, n: nat)
    requires 0 < n <= |pkts|
    ensures TrackerAfter(runs, target, pkts[..n])
            == Observe(TrackerAfter(runs, target, pkts[..n - 1]), runs, target, pkts[n - 1])
  {
    assert pkts[..n][..n - 1] == pkts[..n - 1];
  }

  /** Every flow's top is its highest true end modulo 2^32, across any number of wraps. */
  lemma {:induction false} TopExact(runs: seq<Run>, target: string, pkts: seq<Packet>, pos: seq<int>, flow: Flow,
                                    n: nat)
    requires Positions(pkts, pos) && NearTop(runs, target, pkts, pos) && n <= |pkts|
    ensures TopIs(TrackerAfter(runs, target, pkts[..n]).top, flow, HighestEnd(runs, target, pkts, pos, flow, n))
  {
    if n > 0 {
      TopExact(runs, target, pkts, pos, flow, n - 1);
      TrackerStep(runs, target, pkts, n);
      assert NearTopAt(runs, target, pkts, pos, n - 1);
      var high := HighestEnd(runs, target, pkts, pos, flow, n - 1);
      TopStep(TrackerAfter(runs, target, pkts[..n - 1]), runs, target, pkts[n - 1], pos[n - 1], flow, high);
    }
  }

  lemma {:induction false} TopStep(s: Tracker, runs: seq<Run>, target: string, p: Packet, at: int, flow: Flow,
                                   high: Option<int>)
    requires s.out.Keys == Keys(runs) && p.seqno == at % 0x1_0000_0000 && TopIs(s.top, flow, high)
    requires Data(runs, target, p) && FlowOf(p) == flow && high.Some?
             ==> -0x8000_0000 <= at + p.payload - high.value < 0x8000_0000
    ensures TopIs(Observe(s, runs, target, p).top, flow, HighestNext(high, runs, target, p, at, flow))
  {
    if Data(runs, target, p) && FlowOf(p) == flow {
      TopKept(s, runs, target, p, at, high);
    } else {
      TopUntouched(s, runs, target, p, at, flow, high);
    }
  }

  /** The tracker takes a segment for old exactly when an earlier one of its flow reached as far. */
  lemma {:induction false} OldIffReached(runs: seq<Run>, target: string, pkts: seq<Packet>, pos: seq<int>, i: nat)
    requires Positions(pkts, pos) && NearTop(runs, target, pkts, pos) && i < |pkts|
    requires Data(runs, target, pkts[i])
    ensures TakenForOld(TrackerAfter(runs, target, pkts[..i]).top, pkts[i]) <==> Reached(runs, target, pkts, pos, i)
  {
    var flow, end := FlowOf(pkts[i]), pos[i] + pkts[i].payload;
    var high := HighestEnd(runs, target, pkts, pos, flow, i);
    TopExact(runs, target, pkts, pos, flow, i);
    assert NearTopAt(runs, target, pkts, pos, i);
    OldIffNotBeyond(TrackerAfter(runs, target, pkts[..i]).top, pkts[i], pos[i], high);
    HighestEndIsMax(runs, target, pkts, pos, flow, i, end);
  }

  /**
    For any capture whose segments stay near their flow's top, each counter is what its packets' true positions make it.
    */
  lemma {:induction false} CountsExact(runs: seq<Run>, target: string, pkts: seq<Packet>, pos: seq<int>, key: Key,
                                       n: nat)
    requires Positions(pkts, pos) && NearTop(runs, target, pkts, pos) && n <= |pkts|
    requires key in Keys(runs)
    ensures TrackerAfter(runs, target, pkts[..n]).out[key] == TrueCounts(runs, target, pkts, pos, key, n)
  {
    if n > 0 {
      CountsExact(runs, target, pkts, pos, key, n - 1);
      var p := pkts[n - 1];
      assert pkts[..n][..n - 1] == pkts[..n - 1] && pkts[..n][n - 1] == p;
      if Data(runs, target, p) {
        OldIffReached(runs, target, pkts, pos, n - 1);
      }
    }
  }
}
