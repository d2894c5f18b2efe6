/**
  The check of experiments/validation/throughput_bytes.py: per run, the sequence space that its
  flows cover on br-ran. It unwraps every 32-bit number against the flow's first one; it is proved
  here against true positions, and against the set of bytes actually seen.
  */
module SequenceRanges {
  import opened Bytes
  import opened Capture
  import opened Numbers
  import BrRan

  datatype Key = Key(run: Run, sport: nat, dport: nat)

  /** A flow as the loop keeps it: its first number, and the range seen relative to it. */
  datatype Entry = Entry(first: Seq32, low: int, top: int)

  /** What the loop makes of a packet; Malformed stands for the struct.error of a short TCP header. */
  datatype Fate = Skipped | Malformed | Counted(key: Key)

  function FateOf(runs: seq<Run>, target: string, p: Packet): Fate {
    if !p.tcp then Skipped else
    match LookupByScan(runs, p.t)
    case None => Skipped
    case Some(run) =>
      if target != p.src && target != p.dst then Skipped
      else if !p.whole then Malformed
      else if p.payload <= 0 || !((if DirectionOf(p, target) == Dl then "dl" else "ul") <= run.combo) then Skipped
      else Counted(Key(run, p.sport, p.dport))
  }

  /** The signed distance of a 32-bit number from the flow's first. */
  function Unwrap(seqno: Seq32, first: Seq32): int {
    var rel := (seqno - first) % 0x1_0000_0000;
    if rel >= 0x8000_0000 then rel - 0x1_0000_0000 else rel
  }

  function Extend(e: Option<Entry>, p: Packet): Entry {
    var f := if e.Some? then e.value else Entry(p.seqno, 0, 0);
    var rel := Unwrap(p.seqno, f.first);
    Entry(f.first, MinInt(f.low, rel), MaxInt(f.top, rel + p.payload))
  }

  /** The entry of one flow after the packets read so far. */
  function EntryAfter(runs: seq<Run>, target: string, pkts: seq<Packet>, key: Key): Option<Entry> {
    if pkts == [] then None else
    var p, before := pkts[|pkts| - 1], EntryAfter(runs, target, pkts[..|pkts| - 1], key);
    if FateOf(runs, target, p) == Counted(key) then Some(Extend(before, p)) else before
  }

  /** The ranges of a run's flows added up, in the order the flows came. */
  function Total(order: seq<Key>, flows: map<Key, Entry>, run: Run): int
    requires forall key <- order :: key in flows
  {
    if order == [] then 0 else
    var key := order[|order| - 1];
    Total(order[..|order| - 1], flows, run) + if key.run == run then flows[key].top - flows[key].low else 0
  }

  // ---------------------------------------------------------------- the code

  ghost predicate IsKeysOf(order: seq<Key>, flows: map<Key, Entry>) {
    && (forall i, j | 0 <= i < j < |order| :: order[i] != order[j])
    && (forall key :: key in order <==> key in flows)
  }

  function Lookup(flows: map<Key, Entry>, key: Key): Option<Entry> {
    if key in flows then Some(flows[key]) else None
  }

  ghost predicate Summarized(runs: seq<Run>, target: string, pkts: seq<Packet>, flows: map<Key, Entry>) {
    forall key :: Lookup(flows, key) == EntryAfter(runs, target, pkts, key)
  }

  lemma {:induction false} SummarizedStep(runs: seq<Run>, target: string, pkts: seq<Packet>, p: Packet,
                                          flows: map<Key, Entry>, flows': map<Key, Entry>)
    requires Summarized(runs, target, pkts, flows)
    requires match FateOf(runs, target, p)
             case Counted(key) => flows' == flows[key := Extend(Lookup(flows, key), p)]
             case _ => flows' == flows
    ensures Summarized(runs, target, pkts + [p], flows')
  {
    var all := pkts + [p];
    assert all[..|all| - 1] == pkts;
    forall key ensures Lookup(flows', key) == EntryAfter(runs, target, all, key) {
      assert Lookup(flows, key) == EntryAfter(runs, target, pkts, key);
    }
  }

  /** Lines 33 to 58; the keys keep the order of their first insertion, as a Python dict does. */
  method Flows(runs: seq<Run>, target: string, pkts: seq<Packet>) returns (ok: bool, order: seq<Key>, flows: map<Key,
               Entry>)
    ensures ok <==> forall p <- pkts :: FateOf(runs, target, p) != Malformed
    ensures ok ==> IsKeysOf(order, flows) && Summarized(runs, target, pkts, flows)
  {
    order, flows := [], map[];
    for i := 0 to |pkts|
      invariant forall p <- pkts[..i] :: FateOf(runs, target, p) != Malformed
      invariant IsKeysOf(order, flows) && Summarized(runs, target, pkts[..i], flows)
    {
      var p := pkts[i];
      assert pkts[..i + 1] == pkts[..i] + [p];
      ghost var before := flows;
      var fate := FateOf(runs, target, p);
      if fate == Malformed {
        return false, order, flows;
      }
      if fate.Counted? {
        var key := fate.key;
        if key !in flows {
          order, flows := order + [key], flows[key := Entry(p.seqno, 0, 0)];
        }
        var f := flows[key];
        var rel := Unwrap(p.seqno, f.first);
        flows := flows[key := Entry(f.first, MinInt(f.low, rel), MaxInt(f.top, rel + p.payload))];
      }
      SummarizedStep(runs, target, pkts[..i], p, before, flows);
    }
    assert pkts[..|pkts|] == pkts;
    ok := true;
  }

  /** Lines 59 to 62. */
  method Sums(order: seq<Key>, flows: map<Key, Entry>) returns (out: map<Run, int>)
    requires IsKeysOf(order, flows)
    ensures forall run :: run in out <==> exists key <- order :: key.run == run
    ensures forall run <- out :: out[run] == Total(order, flows, run)
  {
    out := map[];
    for i := 0 to |order|
      invariant forall run :: run in out <==> exists key <- order[..i] :: key.run == run
      invariant forall run <- out :: out[run] == Total(order[..i], flows, run)
    {
      var key := order[i];
      assert order[..i + 1] == order[..i] + [key];
      if key.run !in out {
        NoFlows(order[..i], flows, key.run);
      }
      out := out[key.run := (if key.run in out then out[key.run] else 0) + flows[key].top - flows[key].low];
    }
    assert order[..|order|] == order;
  }

  lemma {:induction false} NoFlows(order: seq<Key>, flows: map<Key, Entry>, run: Run)
    requires forall key <- order :: key in flows && key.run != run
    ensures Total(order, flows, run) == 0
  {
    if order != [] {
      NoFlows(order[..|order| - 1], flows, run);
    }
  }

  // ---------------------------------------------------------------- the unbounded stream

  /** True positions of a flow's data: where its first packet starts, the lowest start and the highest end. */
  datatype Extent = Extent(first: int, low: int, high: int)

  ghost function ExtentAfter(runs: seq<Run>, target: string, pkts: seq<Packet>, pos: seq<int>, key: Key,
                             n: nat): Option<Extent>
    requires n <= |pkts| == |pos|
  {
    if n == 0 then None else
    var p, at, before := pkts[n - 1], pos[n - 1], ExtentAfter(runs, target, pkts, pos, key, n - 1);
    if FateOf(runs, target, p) != Counted(key) then before
    else if before.None? then Some(Extent(at, at, at + p.payload))
    else Some(Extent(before.value.first, MinInt(before.value.low, at), MaxInt(before.value.high, at + p.payload)))
  }

  ghost predicate NearFirstAt(runs: seq<Run>, target: string, pkts: seq<Packet>, pos: seq<int>, i: nat)
    requires i < |pkts| == |pos|
  {
    var fate := FateOf(runs, target, pkts[i]);
    fate.Counted? && ExtentAfter(runs, target, pkts, pos, fate.key, i).Some? ==>
      -0x8000_0000 <= pos[i] - ExtentAfter(runs, target, pkts, pos, fate.key, i).value.first < 0x8000_0000
  }

  /** Every counted segment starts within half the sequence space of its flow's first. */
  ghost predicate NearFirst(runs: seq<Run>, target: string, pkts: seq<Packet>, pos: seq<int>)
    requires |pkts| == |pos|
  {
    forall i {:trigger NearFirstAt(runs, target, pkts, pos, i)} | 0 <= i < |pkts| ::
        NearFirstAt(runs, target, pkts, pos, i)
  }

  /** Unwrapping is exact within half the space of the first number, and only there. */
  lemma {:induction false} UnwrapExact(at: int, first: int)
    ensures Unwrap(at % 0x1_0000_0000, first % 0x1_0000_0000) == at - first
            <==> -0x8000_0000 <= at - first < 0x8000_0000
  {
    ModDifference(at, first);
  }

  ghost predicate Stands(e: Option<Entry>, x: Option<Extent>) {
    match (e, x)
    case (None, None) => true
    case (Some(e), Some(x)) =>
      && e.first == x.first % 0x1_0000_0000 && e.low == x.low - x.first && e.top == x.high - x.first
      && x.low <= x.first < x.high
    case _ => false
  }

  lemma {:induction false} ExtendKept(e: Option<Entry>, x: Option<Extent>, p: Packet, at: int)
    requires Stands(e, x) && p.seqno == at % 0x1_0000_0000 && p.payload > 0
    requires x.Some? ==> -0x8000_0000 <= at - x.value.first < 0x8000_0000
    ensures Stands(Some(Extend(e, p)), Some(if x.None? then Extent(at, at, at + p.payload)
              else Extent(x.value.first, MinInt(x.value.low, at), MaxInt(x.value.high, at + p.payload))))
  {
    UnwrapExact(at, if x.None? then at else x.value.first);
  }

  /** Each entry is the true extent of its flow, seen from the flow's first byte. */
  lemma {:induction false} EntryExact(runs: seq<Run>, target: string, pkts: seq<Packet>, pos: seq<int>, key: Key,
                                      n: nat)
    requires Positions(pkts, pos) && NearFirst(runs, target, pkts, pos) && n <= |pkts|
    ensures Stands(EntryAfter(runs, target, pkts[..n], key), ExtentAfter(runs, target, pkts, pos, key, n))
  {
    if n > 0 {
      EntryExact(runs, target, pkts, pos, key, n - 1);
      var p := pkts[n - 1];
      assert pkts[..n][..n - 1] == pkts[..n - 1] && pkts[..n][n - 1] == p;
      if FateOf(runs, target, p) == Counted(key) {
        assert NearFirstAt(runs, target, pkts, pos, n - 1);
        ExtendKept(EntryAfter(runs, target, pkts[..n - 1], key),
                   ExtentAfter(runs, target, pkts, pos, key, n - 1), p, pos[n - 1]);
      }
    }
  }

  // ---------------------------------------------------------------- distinct bytes

  lemma {:induction false} SubsetSize(a: set<int>, b: set<int>)
    requires a <= b
    ensures |a| <= |b| && (|a| == |b| <==> a == b)
  {
    assert b == a + (b - a);
    assert |b| == |a| + |b - a|;
  }

  /** The bytes of a flow seen on br-ran, each once however often it was sent. */
  ghost function Seen(runs: seq<Run>, target: string, pkts: seq<Packet>, pos: seq<int>, key: Key, n: nat): set<int>
    requires n <= |pkts| == |pos|
  {
    if n == 0 then {} else
    var before := Seen(runs, target, pkts, pos, key, n - 1);
    if FateOf(runs, target, pkts[n - 1]) != Counted(key) then before
    else before + Interval(pos[n - 1], pos[n - 1] + pkts[n - 1].payload)
  }

  lemma {:induction false} SeenWithinExtent(runs: seq<Run>, target: string, pkts: seq<Packet>, pos: seq<int>,
                                            key: Key, n: nat)
    requires n <= |pkts| == |pos|
    ensures match ExtentAfter(runs, target, pkts, pos, key, n)
            case None => Seen(runs, target, pkts, pos, key, n) == {}
            case Some(x) => x.low <= x.high && Seen(runs, target, pkts, pos, key, n) <= Interval(x.low, x.high)
  {
    if n > 0 {
      SeenWithinExtent(runs, target, pkts, pos, key, n - 1);
    }
  }

  /** No hole: every byte between the lowest start and the highest end was seen. */
  ghost predicate NoHole(runs: seq<Run>, target: string, pkts: seq<Packet>, pos: seq<int>, key: Key)
    requires |pkts| == |pos|
  {
    var x := ExtentAfter(runs, target, pkts, pos, key, |pkts|);
    x.Some? ==> Seen(runs, target, pkts, pos, key, |pkts|) == Interval(x.value.low, x.value.high)
  }

  ghost function DistinctBytes(runs: seq<Run>, target: string, pkts: seq<Packet>, pos: seq<int>, order: seq<Key>,
                               run: Run): nat
    requires |pkts| == |pos|
  {
    if order == [] then 0 else
    var key := order[|order| - 1];
    DistinctBytes(runs, target, pkts, pos, order[..|order| - 1], run)
    + if key.run == run then |Seen(runs, target, pkts, pos, key, |pkts|)| else 0
  }

  /**
    The main result: what is reported for a run is at least the number of distinct bytes its flows put on
    br-ran, and equal to it exactly when none of them has a hole.
    */
  lemma {:induction false} RangeAgainstBytes(runs: seq<Run>, target: string, pkts: seq<Packet>, pos: seq<int>,
                                             flows: map<Key, Entry>, order: seq<Key>, run: Run)
    requires Positions(pkts, pos) && NearFirst(runs, target, pkts, pos)
    requires Summarized(runs, target, pkts, flows) && forall key <- order :: key in flows
    ensures var total, bytes := Total(order, flows, run), DistinctBytes(runs, target, pkts, pos, order, run);
            && total >= bytes
            && (total == bytes <==> forall key <- order | key.run == run :: NoHole(runs, target, pkts, pos, key))
  {
    if order != [] {
      var key := order[|order| - 1];
      var rest := order[..|order| - 1];
      assert order == rest + [key];
      RangeAgainstBytes(runs, target, pkts, pos, flows, rest, run);
      FlowRangeAgainstBytes(runs, target, pkts, pos, flows, key);
    }
  }

  lemma {:induction false} FlowRangeAgainstBytes(runs: seq<Run>, target: string, pkts: seq<Packet>, pos: seq<int>,
                                                 flows: map<Key, Entry>, key: Key)
    requires Positions(pkts, pos) && NearFirst(runs, target, pkts, pos)
    requires Summarized(runs, target, pkts, flows) && key in flows
    ensures var range, bytes := flows[key].top - flows[key].low, |Seen(runs, target, pkts, pos, key, |pkts|)|;
            range >= bytes && (range == bytes <==> NoHole(runs, target, pkts, pos, key))
  {
    var n := |pkts|;
    assert pkts[..n] == pkts;
    EntryExact(runs, target, pkts, pos, key, n);
    assert EntryAfter(runs, target, pkts, key) == Lookup(flows, key);
    SeenWithinExtent(runs, target, pkts, pos, key, n);
    var x := ExtentAfter(runs, target, pkts, pos, key, n).value;
    IntervalSize(x.low, x.high);
    SubsetSize(Seen(runs, target, pkts, pos, key, n), Interval(x.low, x.high));
  }

  // ---------------------------------------------------------------- against the other tracker

  /** Packet p feeds the flow `key` here exactly when it feeds `flow` in br_ran, which sees the runs as `sorted`. */
  ghost predicate SameFeed(runs: seq<Run>, sorted: seq<Run>, target: string, p: Packet, key: Key, flow: BrRan.Flow) {
    FateOf(runs, target, p) == Counted(key) <==> BrRan.Data(sorted, target, p) && BrRan.FlowOf(p) == flow
  }

  ghost predicate SameFeeds(runs: seq<Run>, sorted: seq<Run>, target: string, pkts: seq<Packet>, key: Key,
                            flow: BrRan.Flow) {
    forall i {:trigger SameFeed(runs, sorted, target, pkts[i], key, flow)} | 0 <= i < |pkts| ::
      SameFeed(runs, sorted, target, pkts[i], key, flow)
  }

  /** When the same packets feed a flow here and in br_ran, both hold the same highest end modulo 2^32. */
  lemma {:induction false} TopsAgree(runs: seq<Run>, sorted: seq<Run>, target: string, pkts: seq<Packet>,
                                     pos: seq<int>, key: Key, flow: BrRan.Flow)
    requires Positions(pkts, pos) && NearFirst(runs, target, pkts, pos)
    requires BrRan.NearTop(sorted, target, pkts, pos)
    requires SameFeeds(runs, sorted, target, pkts, key, flow)
    ensures var entry, top := EntryAfter(runs, target, pkts, key), BrRan.TrackerAfter(sorted, target, pkts).top;
            && (entry.Some? <==> flow in top)
            && (entry.Some? ==> (entry.value.first + entry.value.top) % 0x1_0000_0000 == top[flow])
  {
    var n := |pkts|;
    assert pkts[..n] == pkts;
    EntryExact(runs, target, pkts, pos, key, n);
    BrRan.TopExact(sorted, target, pkts, pos, flow, n);
    SameHighest(runs, sorted, target, pkts, pos, key, flow, n);
    var x := ExtentAfter(runs, target, pkts, pos, key, n);
    if x.Some? {
      ModSum(x.value.first, x.value.high - x.value.first);
    }
  }

  lemma {:induction false} SameHighest(runs: seq<Run>, sorted: seq<Run>, target: string, pkts: seq<Packet>,
                                       pos: seq<int>, key: Key, flow: BrRan.Flow, n: nat)
    requires n <= |pkts| == |pos|
    requires SameFeeds(runs, sorted, target, pkts, key, flow)
    ensures var x := ExtentAfter(runs, target, pkts, pos, key, n);
            var high := BrRan.HighestEnd(sorted, target, pkts, pos, flow, n);
            if x.None? then high.None? else high == Some(x.value.high)
  {
    if n > 0 {
      SameHighest(runs, sorted, target, pkts, pos, key, flow, n - 1);
      assert SameFeed(runs, sorted, target, pkts[n - 1], key, flow);
    }
  }

  lemma {:induction false} SameLookupSameSegments(runs: seq<Run>, sorted: seq<Run>, target: string, p: Packet)
    requires LookupByBisect(sorted, p.t) == LookupByScan(runs, p.t)
    ensures match FateOf(runs, target, p)
            case Counted(key) =>
              && BrRan.Data(sorted, target, p)
              && BrRan.Booked(sorted, target, p) == Some(BrRan.Key(key.run.idx, DirectionOf(p, target)))
            case Malformed => BrRan.Booked(sorted, target, p) == None
            case Skipped =>
              BrRan.Data(sorted, target, p) ==>
                LookupByScan(runs, p.t).Some?
                && !((if DirectionOf(p, target) == Dl then "dl" else "ul") <= LookupByScan(runs, p.t).value.combo)
  {
  }

  /**
    With windows that share no instant, the two files book the same data segments: a segment counted for a
    run here is booked under that run and direction there, and the only others there have the run's opposite direction.
    */
  lemma {:induction false} SameSegments(runs: seq<Run>, target: string, p: Packet)
    requires Disjoint(runs)
    ensures match FateOf(runs, target, p)
            case Counted(key) =>
              && BrRan.Data(SortRuns(runs), target, p)
              && BrRan.Booked(SortRuns(runs), target, p) == Some(BrRan.Key(key.run.idx, DirectionOf(p, target)))
            case Malformed => BrRan.Booked(SortRuns(runs), target, p) == None
            case Skipped =>
              BrRan.Data(SortRuns(runs), target, p) ==>
                LookupByScan(runs, p.t).Some?
                && !((if DirectionOf(p, target) == Dl then "dl" else "ul") <= LookupByScan(runs, p.t).value.combo)
  {
    LookupsAgree(runs, p.t);
    SameLookupSameSegments(runs, SortRuns(runs), target, p);
  }

  /** A flow from or to the target, in its run's direction. */
  ghost predicate IsFlowOf(key: Key, flow: BrRan.Flow, target: string) {
    && key.sport == flow.sport && key.dport == flow.dport && (flow.src == target || flow.dst == target)
    && (if flow.src == target then "dl" else "ul") <= key.run.combo
  }

  /** The flow stays in its run's window, and there its ports are used between its two hosts alone. */
  ghost predicate KeepsToItself(target: string, p: Packet, key: Key, flow: BrRan.Flow) {
    && (p.tcp && BrRan.FlowOf(p) == flow ==> Holds(key.run, p.t))
    && (p.tcp && Holds(key.run, p.t) && (p.src == target || p.dst == target)
        && p.sport == flow.sport && p.dport == flow.dport
        ==> p.src == flow.src && p.dst == flow.dst)
  }

  lemma {:induction false} ScanIsWindow(runs: seq<Run>, run: Run, t: real)
    requires Disjoint(runs) && run in runs
    ensures LookupByScan(runs, t) == Some(run) <==> Holds(run, t)
  {
    ScanFinds(runs, t);
  }

  lemma {:induction false} FlowFeedsAlike(runs: seq<Run>, target: string, p: Packet, key: Key, flow: BrRan.Flow)
    requires Disjoint(runs) && key.run in runs && IsFlowOf(key, flow, target) && KeepsToItself(target, p, key, flow)
    ensures SameFeed(runs, SortRuns(runs), target, p, key, flow)
  {
    LookupsAgree(runs, p.t);
    ScanIsWindow(runs, key.run, p.t);
  }

  /**
    With windows that share no instant, a flow that stays in its run's window, in the run's direction, and has its ports
    to itself there, ends at the same place in both files: the two tops are the same modulo 2^32.
    */
  lemma {:induction false} TrackersAgree(runs: seq<Run>, target: string, pkts: seq<Packet>, pos: seq<int>, key: Key,
                                         flow: BrRan.Flow)
    requires Positions(pkts, pos) && NearFirst(runs, target, pkts, pos)
    requires BrRan.NearTop(SortRuns(runs), target, pkts, pos)
    requires Disjoint(runs) && key.run in runs && IsFlowOf(key, flow, target)
    requires forall i | 0 <= i < |pkts| :: KeepsToItself(target, pkts[i], key, flow)
    ensures var entry, top := EntryAfter(runs, target, pkts, key), BrRan.TrackerAfter(SortRuns(runs), target, pkts).top;
            && (entry.Some? <==> flow in top)
            && (entry.Some? ==> (entry.value.first + entry.value.top) % 0x1_0000_0000 == top[flow])
  {
    forall i | 0 <= i < |pkts| ensures SameFeed(runs, SortRuns(runs), target, pkts[i], key, flow) {
      FlowFeedsAlike(runs, target, pkts[i], key, flow);
    }
    TopsAgree(runs, SortRuns(runs), target, pkts, pos, key, flow);
  }
}
