/**
  What the two throughput summaries share: the measurement's runs, the captured packets
  as rows, and 32-bit sequence numbers against true positions in a flow's byte stream.
  */
module Capture {
  import opened Bytes
  import opened Bisect

  type Seq32 = x: int | 0 <= x < 0x1_0000_0000

  /** One run of the measurement: index, combination ("dl-tcp1", "ul-udp", ...) and window. */
  datatype Run = Run(idx: int, combo: string, start: real, end: real)

  /** An inner IPv4 packet off br-ran; `whole` says that its TCP header is complete. */
  datatype Packet = Packet(t: real, tcp: bool, whole: bool, src: string, dst: string,
                           sport: nat, dport: nat, seqno: Seq32, payload: int)

  datatype Direction = Dl | Ul

  function DirectionOf(p: Packet, target: string): Direction {
    if p.src == target then Dl else Ul
  }

  /** True positions: `pos[i]` is where packet i's payload starts in its flow's unbounded byte stream. */
  ghost predicate Positions(pkts: seq<Packet>, pos: seq<int>) {
    |pos| == |pkts| && forall i | 0 <= i < |pkts| :: pkts[i].seqno == pos[i] % 0x1_0000_0000
  }

  lemma {:induction false} ModDifference(x: int, y: int)
    ensures (x % 0x1_0000_0000 - y % 0x1_0000_0000) % 0x1_0000_0000 == (x - y) % 0x1_0000_0000
  {
  }

  lemma {:induction false} ModSum(x: int, y: int)
    ensures (x % 0x1_0000_0000 + y) % 0x1_0000_0000 == (x + y) % 0x1_0000_0000
  {
  }

  // ---------------------------------------------------------------- bytes of a stream

  ghost function Interval(lo: int, hi: int): (r: set<int>)
    ensures forall x :: x in r <==> lo <= x < hi
    decreases hi - lo
  {
    if lo >= hi then {} else Interval(lo, hi - 1) + {hi - 1}
  }

  lemma {:induction false} IntervalSize(lo: int, hi: int)
    requires lo <= hi
    ensures |Interval(lo, hi)| == hi - lo
    decreases hi - lo
  {
    if lo < hi {
      IntervalSize(lo, hi - 1);
      assert hi - 1 !in Interval(lo, hi - 1);
    }
  }

  // ---------------------------------------------------------------- the run of a packet

  ghost predicate SortedByStart(runs: seq<Run>) {
    forall i, j | 0 <= i < j < |runs| :: runs[i].start <= runs[j].start
  }

  lemma {:induction false} InFront(r: Run, runs: seq<Run>)
    requires SortedByStart(runs) && (runs == [] || r.start <= runs[0].start)
    ensures SortedByStart([r] + runs)
  {
    assert forall j | 0 <= j < |runs| :: runs[0].start <= runs[j].start;
  }

  function InsertRun(r: Run, runs: seq<Run>): (out: seq<Run>)
    requires SortedByStart(runs)
    ensures multiset(out) == multiset(runs) + multiset{r}
    ensures out != [] && (out[0] == r || (runs != [] && out[0] == runs[0]))
    ensures SortedByStart(out)
  {
    if runs == [] then [r]
    else if r.start < runs[0].start then InFront(r, runs); [r] + runs
    else
      var rest := InsertRun(r, runs[1..]);
      Inserted(r, runs, rest);
      [runs[0]] + rest
  }

  lemma {:induction false} Inserted(r: Run, runs: seq<Run>, rest: seq<Run>)
    requires runs != [] && SortedByStart(runs) && runs[0].start <= r.start && SortedByStart(rest)
    requires multiset(rest) == multiset(runs[1..]) + multiset{r}
    requires rest != [] && (rest[0] == r || (|runs| > 1 && rest[0] == runs[1]))
    ensures multiset([runs[0]] + rest) == multiset(runs) + multiset{r}
    ensures SortedByStart([runs[0]] + rest)
  {
    assert runs == [runs[0]] + runs[1..];
    InFront(runs[0], rest);
  }

  /** A stable sort by start, as `sorted(..., key=...)` is. */
  function SortRuns(runs: seq<Run>): (out: seq<Run>)
    ensures SortedByStart(out) && multiset(out) == multiset(runs)
  {
    if runs == [] then []
    else
      assert runs == runs[..|runs| - 1] + [runs[|runs| - 1]];
      InsertRun(runs[|runs| - 1], SortRuns(runs[..|runs| - 1]))
  }

  function Starts(runs: seq<Run>): (r: seq<real>)
    ensures |r| == |runs| && (SortedByStart(runs) ==> Sorted(r))
  {
    seq(|runs|, i requires 0 <= i < |runs| => runs[i].start)
  }

  /** The run br_ran books a packet under: the last one that has started, unless it has ended. */
  function LookupByBisect(runs: seq<Run>, t: real): Option<Run> {
    var k := BisectRight(Starts(runs), t);
    if k == 0 || t > runs[k - 1].end then None else Some(runs[k - 1])
  }

  /** The run sequence_ranges books a packet under: the first window holding it. */
  function LookupByScan(runs: seq<Run>, t: real): Option<Run> {
    if runs == [] then None
    else if runs[0].start <= t <= runs[0].end then Some(runs[0])
    else LookupByScan(runs[1..], t)
  }

  predicate Holds(r: Run, t: real) {
    r.start <= t <= r.end
  }

  ghost predicate Disjoint(runs: seq<Run>) {
    && (forall r <- runs :: r.start <= r.end)
    && (forall r <- runs, q <- runs :: r == q || r.end < q.start || q.end < r.start)
  }

  lemma {:induction false} ScanFinds(runs: seq<Run>, t: real)
    ensures match LookupByScan(runs, t)
            case Some(r) => r in runs && Holds(r, t)
            case None => forall r <- runs :: !Holds(r, t)
  {
    if runs != [] {
      assert runs == [runs[0]] + runs[1..];
      ScanFinds(runs[1..], t);
    }
  }

  lemma {:induction false} LastStartedHolds(runs: seq<Run>, t: real, m: nat)
    requires SortedByStart(runs) && Disjoint(runs) && m < |runs| && Holds(runs[m], t)
    ensures var k := BisectRight(Starts(runs), t); m < k && Holds(runs[k - 1], t)
  {
    var starts := Starts(runs);
    var k := BisectRight(starts, t);
    assert starts[m] <= t;
    assert m < k;
    assert starts[k - 1] <= t && runs[m].start <= runs[k - 1].start;
  }

  /** The bisection finds the window holding `t`: a later-starting one would share the instant it starts. */
  lemma {:induction false} BisectFinds(runs: seq<Run>, t: real)
    requires SortedByStart(runs) && Disjoint(runs)
    ensures match LookupByBisect(runs, t)
            case Some(r) => r in runs && Holds(r, t)
            case None => forall r <- runs :: !Holds(r, t)
  {
    var k := BisectRight(Starts(runs), t);
    assert k > 0 ==> Starts(runs)[k - 1] <= t;
    forall m | 0 <= m < |runs| && Holds(runs[m], t)
      ensures k > 0 && Holds(runs[k - 1], t)
    {
      LastStartedHolds(runs, t, m);
    }
  }

  lemma {:induction false} SameRuns(runs: seq<Run>)
    ensures forall r :: r in SortRuns(runs) <==> r in runs
    ensures Disjoint(runs) ==> Disjoint(SortRuns(runs))
  {
    var sorted := SortRuns(runs);
    assert forall r :: r in sorted <==> r in multiset(sorted);
    assert forall r :: r in runs <==> r in multiset(runs);
  }

  lemma {:induction false} OneHolder(runs: seq<Run>, t: real)
    requires Disjoint(runs)
    ensures forall r <- runs, q <- runs :: Holds(r, t) && Holds(q, t) ==> r == q
  {
  }

  /** Windows that share no instant: the bisection over the sorted runs and the scan in file order agree. */
  lemma {:induction false} LookupsAgree(runs: seq<Run>, t: real)
    requires Disjoint(runs)
    ensures LookupByBisect(SortRuns(runs), t) == LookupByScan(runs, t)
  {
    SameRuns(runs);
    ScanFinds(runs, t);
    BisectFinds(SortRuns(runs), t);
    OneHolder(runs, t);
  }
}
