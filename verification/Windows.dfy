/**
  The one-second windows of experiments/network/throughput.py: iperf3's irregular intervals turned
  into means over consecutive windows. Times and rates are reals; the rounding to six decimals and
  the 1e-9 filters are kept, and their effect is bounded.
  */
module Windows {
  import opened Bytes
  import opened Rounding
  import opened WeightedSums
  import opened Numbers

  datatype Interval = Interval(start: real, end: real, rate: real)

  /** The intervals that end after the discard, none of them starting before it. */
  function Kept(ivs: seq<Interval>, discard: real): seq<Interval> {
    if ivs == [] then [] else
    var before, last := Kept(ivs[..|ivs| - 1], discard), ivs[|ivs| - 1];
    if IsKept(last, discard) then before + [Clamped(last, discard)] else before
  }

  predicate IsKept(iv: Interval, discard: real) {
    iv.end > discard + 0.000000001
  }

  function Clamped(iv: Interval, discard: real): Interval {
    iv.(start := MaxReal(iv.start, discard))
  }

  /** `max(end, default=0.0)`. */
  function LastEnd(ivs: seq<Interval>): real {
    if ivs == [] then 0.0 else if |ivs| == 1 then ivs[0].end else MaxReal(ivs[0].end, LastEnd(ivs[1..]))
  }

  function Edge(discard: real, width: real, k: nat): real {
    discard + k as real * width
  }

  /** Windows until the last end, a millionth of a second past it at most. */
  function Count(discard: real, width: real, last: real): nat
    requires width > 0.0
  {
    var n := ((last + 0.000001 - discard) / width).Floor;
    if n < 0 then 0 else n
  }

  predicate Touches(iv: Interval, lo: real, hi: real) {
    iv.end > lo + 0.000000001 && iv.start < hi - 0.000000001
  }

  /** The time an interval contributes to a window. */
  function Part(iv: Interval, lo: real, hi: real): real {
    if Touches(iv, lo, hi) then MinReal(iv.end, hi) - MaxReal(iv.start, lo) else 0.0
  }

  /** The times of all intervals in a window; the code keeps only those that touch it, the others add nothing. */
  function Parts(ivs: seq<Interval>, lo: real, hi: real): (ts: seq<real>)
    ensures |ts| == |ivs| && forall i | 0 <= i < |ivs| :: ts[i] == Part(ivs[i], lo, hi)
  {
    seq(|ivs|, i requires 0 <= i < |ivs| => Part(ivs[i], lo, hi))
  }

  function Rates(ivs: seq<Interval>): (vs: seq<real>)
    ensures |vs| == |ivs| && forall i | 0 <= i < |ivs| :: vs[i] == ivs[i].rate
  {
    seq(|ivs|, i requires 0 <= i < |ivs| => ivs[i].rate)
  }

  function Covered(ivs: seq<Interval>, lo: real, hi: real): real {
    Sum(Parts(ivs, lo, hi), |ivs|)
  }

  function Data(ivs: seq<Interval>, lo: real, hi: real): real {
    Dot(Parts(ivs, lo, hi), Rates(ivs), |ivs|)
  }

  function Mean(ivs: seq<Interval>, lo: real, hi: real): real
    requires Covered(ivs, lo, hi) != 0.0
  {
    Data(ivs, lo, hi) / Covered(ivs, lo, hi)
  }

  lemma {:induction false} CountBounds(discard: real, width: real, last: real, k: nat)
    requires width > 0.0
    ensures k < Count(discard, width, last) <==> Edge(discard, width, k + 1) <= last + 0.000001
  {
    var x := last + 0.000001 - discard;
    var q := x / width;
    assert x == q * width;
    var m := (k + 1) as real;
    if m <= q {
      assert m * width <= q * width;
    } else {
      assert m * width > q * width;
    }
    assert k + 1 <= q.Floor <==> m <= q;
  }

  // ---------------------------------------------------------------- the code

  /** None stands for the ZeroDivisionError of a window that no interval covers. */
  method Means(all: seq<Interval>, width: real, discard: real) returns (out: Option<seq<real>>)
    requires width > 0.0
    ensures var ivs := Kept(all, discard);
            var wins := WindowsOf(discard, width, Count(discard, width, LastEnd(ivs)));
            && (out.None? <==> exists k | 0 <= k < |wins| :: Covered(ivs, wins[k].lo, wins[k].hi) == 0.0)
            && (out.Some? ==> MeansOf(ivs, wins, out.value))
  {
    var ivs := Kept(all, discard);
    var last := LastEnd(ivs);
    ghost var wins := WindowsOf(discard, width, Count(discard, width, last));
    var means: seq<real>, k: nat := [], 0;
    while true
      invariant k == |means| <= |wins|
      invariant forall j | 0 <= j < k :: IsMean(ivs, wins[j], means[j])
      decreases |wins| - k
    {
      var lo, hi := Edge(discard, width, k), Edge(discard, width, k + 1);
      CountBounds(discard, width, last, k);
      if hi > last + 0.000001 {
        return Some(means);
      }
      assert wins[k] == Window(lo, hi);
      var covered := Covered(ivs, lo, hi);
      if covered == 0.0 {
        return None;
      }
      means := means + [Round6(Data(ivs, lo, hi) / covered)];
      k := k + 1;
    }
  }

  // ---------------------------------------------------------------- each mean

  ghost predicate Positive(ivs: seq<Interval>) {
    forall i | 0 <= i < |ivs| :: ivs[i].start < ivs[i].end
  }

  /** Clamping to the discard leaves every kept interval a positive length, and its rate. */
  lemma {:induction false} KeptPositive(ivs: seq<Interval>, discard: real)
    requires Positive(ivs)
    ensures Positive(Kept(ivs, discard))
    ensures NoNegativeRate(ivs) ==> NoNegativeRate(Kept(ivs, discard))
  {
    if ivs != [] {
      KeptPositive(ivs[..|ivs| - 1], discard);
    }
  }

  ghost predicate RatesWithin(ivs: seq<Interval>, lo: real, hi: real, least: real, most: real) {
    forall i | 0 <= i < |ivs| && Touches(ivs[i], lo, hi) :: least <= ivs[i].rate <= most
  }

  lemma {:induction false} CoveredIff(ivs: seq<Interval>, lo: real, hi: real)
    requires Positive(ivs) && lo < hi
    ensures Covered(ivs, lo, hi) >= 0.0
    ensures Covered(ivs, lo, hi) == 0.0 <==> forall i | 0 <= i < |ivs| :: !Touches(ivs[i], lo, hi)
  {
    var ts := Parts(ivs, lo, hi);
    assert forall i | 0 <= i < |ivs| :: ts[i] >= 0.0 && (ts[i] == 0.0 <==> !Touches(ivs[i], lo, hi));
    SumIff(ts, |ivs|);
  }

  /** A window's mean lies between the smallest and the largest rate of the intervals it touches; some interval must. */
  lemma {:induction false} MeanBetweenRates(ivs: seq<Interval>, lo: real, hi: real, least: real, most: real)
    requires Positive(ivs) && lo < hi && RatesWithin(ivs, lo, hi, least, most)
    ensures Covered(ivs, lo, hi) == 0.0 <==> forall i | 0 <= i < |ivs| :: !Touches(ivs[i], lo, hi)
    ensures Covered(ivs, lo, hi) != 0.0 ==> least <= Mean(ivs, lo, hi) <= most
  {
    CoveredIff(ivs, lo, hi);
    var ts, vs := Parts(ivs, lo, hi), Rates(ivs);
    assert forall i | 0 <= i < |ivs| :: ts[i] == 0.0 || (ts[i] > 0.0 && least <= vs[i] <= most);
    if Covered(ivs, lo, hi) != 0.0 {
      MeanBetween(ts, vs, least, most, |ivs|);
    }
  }

  // ---------------------------------------------------------------- conservation

  /** The time that [a, b] and [lo, hi] share. */
  function Overlap(a: real, b: real, lo: real, hi: real): real {
    MaxReal(0.0, MinReal(b, hi) - MaxReal(a, lo))
  }

  datatype Window = Window(lo: real, hi: real)

  /** Where the first k windows end, starting from `from`. */
  function EndOf(from: real, wins: seq<Window>, k: nat): real
    requires k <= |wins|
  {
    if k == 0 then from else wins[k - 1].hi
  }

  ghost predicate FollowsOn(from: real, wins: seq<Window>, k: nat)
    requires k < |wins|
  {
    wins[k].lo == EndOf(from, wins, k) < wins[k].hi
  }

  /** Windows one after the other from `from` on. */
  ghost predicate Consecutive(from: real, wins: seq<Window>) {
    forall k {:trigger FollowsOn(from, wins, k)} | 0 <= k < |wins| :: FollowsOn(from, wins, k)
  }

  /** What an interval puts into the first n windows. */
  function Collected(iv: Interval, wins: seq<Window>, n: nat): real
    requires n <= |wins|
  {
    if n == 0 then 0.0 else Collected(iv, wins, n - 1) + Part(iv, wins[n - 1].lo, wins[n - 1].hi)
  }

  /** The time that an interval may lose in a stretch: what lies there within 1e-9 of its ends. */
  function Lost(iv: Interval, from: real, to: real): real {
    Overlap(iv.end - 0.000000001, iv.end, from, to) + Overlap(iv.start, iv.start + 0.000000001, from, to)
  }

  /** A window misses an interval only within 1e-9 of one of its ends. */
  lemma {:induction false} PartOrNearEnd(iv: Interval, lo: real, hi: real)
    requires iv.start < iv.end && lo < hi
    ensures Part(iv, lo, hi) <= Overlap(iv.start, iv.end, lo, hi)
    ensures Overlap(iv.start, iv.end, lo, hi) <= Part(iv, lo, hi) + Lost(iv, lo, hi)
  {
  }

  lemma {:induction false} OverlapAdds(a: real, b: real, x: real, y: real, z: real)
    requires a <= b && x <= y <= z
    ensures Overlap(a, b, x, z) == Overlap(a, b, x, y) + Overlap(a, b, y, z)
  {
  }

  lemma {:induction false} LossIsSmall(iv: Interval, from: real, to: real)
    ensures Lost(iv, from, to) <= 0.000000002
  {
  }

  /** Over all its windows an interval loses only what lies within 1e-9 of its ends: the losses telescope too. */
  lemma {:induction false} CollectedIsOverlap(iv: Interval, from: real, wins: seq<Window>, n: nat)
    requires iv.start < iv.end && Consecutive(from, wins) && n <= |wins|
    ensures var to := EndOf(from, wins, n);
            var whole := Overlap(iv.start, iv.end, from, to);
            && from <= to
            && Collected(iv, wins, n) <= whole <= Collected(iv, wins, n) + Lost(iv, from, to)
  {
    if n > 0 {
      CollectedIsOverlap(iv, from, wins, n - 1);
      assert FollowsOn(from, wins, n - 1);
      var lo, hi := wins[n - 1].lo, wins[n - 1].hi;
      PartOrNearEnd(iv, lo, hi);
      OverlapAdds(iv.start, iv.end, from, lo, hi);
      LostAdds(iv, from, lo, hi);
    }
  }

  lemma {:induction false} LostAdds(iv: Interval, x: real, y: real, z: real)
    requires x <= y <= z
    ensures Lost(iv, x, z) == Lost(iv, x, y) + Lost(iv, y, z)
  {
    OverlapAdds(iv.end - 0.000000001, iv.end, x, y, z);
    OverlapAdds(iv.start, iv.start + 0.000000001, x, y, z);
  }

  /** The data of each window, as the code takes it. */
  function DataOf(ivs: seq<Interval>, wins: seq<Window>): (ds: seq<real>)
    ensures |ds| == |wins| && forall k | 0 <= k < |ds| :: ds[k] == Data(ivs, wins[k].lo, wins[k].hi)
  {
    seq(|wins|, k requires 0 <= k < |wins| => Data(ivs, wins[k].lo, wins[k].hi))
  }

  function CoveredOf(ivs: seq<Interval>, wins: seq<Window>): (cs: seq<real>)
    ensures |cs| == |wins| && forall k | 0 <= k < |cs| :: cs[k] == Covered(ivs, wins[k].lo, wins[k].hi)
  {
    seq(|wins|, k requires 0 <= k < |wins| => Covered(ivs, wins[k].lo, wins[k].hi))
  }

  function AllCollected(ivs: seq<Interval>, wins: seq<Window>, n: nat): (ts: seq<real>)
    requires n <= |wins|
    ensures |ts| == |ivs| && forall i | 0 <= i < |ivs| :: ts[i] == Collected(ivs[i], wins, n)
  {
    seq(|ivs|, i requires 0 <= i < |ivs| => Collected(ivs[i], wins, n))
  }

  lemma {:induction false} OneMoreWindow(ivs: seq<Interval>, wins: seq<Window>, n: nat)
    requires n < |wins|
    ensures Dot(AllCollected(ivs, wins, n + 1), Rates(ivs), |ivs|)
         == Dot(AllCollected(ivs, wins, n), Rates(ivs), |ivs|) + Data(ivs, wins[n].lo, wins[n].hi)
  {
    DotPlus(AllCollected(ivs, wins, n), Parts(ivs, wins[n].lo, wins[n].hi), AllCollected(ivs, wins, n + 1),
            Rates(ivs), |ivs|);
  }

  /** The exchange of sums: windows over intervals, or intervals over windows. */
  lemma {:induction false} WindowsAreIntervals(ivs: seq<Interval>, wins: seq<Window>, n: nat)
    requires n <= |wins|
    ensures Sum(DataOf(ivs, wins), n) == Dot(AllCollected(ivs, wins, n), Rates(ivs), |ivs|)
  {
    if n == 0 {
      SumOfZeroes(AllCollected(ivs, wins, n), Rates(ivs), |ivs|);
    } else {
      WindowsAreIntervals(ivs, wins, n - 1);
      OneMoreWindow(ivs, wins, n - 1);
    }
  }

  function Overlaps(ivs: seq<Interval>, from: real, to: real): (ts: seq<real>)
    ensures |ts| == |ivs| && forall i | 0 <= i < |ivs| :: ts[i] == Overlap(ivs[i].start, ivs[i].end, from, to)
  {
    seq(|ivs|, i requires 0 <= i < |ivs| => Overlap(ivs[i].start, ivs[i].end, from, to))
  }

  /** The data the intervals hold inside [from, to]. */
  function Held(ivs: seq<Interval>, from: real, to: real): real {
    Dot(Overlaps(ivs, from, to), Rates(ivs), |ivs|)
  }

  ghost predicate NoNegativeRate(ivs: seq<Interval>) {
    forall i | 0 <= i < |ivs| :: ivs[i].rate >= 0.0
  }

  lemma {:induction false} CollectedNearOverlaps(ivs: seq<Interval>, from: real, wins: seq<Window>)
    requires Positive(ivs) && Consecutive(from, wins)
    ensures var ws, os := AllCollected(ivs, wins, |wins|), Overlaps(ivs, from, EndOf(from, wins, |wins|));
            forall i | 0 <= i < |ivs| :: ws[i] <= os[i] <= ws[i] + 0.000000002
  {
    forall i | 0 <= i < |ivs|
      ensures var c := Collected(ivs[i], wins, |wins|);
              var o := Overlap(ivs[i].start, ivs[i].end, from, EndOf(from, wins, |wins|));
              c <= o <= c + 0.000000002
    {
      CollectedIsOverlap(ivs[i], from, wins, |wins|);
      LossIsSmall(ivs[i], from, EndOf(from, wins, |wins|));
    }
  }

  lemma {:induction false} IntervalsAreHeld(ivs: seq<Interval>, from: real, wins: seq<Window>)
    requires Positive(ivs) && NoNegativeRate(ivs) && Consecutive(from, wins)
    ensures var n := |wins|;
            var collected := Dot(AllCollected(ivs, wins, n), Rates(ivs), |ivs|);
            collected <= Held(ivs, from, EndOf(from, wins, n)) <= collected + 0.000000002 * Sum(Rates(ivs), |ivs|)
  {
    CollectedNearOverlaps(ivs, from, wins);
    DotNear(AllCollected(ivs, wins, |wins|), Overlaps(ivs, from, EndOf(from, wins, |wins|)), Rates(ivs),
            0.000000002, |ivs|);
  }

  /** `m` is what the code reports for a window. */
  ghost predicate IsMean(ivs: seq<Interval>, w: Window, m: real) {
    Covered(ivs, w.lo, w.hi) != 0.0 && m == Round6(Mean(ivs, w.lo, w.hi))
  }

  ghost predicate MeansOf(ivs: seq<Interval>, wins: seq<Window>, means: seq<real>) {
    |means| == |wins| && forall k | 0 <= k < |means| :: IsMean(ivs, wins[k], means[k])
  }

  lemma {:induction false} WindowReportedIsData(ivs: seq<Interval>, w: Window, m: real)
    requires Positive(ivs) && w.lo < w.hi && IsMean(ivs, w, m)
    ensures Near(m, Covered(ivs, w.lo, w.hi), Data(ivs, w.lo, w.hi), 0.0000005)
  {
    CoveredIff(ivs, w.lo, w.hi);
    QuotientNear(m, Data(ivs, w.lo, w.hi), Covered(ivs, w.lo, w.hi), 0.0000005);
  }

  lemma {:induction false} AllReportedAreData(ivs: seq<Interval>, from: real, wins: seq<Window>, means: seq<real>)
    requires Positive(ivs) && Consecutive(from, wins) && MeansOf(ivs, wins, means)
    ensures var cs, ds := CoveredOf(ivs, wins), DataOf(ivs, wins);
            forall k | 0 <= k < |means| :: Near(means[k], cs[k], ds[k], 0.0000005)
  {
    var cs, ds := CoveredOf(ivs, wins), DataOf(ivs, wins);
    forall k | 0 <= k < |means| ensures Near(means[k], cs[k], ds[k], 0.0000005) {
      assert FollowsOn(from, wins, k);
      WindowReportedIsData(ivs, wins[k], means[k]);
    }
  }

  lemma {:induction false} ReportedIsData(ivs: seq<Interval>, from: real, wins: seq<Window>, means: seq<real>)
    requires Positive(ivs) && Consecutive(from, wins) && MeansOf(ivs, wins, means)
    ensures var n, cs := |means|, CoveredOf(ivs, wins);
            -0.0000005 * Sum(cs, n) <= Dot(means, cs, n) - Sum(DataOf(ivs, wins), n) <= 0.0000005 * Sum(cs, n)
  {
    AllReportedAreData(ivs, from, wins, means);
    ProductsNear(means, CoveredOf(ivs, wins), DataOf(ivs, wins), 0.0000005, |means|);
  }

  function WindowsOf(discard: real, width: real, n: nat): (wins: seq<Window>)
    ensures |wins| == n
    ensures forall k | 0 <= k < n :: wins[k] == Window(Edge(discard, width, k), Edge(discard, width, k + 1))
  {
    seq(n, k requires 0 <= k < n => Window(Edge(discard, width, k), Edge(discard, width, k + 1)))
  }

  lemma {:induction false} NextEdge(discard: real, width: real, k: nat)
    requires width > 0.0
    ensures Edge(discard, width, k) < Edge(discard, width, k + 1)
  {
    Distribute(k as real, 1.0, width);
    assert (k + 1) as real == k as real + 1.0;
  }

  lemma {:induction false} EdgesFollowOn(discard: real, width: real, n: nat)
    requires width > 0.0
    ensures Consecutive(discard, WindowsOf(discard, width, n))
    ensures EndOf(discard, WindowsOf(discard, width, n), n) == Edge(discard, width, n)
  {
    var wins := WindowsOf(discard, width, n);
    forall k | 0 <= k < n ensures FollowsOn(discard, wins, k) {
      NextEdge(discard, width, k);
    }
  }

  /** The data that one interval holds inside [from, to]. */
  function Amount(iv: Interval, from: real, to: real): real {
    Overlap(iv.start, iv.end, from, to) * iv.rate
  }

  function AllRates(ivs: seq<Interval>): real {
    Sum(Rates(ivs), |ivs|)
  }

  lemma {:induction false} ListsOneMore(ivs: seq<Interval>, iv: Interval, from: real, to: real)
    ensures Overlaps(ivs + [iv], from, to) == Overlaps(ivs, from, to) + [Overlap(iv.start, iv.end, from, to)]
    ensures Rates(ivs + [iv]) == Rates(ivs) + [iv.rate]
  {
  }

  lemma {:induction false} HeldOneMore(ivs: seq<Interval>, iv: Interval, from: real, to: real)
    ensures Held(ivs + [iv], from, to) == Held(ivs, from, to) + Amount(iv, from, to)
    ensures AllRates(ivs + [iv]) == AllRates(ivs) + iv.rate
  {
    ListsOneMore(ivs, iv, from, to);
    DotOneMore(Overlaps(ivs, from, to), Rates(ivs), Overlap(iv.start, iv.end, from, to), iv.rate);
  }

  /** A kept interval loses nothing from the discard on; a dropped one has at most 1e-9 s there. */
  lemma {:induction false} ClampedHolds(iv: Interval, discard: real, to: real)
    requires iv.start < iv.end && iv.rate >= 0.0 && discard <= to
    ensures IsKept(iv, discard) ==> Amount(iv, discard, to) == Amount(Clamped(iv, discard), discard, to)
    ensures !IsKept(iv, discard) ==> Between(0.0, Amount(iv, discard, to), 0.000000001 * iv.rate)
  {
    if !IsKept(iv, discard) {
      AtMost(iv, discard, to, Overlap(iv.start, iv.end, discard, to), 0.000000001);
    }
  }

  lemma {:induction false} AtMost(iv: Interval, from: real, to: real, t: real, most: real)
    requires iv.rate >= 0.0 && t == Overlap(iv.start, iv.end, from, to) && t <= most
    ensures Between(0.0, Amount(iv, from, to), most * iv.rate)
  {
    Scale(iv.rate, 0.0, t);
    Scale(iv.rate, t, most);
  }

  /** `part` of what `whole` holds, all but 1e-9 s at the rates that only `whole` has. */
  ghost predicate HoldsNearly(part: seq<Interval>, whole: seq<Interval>, from: real, to: real) {
    var dropped := AllRates(whole) - AllRates(part);
    dropped >= 0.0 && Held(part, from, to) <= Held(whole, from, to) <= Held(part, from, to) + 0.000000001 * dropped
  }

  lemma {:induction false} HoldsOneMore(part: seq<Interval>, whole: seq<Interval>, iv: Interval, discard: real,
                                        to: real)
    requires HoldsNearly(part, whole, discard, to) && iv.start < iv.end && iv.rate >= 0.0 && discard <= to
    ensures HoldsNearly(if IsKept(iv, discard) then part + [Clamped(iv, discard)] else part, whole + [iv], discard, to)
  {
    HeldOneMore(whole, iv, discard, to);
    HeldOneMore(part, Clamped(iv, discard), discard, to);
    ClampedHolds(iv, discard, to);
  }

  /** What the first filter drops is at most 1e-9 s of each interval it drops. */
  lemma {:induction false} KeptHolds(all: seq<Interval>, discard: real, to: real)
    requires Positive(all) && NoNegativeRate(all) && discard <= to
    ensures HoldsNearly(Kept(all, discard), all, discard, to)
  {
    if all != [] {
      var front, last := all[..|all| - 1], all[|all| - 1];
      KeptHolds(front, discard, to);
      HoldsOneMore(Kept(front, discard), front, last, discard, to);
      assert all == front + [last];
    }
  }

  lemma {:induction false} EdgesGrow(discard: real, width: real, n: nat)
    requires width > 0.0
    ensures discard <= Edge(discard, width, n)
  {
    Scale(width, 0.0, n as real);
  }

  lemma {:induction false} KeptConserve(all: seq<Interval>, discard: real, width: real, means: seq<real>)
    requires Positive(all) && NoNegativeRate(all) && width > 0.0
    requires MeansOf(Kept(all, discard), WindowsOf(discard, width, |means|), means)
    ensures var ivs, n := Kept(all, discard), |means|;
            var covered := CoveredOf(ivs, WindowsOf(discard, width, n));
            var reported, held := Dot(means, covered, n), Held(ivs, discard, Edge(discard, width, n));
            var rounding, filters := 0.0000005 * Sum(covered, n), 0.000000002 * Sum(Rates(ivs), |ivs|);
            held - filters - rounding <= reported <= held + rounding
  {
    var ivs, n := Kept(all, discard), |means|;
    var wins := WindowsOf(discard, width, n);
    KeptPositive(all, discard);
    EdgesFollowOn(discard, width, n);
    ReportedIsData(ivs, discard, wins, means);
    WindowsAreIntervals(ivs, wins, n);
    IntervalsAreHeld(ivs, discard, wins);
  }

  /**
    Conservation: means times covered times add up to the data that all intervals hold in the windows, up to
    half a millionth per covered second of rounding and 2e-9 s of each interval for the filters.
    */
  lemma {:induction false} WindowsConserve(all: seq<Interval>, discard: real, width: real, means: seq<real>)
    requires Positive(all) && NoNegativeRate(all) && width > 0.0
    requires MeansOf(Kept(all, discard), WindowsOf(discard, width, |means|), means)
    ensures var n := |means|;
            var covered := CoveredOf(Kept(all, discard), WindowsOf(discard, width, n));
            var reported, held := Dot(means, covered, n), Held(all, discard, Edge(discard, width, n));
            var rounding, filters := 0.0000005 * Sum(covered, n), 0.000000002 * Sum(Rates(all), |all|);
            held - filters - rounding <= reported <= held + rounding
  {
    KeptConserve(all, discard, width, means);
    EdgesGrow(discard, width, |means|);
    KeptHolds(all, discard, Edge(discard, width, |means|));
  }
}
