/**
  The footprint groups of experiments/resource-use/footprint.py: each pod's samples become step
  functions, and a group's value at a grid point is the sum of its pods', looked up by bisection.
  */
module Footprint {
  import opened Bytes
  import opened Bisect
  import opened Rounding

  /** Time in seconds, CPU used so far in microseconds, memory in bytes. */
  datatype Sample = Sample(t: real, usage: int, memory: int)

  /** The CPU rate in millicores over (start, end]. */
  datatype Step = Step(start: real, end: real, value: real)

  /** A pod as `_steps` returns it: parallel lists, so that two of them can be bisected. */
  datatype Lists = Lists(starts: seq<real>, ends: seq<real>, values: seq<real>, times: seq<real>, mib: seq<real>)

  type Pod = p: Lists | |p.starts| == |p.ends| == |p.values| && |p.times| == |p.mib| witness Lists([], [], [], [], [])

  /** A pair of consecutive samples that gives an interval: time went on and the counter did not fall. */
  predicate Counts(a: Sample, b: Sample) {
    b.t > a.t && b.usage >= a.usage
  }

  function StepOf(a: Sample, b: Sample): Step
    requires b.t > a.t
  {
    Step(a.t, b.t, (b.usage - a.usage) as real / (b.t - a.t) / 1000.0)
  }

  /** The intervals among the first n samples. */
  function StepsOf(s: seq<Sample>, n: nat): (r: seq<Step>)
    requires n <= |s|
  {
    if n < 2 then [] else
    var before := StepsOf(s, n - 1);
    if Counts(s[n - 2], s[n - 1]) then before + [StepOf(s[n - 2], s[n - 1])] else before
  }

  ghost predicate IsPodOf(p: Lists, s: seq<Sample>) {
    && IsStepsOf(p, StepsOf(s, |s|))
    && |p.times| == |p.mib| == |s|
    && forall i | 0 <= i < |s| :: p.times[i] == s[i].t && p.mib[i] == s[i].memory as real / 1048576.0
  }

  ghost predicate IsStepsOf(p: Lists, steps: seq<Step>) {
    && |p.starts| == |p.ends| == |p.values| == |steps|
    && forall i | 0 <= i < |steps| :: Step(p.starts[i], p.ends[i], p.values[i]) == steps[i]
  }

  // ---------------------------------------------------------------- the code

  method Steps(s: seq<Sample>) returns (p: Pod)
    ensures IsPodOf(p, s)
  {
    var starts: seq<real>, ends: seq<real>, values: seq<real> := [], [], [];
    var times: seq<real>, mib: seq<real> := [], [];
    for i := 0 to |s|
      invariant IsStepsOf(Lists(starts, ends, values, [], []), StepsOf(s, i))
      invariant |times| == |mib| == i
      invariant forall j | 0 <= j < i :: times[j] == s[j].t && mib[j] == s[j].memory as real / 1048576.0
    {
      if i > 0 && Counts(s[i - 1], s[i]) {
        var step := StepOf(s[i - 1], s[i]);
        starts, ends, values := starts + [step.start], ends + [step.end], values + [step.value];
      }
      times, mib := times + [s[i].t], mib + [s[i].memory as real / 1048576.0];
    }
    p := Lists(starts, ends, values, times, mib);
  }

  /** The CPU of a pod at a grid point, by bisection over the interval ends. */
  function CpuAt(p: Pod, g: real): Option<real>
  {
    var i := BisectLeft(p.ends, g);
    if i < |p.ends| && p.starts[i] < g then Some(p.values[i]) else None
  }

  /** The last memory sample of a pod at a grid point, no older than 1.5 s. */
  function MemoryAt(p: Pod, g: real): Option<real>
  {
    var k := BisectRight(p.times, g);
    if k > 0 && g - p.times[k - 1] <= 1.5 then Some(p.mib[k - 1]) else None
  }

  /** `(c or 0.0) + v`, with nothing to add leaving None. */
  function Plus(x: Option<real>, y: Option<real>): Option<real> {
    if y.None? then x else if x.None? then y else Some(x.value + y.value)
  }

  function GroupCpu(pods: seq<Pod>, g: real): Option<real> {
    if pods == [] then None else Plus(GroupCpu(pods[..|pods| - 1], g), CpuAt(pods[|pods| - 1], g))
  }

  function GroupMemory(pods: seq<Pod>, g: real): Option<real> {
    if pods == [] then None else Plus(GroupMemory(pods[..|pods| - 1], g), MemoryAt(pods[|pods| - 1], g))
  }

  function Shown(before: seq<real>, x: Option<real>): seq<real> {
    if x.None? then before else before + [Round3(x.value)]
  }

  /** The rounded values at the grid points that have one. */
  function CpuOver(pods: seq<Pod>, grid: seq<real>): seq<real> {
    if grid == [] then [] else Shown(CpuOver(pods, grid[..|grid| - 1]), GroupCpu(pods, grid[|grid| - 1]))
  }

  function MemoryOver(pods: seq<Pod>, grid: seq<real>): seq<real> {
    if grid == [] then [] else Shown(MemoryOver(pods, grid[..|grid| - 1]), GroupMemory(pods, grid[|grid| - 1]))
  }

  lemma {:induction false} GroupStep(pods: seq<Pod>, g: real, k: nat)
    requires k < |pods|
    ensures GroupCpu(pods[..k + 1], g) == Plus(GroupCpu(pods[..k], g), CpuAt(pods[k], g))
    ensures GroupMemory(pods[..k + 1], g) == Plus(GroupMemory(pods[..k], g), MemoryAt(pods[k], g))
  {
    assert pods[..k + 1][..k] == pods[..k];
  }

  lemma {:induction false} OverStep(pods: seq<Pod>, grid: seq<real>, i: nat)
    requires i < |grid|
    ensures CpuOver(pods, grid[..i + 1]) == Shown(CpuOver(pods, grid[..i]), GroupCpu(pods, grid[i]))
    ensures MemoryOver(pods, grid[..i + 1]) == Shown(MemoryOver(pods, grid[..i]), GroupMemory(pods, grid[i]))
  {
    assert grid[..i + 1][..i] == grid[..i];
  }

  /** What one pod adds to the sums at a grid point. */
  method AddPod(p: Pod, g: real, c0: Option<real>, m0: Option<real>) returns (c: Option<real>, m: Option<real>)
    ensures c == Plus(c0, CpuAt(p, g)) && m == Plus(m0, MemoryAt(p, g))
  {
    c, m := c0, m0;
    var i := BisectLeft(p.ends, g);
    if i < |p.ends| && p.starts[i] < g {
      c := Some((if c.Some? then c.value else 0.0) + p.values[i]);
    }
    var j := BisectRight(p.times, g) - 1;
    if j >= 0 && g - p.times[j] <= 1.5 {
      m := Some((if m.Some? then m.value else 0.0) + p.mib[j]);
    }
  }

  method AtPoint(pods: seq<Pod>, g: real) returns (c: Option<real>, m: Option<real>)
    ensures c == GroupCpu(pods, g) && m == GroupMemory(pods, g)
  {
    c, m := None, None;
    for k := 0 to |pods|
      invariant c == GroupCpu(pods[..k], g) && m == GroupMemory(pods[..k], g)
    {
      GroupStep(pods, g, k);
      c, m := AddPod(pods[k], g, c, m);
    }
    assert pods[..|pods|] == pods;
  }

  method Group(pods: seq<Pod>, grid: seq<real>) returns (cpu: seq<real>, memory: seq<real>)
    ensures cpu == CpuOver(pods, grid) && memory == MemoryOver(pods, grid)
  {
    cpu, memory := [], [];
    for i := 0 to |grid|
      invariant cpu == CpuOver(pods, grid[..i]) && memory == MemoryOver(pods, grid[..i])
    {
      var c, m := AtPoint(pods, grid[i]);
      OverStep(pods, grid, i);
      if c.Some? {
        cpu := cpu + [Round3(c.value)];
      }
      if m.Some? {
        memory := memory + [Round3(m.value)];
      }
    }
    assert grid[..|grid|] == grid;
  }

  // ---------------------------------------------------------------- the lookup

  ghost predicate InTimeOrder(s: seq<Sample>) {
    forall i, j | 0 <= i < j < |s| :: s[i].t <= s[j].t
  }

  ghost predicate HoldsPoint(x: Step, g: real) {
    x.start < g <= x.end
  }

  /** Intervals of positive length, one after the other. */
  ghost predicate Ordered(steps: seq<Step>) {
    && (forall i | 0 <= i < |steps| :: steps[i].start < steps[i].end)
    && (forall i, j | 0 <= i < j < |steps| :: steps[i].end <= steps[j].start)
  }

  lemma {:induction false} StepsAreOrdered(s: seq<Sample>, n: nat)
    requires n <= |s| && InTimeOrder(s)
    ensures Ordered(StepsOf(s, n))
    ensures n > 0 ==> forall i | 0 <= i < |StepsOf(s, n)| :: StepsOf(s, n)[i].end <= s[n - 1].t
  {
    if n >= 2 {
      StepsAreOrdered(s, n - 1);
    }
  }

  /** The plain way: the first interval that holds the point. */
  function Scan(steps: seq<Step>, g: real): Option<real> {
    if steps == [] then None
    else if steps[0].start < g <= steps[0].end then Some(steps[0].value)
    else Scan(steps[1..], g)
  }

  lemma {:induction false} ScanFinds(steps: seq<Step>, g: real)
    requires Ordered(steps)
    ensures match Scan(steps, g)
            case None => forall i | 0 <= i < |steps| :: !HoldsPoint(steps[i], g)
            case Some(v) => forall i | 0 <= i < |steps| && HoldsPoint(steps[i], g) :: steps[i].value == v
    ensures Scan(steps, g).Some? ==> exists i | 0 <= i < |steps| :: HoldsPoint(steps[i], g)
  {
    if steps != [] {
      var rest := steps[1..];
      assert forall i | 0 <= i < |rest| :: rest[i] == steps[i + 1];
      ScanFinds(rest, g);
      assert forall i | 0 < i < |steps| :: steps[i] == rest[i - 1];
      assert HoldsPoint(steps[0], g) ==> forall i | 0 < i < |steps| :: !HoldsPoint(steps[i], g);
    }
  }

  /** At most one interval holds a point, resets or not; bisection finds it exactly when a scan does. */
  lemma {:induction false} LookupIsScan(p: Pod, s: seq<Sample>, g: real)
    requires InTimeOrder(s) && IsPodOf(p, s)
    ensures CpuAt(p, g) == Scan(StepsOf(s, |s|), g)
    ensures forall i, j | 0 <= i < |StepsOf(s, |s|)| && 0 <= j < |StepsOf(s, |s|)| ::
              HoldsPoint(StepsOf(s, |s|)[i], g) && HoldsPoint(StepsOf(s, |s|)[j], g) ==> i == j
  {
    StepsAreOrdered(s, |s|);
    BisectIsScan(p, StepsOf(s, |s|), g);
  }

  lemma {:induction false} BisectIsScan(p: Pod, steps: seq<Step>, g: real)
    requires IsStepsOf(p, steps) && Ordered(steps)
    ensures CpuAt(p, g) == Scan(steps, g)
    ensures forall i, j | 0 <= i < |steps| && 0 <= j < |steps| ::
              HoldsPoint(steps[i], g) && HoldsPoint(steps[j], g) ==> i == j
  {
    ScanFinds(steps, g);
    forall i, j | 0 <= i < j < |p.ends| ensures p.ends[i] <= p.ends[j] {
      assert steps[i].end <= steps[j].start;
    }
    var i := BisectLeft(p.ends, g);
    if i < |p.ends| && p.starts[i] < g {
      assert HoldsPoint(steps[i], g);
    } else {
      forall j | 0 <= j < |steps| ensures !HoldsPoint(steps[j], g) {
        if j < i {
          assert p.ends[j] < g;
        } else {
          assert p.starts[i] == steps[i].start && p.starts[j] == steps[j].start;
          assert j > i ==> steps[i].end <= steps[j].start;
        }
      }
    }
  }

  /** A sample no older than 1.5 s at the point. */
  ghost predicate Recent(x: Sample, g: real) {
    g - 1.5 <= x.t <= g
  }

  lemma {:induction false} SamplesUpTo(p: Pod, s: seq<Sample>, g: real)
    requires InTimeOrder(s) && IsPodOf(p, s)
    ensures BisectRight(p.times, g) <= |s|
    ensures forall i | 0 <= i < |s| :: s[i].t <= g <==> i < BisectRight(p.times, g)
  {
    forall i, j | 0 <= i < j < |p.times| ensures p.times[i] <= p.times[j] {
      assert s[i].t <= s[j].t;
    }
    forall i | 0 <= i < |s| ensures s[i].t <= g <==> i < BisectRight(p.times, g) {
      assert p.times[i] == s[i].t;
    }
  }

  /** A pod has a memory value at a point exactly when some sample is no more than 1.5 s older. */
  lemma {:induction false} MemoryIff(p: Pod, s: seq<Sample>, g: real)
    requires InTimeOrder(s) && IsPodOf(p, s)
    ensures MemoryAt(p, g).Some? <==> exists i | 0 <= i < |s| :: Recent(s[i], g)
  {
    SamplesUpTo(p, s, g);
    var k := BisectRight(p.times, g);
    if k > 0 {
      assert s[k - 1].t == p.times[k - 1];
      forall i | 0 <= i < |s| && Recent(s[i], g) ensures Recent(s[k - 1], g) {
        assert s[i].t <= s[k - 1].t;
      }
    }
  }

  /** That value is the memory of the last sample that is not after the point. */
  lemma {:induction false} MemoryIsLastSample(p: Pod, s: seq<Sample>, g: real, i: nat)
    requires InTimeOrder(s) && IsPodOf(p, s)
    requires i < |s| && s[i].t <= g && forall j | i < j < |s| :: g < s[j].t
    ensures MemoryAt(p, g) == if g - s[i].t <= 1.5 then Some(s[i].memory as real / 1048576.0) else None
  {
    SamplesUpTo(p, s, g);
    var k := BisectRight(p.times, g);
    assert s[k - 1].t <= g;
    assert p.times[i] == s[i].t && p.mib[i] == s[i].memory as real / 1048576.0;
  }

  // ---------------------------------------------------------------- the integral

  /** CPU time under the step function, in microseconds. */
  function Integral(steps: seq<Step>): real {
    if steps == [] then 0.0 else
    var x := steps[|steps| - 1];
    Integral(steps[..|steps| - 1]) + x.value * (x.end - x.start) * 1000.0
  }

  /** What the counter did over the pairs of samples that give no interval. */
  function Skipped(s: seq<Sample>, n: nat): int
    requires n <= |s|
  {
    if n < 2 then 0
    else Skipped(s, n - 1) + if Counts(s[n - 2], s[n - 1]) then 0 else s[n - 1].usage - s[n - 2].usage
  }

  lemma {:induction false} RateTimesTime(a: Sample, b: Sample)
    requires b.t > a.t
    ensures StepOf(a, b).value * (b.t - a.t) * 1000.0 == (b.usage - a.usage) as real
  {
    var d, u := b.t - a.t, (b.usage - a.usage) as real;
    var q := u / d;
    assert q * d == u;
    assert q / 1000.0 * d * 1000.0 == q * d;
  }

  /** The integral telescopes to what the counter gained, less what it did over the pairs left out. */
  lemma {:induction false} IntegralTelescopes(s: seq<Sample>, n: nat)
    requires 0 < n <= |s|
    ensures Integral(StepsOf(s, n)) == (s[n - 1].usage - s[0].usage - Skipped(s, n)) as real
  {
    if n >= 2 {
      IntegralTelescopes(s, n - 1);
      var before := StepsOf(s, n - 1);
      if Counts(s[n - 2], s[n - 1]) {
        var x := StepOf(s[n - 2], s[n - 1]);
        assert (before + [x])[..|before|] == before;
        RateTimesTime(s[n - 2], s[n - 1]);
      }
    }
  }

  ghost predicate TimesGrow(s: seq<Sample>) {
    forall i | 0 < i < |s| :: s[i - 1].t < s[i].t
  }

  ghost predicate NeverFalls(s: seq<Sample>, n: nat)
    requires n <= |s|
  {
    forall i | 0 < i < n :: s[i - 1].usage <= s[i].usage
  }

  /** Where time does not go on from one sample to the next, the counter does not either. */
  ghost predicate StandsWithTime(s: seq<Sample>, n: nat)
    requires n <= |s|
  {
    forall i | 0 < i < n && s[i - 1].t >= s[i].t :: s[i - 1].usage == s[i].usage
  }

  lemma {:induction false} NothingSkippedIff(s: seq<Sample>, n: nat)
    requires n <= |s|
    ensures TimesGrow(s) ==> Skipped(s, n) <= 0 && (Skipped(s, n) == 0 <==> NeverFalls(s, n))
    ensures NeverFalls(s, n) ==> Skipped(s, n) >= 0 && (Skipped(s, n) == 0 <==> StandsWithTime(s, n))
  {
    if n >= 2 {
      NothingSkippedIff(s, n - 1);
    }
  }

  /**
    The integral is last minus first usage exactly when the changes over the pairs left out cancel. With every sample
    at its own time that means that the counter never fell; for a counter that never fell, that it stands still where
    time does.
    */
  lemma {:induction false} IntegralIsGrowthIff(s: seq<Sample>)
    requires s != []
    ensures var exact := Integral(StepsOf(s, |s|)) == (s[|s| - 1].usage - s[0].usage) as real;
            && (exact <==> Skipped(s, |s|) == 0)
            && (TimesGrow(s) ==> (exact <==> NeverFalls(s, |s|)))
            && (NeverFalls(s, |s|) ==> (exact <==> StandsWithTime(s, |s|)))
  {
    IntegralTelescopes(s, |s|);
    NothingSkippedIff(s, |s|);
  }

  // ---------------------------------------------------------------- groups

  lemma {:induction false} PlusAssociates(x: Option<real>, y: Option<real>, z: Option<real>)
    ensures Plus(Plus(x, y), z) == Plus(x, Plus(y, z))
  {
  }

  lemma {:induction false} LastPod(pods: seq<Pod>, p: Pod, g: real)
    ensures GroupCpu(pods + [p], g) == Plus(GroupCpu(pods, g), CpuAt(p, g))
    ensures GroupMemory(pods + [p], g) == Plus(GroupMemory(pods, g), MemoryAt(p, g))
  {
    assert (pods + [p])[..|pods|] == pods;
  }

  /** The value of a group is the sum of any two parts of it, at every grid point. */
  lemma {:induction false} GroupsAdd(ps: seq<Pod>, qs: seq<Pod>, g: real)
    ensures GroupCpu(ps + qs, g) == Plus(GroupCpu(ps, g), GroupCpu(qs, g))
    ensures GroupMemory(ps + qs, g) == Plus(GroupMemory(ps, g), GroupMemory(qs, g))
    decreases |qs|
  {
    if qs == [] {
      assert ps + qs == ps;
    } else {
      var rest, q := qs[..|qs| - 1], qs[|qs| - 1];
      assert ps + qs == (ps + rest) + [q] && qs == rest + [q];
      GroupsAdd(ps, rest, g);
      LastPod(ps + rest, q, g);
      LastPod(rest, q, g);
      PlusAssociates(GroupCpu(ps, g), GroupCpu(rest, g), CpuAt(q, g));
      PlusAssociates(GroupMemory(ps, g), GroupMemory(rest, g), MemoryAt(q, g));
    }
  }
}
