/** The gap check of experiments/validation/check_run.py, lines 367 to 380. */
module GapCheck {
  import opened Bytes
  import opened Bisect

  const MAX_GAP := 2.0

  datatype Window = Window(a: real, b: real)

  predicate Holds(w: Window, x: real) {
    w.a <= x <= w.b
  }

  /** Within the window or just outside. */
  predicate Near(w: Window, x: real) {
    w.a - MAX_GAP <= x <= w.b + MAX_GAP
  }

  function NearOnes(w: Window, times: seq<real>): (r: seq<real>)
    ensures forall x :: x in r <==> x in times && Near(w, x)
  {
    if times == [] then []
    else if Near(w, times[0]) then [times[0]] + NearOnes(w, times[1..])
    else NearOnes(w, times[1..])
  }

  lemma {:induction false} ConsSorted(y: real, rest: seq<real>)
    requires Sorted(rest) && (rest == [] || y <= rest[0])
    ensures Sorted([y] + rest)
  {
    assert forall j | 0 <= j < |rest| :: rest[0] <= rest[j];
  }

  function Insert(x: real, s: seq<real>): (r: seq<real>)
    requires Sorted(s)
    ensures multiset(r) == multiset(s) + multiset{x}
    ensures Sorted(r)
    ensures r[0] == x || (s != [] && r[0] == s[0])
  {
    if s == [] then [x]
    else if x <= s[0] then ConsSorted(x, s); [x] + s
    else
      assert s == [s[0]] + s[1..];
      var rest := Insert(x, s[1..]);
      ConsSorted(s[0], rest);
      [s[0]] + rest
  }

  function InOrder(s: seq<real>): (r: seq<real>)
    ensures multiset(r) == multiset(s) && Sorted(r)
  {
    if s == [] then [] else
    assert s == [s[0]] + s[1..];
    Insert(s[0], InOrder(s[1..]))
  }

  function Edges(w: Window, times: seq<real>): (e: seq<real>)
    ensures |e| >= 2
  {
    [w.a] + InOrder(NearOnes(w, times)) + [w.b]
  }

  function Step(e: seq<real>, i: nat): real
    requires i + 1 < |e|
  {
    e[i + 1] - e[i]
  }

  function Worst(e: seq<real>): (r: real)
    requires |e| >= 2
    ensures forall i | 0 <= i < |e| - 1 :: Step(e, i) <= r
    ensures exists i | 0 <= i < |e| - 1 :: Step(e, i) == r
  {
    if |e| == 2 then Step(e, 0) else
    var front := e[..|e| - 1];
    var rest, last := Worst(front), Step(e, |e| - 2);
    assert forall i | 0 <= i < |e| - 2 :: Step(front, i) == Step(e, i);
    assert exists i | 0 <= i < |e| - 2 :: Step(front, i) == rest && Step(e, i) == rest;
    if last > rest then last else rest
  }

  predicate Examined(w: Window, times: seq<real>, onlyPresent: bool) {
    onlyPresent ==> exists i | 0 <= i < |times| :: Holds(w, times[i])
  }

  // ---------------------------------------------------------------- what a silent check means

  ghost predicate Within(x: real, u: real, v: real) {
    u <= x <= v
  }

  ghost predicate HasSample(times: seq<real>, u: real, v: real) {
    exists x :: x in times && Within(x, u, v)
  }

  /** Every stretch of [lo, hi] longer than 2 s contains a sample. */
  ghost predicate Covered(times: seq<real>, lo: real, hi: real) {
    forall u, v | lo <= u && v <= hi && v - u > MAX_GAP :: HasSample(times, u, v)
  }

  lemma {:induction false} Crossing(e: seq<real>, i: nat, j: nat, u: real) returns (k: nat)
    requires i <= j < |e| && e[i] <= u < e[j]
    ensures i <= k < j && e[k] <= u < e[k + 1]
    decreases j - i
  {
    if e[i + 1] <= u {
      k := Crossing(e, i + 1, j, u);
    } else {
      k := i;
    }
  }

  /** Between an edge at or before a stretch and one at or after it, some step is as long as the stretch. */
  lemma {:induction false} StretchIsInAStep(t: seq<real>, e: seq<real>, i: nat, j: nat, u: real, v: real)
    requires i <= j < |e| && e[i] <= u < v <= e[j]
    requires forall k | i < k < j :: e[k] in t
    requires !HasSample(t, u, v)
    ensures exists k | 0 <= k < |e| - 1 :: Step(e, k) >= v - u
  {
    var k := Crossing(e, i, j, u);
    assert e[k + 1] >= v by {
      if k + 1 < j {
        assert e[k + 1] in t && !Within(e[k + 1], u, v);
      }
    }
    assert Step(e, k) >= v - u;
  }

  /** `e` is a, the samples `t` in order, b. */
  ghost predicate AreEdges(e: seq<real>, t: seq<real>, w: Window) {
    && |e| >= 2 && e[0] == w.a && e[|e| - 1] == w.b
    && (forall i, j | 0 < i < j < |e| - 1 :: e[i] <= e[j])
    && (forall i | 0 < i < |e| - 1 :: e[i] in t)
    && (forall x | x in t :: InMiddle(e, x))
  }

  ghost predicate InMiddle(e: seq<real>, x: real) {
    exists i :: 0 < i < |e| - 1 && e[i] == x
  }

  lemma {:induction false} EdgesAre(w: Window, times: seq<real>)
    ensures AreEdges(Edges(w, times), NearOnes(w, times), w)
  {
    var t, e := NearOnes(w, times), Edges(w, times);
    var s := InOrder(t);
    assert forall i | 0 < i < |e| - 1 :: e[i] == s[i - 1];
    forall i | 0 < i < |e| - 1 ensures e[i] in t {
      assert e[i] in multiset(s);
    }
    forall x | x in t ensures InMiddle(e, x) {
      assert x in multiset(t);
      var k :| 0 <= k < |s| && s[k] == x;
      assert e[k + 1] == x;
    }
  }

  /** Soundness: a window with no step above 2 s has a sample in every stretch of it longer than 2 s. */
  lemma {:induction false} SilentWindowIsCovered(w: Window, times: seq<real>)
    requires Worst(Edges(w, times)) <= MAX_GAP
    ensures Covered(times, w.a, w.b)
  {
    var t, e := NearOnes(w, times), Edges(w, times);
    EdgesAre(w, times);
    forall u, v | w.a <= u && v <= w.b && v - u > MAX_GAP ensures HasSample(times, u, v) {
      if !HasSample(times, u, v) {
        assert !HasSample(t, u, v);
        StretchIsInAStep(t, e, 0, |e| - 1, u, v);
      }
    }
  }

  /** The stretch that the steps span: the window, and the samples just outside it. */
  function HullStart(e: seq<real>): real
    requires |e| >= 2
  {
    if |e| > 2 && e[1] < e[0] then e[1] else e[0]
  }

  function HullEnd(e: seq<real>): real
    requires |e| >= 2
  {
    if |e| > 2 && e[|e| - 2] > e[|e| - 1] then e[|e| - 2] else e[|e| - 1]
  }

  lemma {:induction false} HullIs(e: seq<real>, t: seq<real>, w: Window)
    requires AreEdges(e, t, w)
    ensures HullStart(e) <= w.a && w.b <= HullEnd(e) && forall x | x in t :: HullStart(e) <= x <= HullEnd(e)
    ensures HullStart(e) == w.a || HullStart(e) in t
    ensures HullEnd(e) == w.b || HullEnd(e) in t
  {
    forall x | x in t ensures HullStart(e) <= x <= HullEnd(e) {
      assert InMiddle(e, x);
    }
  }

  lemma {:induction false} SmallStepsCoverHull(e: seq<real>, t: seq<real>, w: Window)
    requires AreEdges(e, t, w) && Worst(e) <= MAX_GAP
    ensures Covered(t, HullStart(e), HullEnd(e))
  {
    var i := if |e| > 2 && e[1] < e[0] then 1 else 0;
    var j := if |e| > 2 && e[|e| - 2] > e[|e| - 1] then |e| - 2 else |e| - 1;
    forall u, v | e[i] <= u && v <= e[j] && v - u > MAX_GAP ensures HasSample(t, u, v) {
      if !HasSample(t, u, v) {
        StretchIsInAStep(t, e, i, j, u, v);
      }
    }
  }

  /** No sample lies inside a step. */
  lemma {:induction false} NothingInAStep(e: seq<real>, t: seq<real>, w: Window, k: nat, x: real)
    requires AreEdges(e, t, w) && k < |e| - 1 && x in t
    ensures (k > 0 && x <= e[k]) || (k < |e| - 2 && x >= e[k + 1])
  {
    assert InMiddle(e, x);
    var m :| 0 < m < |e| - 1 && e[m] == x;
  }

  lemma {:induction false} LargeStepIsUncovered(e: seq<real>, t: seq<real>, w: Window, k: nat)
    requires AreEdges(e, t, w) && k < |e| - 1 && Step(e, k) > MAX_GAP
    ensures !Covered(t, HullStart(e), HullEnd(e))
  {
    var margin := (Step(e, k) - MAX_GAP) / 4.0;
    var u, v := e[k] + margin, e[k + 1] - margin;
    HullIs(e, t, w);
    forall x | x in t ensures !Within(x, u, v) {
      NothingInAStep(e, t, w, k, x);
    }
    assert !HasSample(t, u, v);
  }

  /**
    The check of one window is silent exactly when every stretch of the hull longer than 2 s has a sample in or
    near the window.
    */
  lemma {:induction false} SilentIff(w: Window, times: seq<real>)
    ensures var e := Edges(w, times);
            Worst(e) <= MAX_GAP <==> Covered(NearOnes(w, times), HullStart(e), HullEnd(e))
  {
    var t, e := NearOnes(w, times), Edges(w, times);
    EdgesAre(w, times);
    if Worst(e) <= MAX_GAP {
      SmallStepsCoverHull(e, t, w);
    } else {
      var k :| 0 <= k < |e| - 1 && Step(e, k) == Worst(e);
      LargeStepIsUncovered(e, t, w, k);
    }
  }

  lemma {:induction false} CoveredByNear(w: Window, times: seq<real>)
    ensures Covered(NearOnes(w, times), w.a, w.b) <==> Covered(times, w.a, w.b)
  {
    var t := NearOnes(w, times);
    forall u, v | w.a <= u && v <= w.b ensures HasSample(t, u, v) <==> HasSample(times, u, v) {
      if HasSample(times, u, v) {
        var x :| x in times && Within(x, u, v);
        assert x in t;
      }
    }
  }

  /** With no sample just outside the window, it is silent exactly when the window is covered. */
  lemma {:induction false} SilentIffCovered(w: Window, times: seq<real>)
    requires forall x | x in times && Near(w, x) :: Holds(w, x)
    ensures Worst(Edges(w, times)) <= MAX_GAP <==> Covered(times, w.a, w.b)
  {
    EdgesAre(w, times);
    HullIs(Edges(w, times), NearOnes(w, times), w);
    SilentIff(w, times);
    CoveredByNear(w, times);
  }

  lemma {:induction false} NotCovered(t: seq<real>, lo: real, hi: real, u: real, v: real)
    requires lo <= u && v <= hi && v - u > MAX_GAP && forall x | x in t :: !Within(x, u, v)
    ensures !Covered(t, lo, hi)
  {
    assert !HasSample(t, u, v);
  }

  /** A sample just outside can raise a false alarm: the window is covered, but a step across its start is too long. */
  lemma {:induction false} FalseAlarm(w: Window, times: seq<real>)
    requires w == Window(0.0, 1.0) && times == [-2.0, 0.5]
    ensures Covered(times, w.a, w.b) && Worst(Edges(w, times)) > MAX_GAP
  {
    var t, e := NearOnes(w, times), Edges(w, times);
    EdgesAre(w, times);
    HullIs(e, t, w);
    assert times[0] in t;
    NotCovered(t, HullStart(e), HullEnd(e), -1.75, 0.3);
    SilentIff(w, times);
  }

  ghost predicate Fails(w: Window, times: seq<real>, onlyPresent: bool) {
    Examined(w, times, onlyPresent) && Worst(Edges(w, times)) > MAX_GAP
  }

  ghost predicate NoneFails(windows: seq<Window>, times: seq<real>, onlyPresent: bool, n: nat)
    requires n <= |windows|
  {
    forall j | 0 <= j < n :: !Fails(windows[j], times, onlyPresent)
  }

  ghost predicate AllCovered(windows: seq<Window>, times: seq<real>, onlyPresent: bool) {
    forall k | 0 <= k < |windows| && Examined(windows[k], times, onlyPresent) ::
        Covered(times, windows[k].a, windows[k].b)
  }

  /** The worst gap of the first examined window that has too long a one, which is window number `at`. */
  method Gap(windows: seq<Window>, times: seq<real>, onlyPresent: bool) returns (found: Option<real>, ghost at: nat)
    ensures at <= |windows| && (found.None? <==> at == |windows|)
    ensures NoneFails(windows, times, onlyPresent, at)
    ensures found.None? ==> AllCovered(windows, times, onlyPresent)
    ensures found.Some? ==> Fails(windows[at], times, onlyPresent) && found.value == Worst(Edges(windows[at], times))
  {
    for k := 0 to |windows|
      invariant NoneFails(windows, times, onlyPresent, k)
    {
      if Examined(windows[k], times, onlyPresent) {
        var worst := Worst(Edges(windows[k], times));
        if worst > MAX_GAP {
          return Some(worst), k;
        }
      }
    }
    found, at := None, |windows|;
    SilentWindowsAreCovered(windows, times, onlyPresent);
  }

  lemma {:induction false} SilentWindowsAreCovered(windows: seq<Window>, times: seq<real>, onlyPresent: bool)
    requires NoneFails(windows, times, onlyPresent, |windows|)
    ensures AllCovered(windows, times, onlyPresent)
  {
    forall k | 0 <= k < |windows| && Examined(windows[k], times, onlyPresent)
      ensures Covered(times, windows[k].a, windows[k].b)
    {
      assert !Fails(windows[k], times, onlyPresent);
      SilentWindowIsCovered(windows[k], times);
    }
  }
}
