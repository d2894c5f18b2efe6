/** Binary search as Python's bisect module does it. */
module Bisect {
  ghost predicate Sorted(a: seq<real>) {
    forall i, j | 0 <= i < j < |a| :: a[i] <= a[j]
  }

  /** The first position of a sorted list whose element exceeds `x`. */
  function BisectRight(a: seq<real>, x: real): (k: nat)
    ensures k <= |a|
    ensures Sorted(a) ==> (forall i | 0 <= i < k :: a[i] <= x) && (forall i | k <= i < |a| :: x < a[i])
  {
    RightIn(a, x, 0, |a|)
  }

  function RightIn(a: seq<real>, x: real, lo: nat, hi: nat): (k: nat)
    requires lo <= hi <= |a|
    ensures lo <= k <= hi
    ensures Sorted(a) && (forall i | 0 <= i < lo :: a[i] <= x) && (forall i | hi <= i < |a| :: x < a[i])
        ==> (forall i | 0 <= i < k :: a[i] <= x) && (forall i | k <= i < |a| :: x < a[i])
    decreases hi - lo
  {
    if lo == hi then lo else
    var mid := (lo + hi) / 2;
    if x < a[mid] then RightIn(a, x, lo, mid) else RightIn(a, x, mid + 1, hi)
  }

  /** The first position of a sorted list whose element is `x` or more. */
  function BisectLeft(a: seq<real>, x: real): (k: nat)
    ensures k <= |a|
    ensures Sorted(a) ==> (forall i | 0 <= i < k :: a[i] < x) && (forall i | k <= i < |a| :: x <= a[i])
  {
    LeftIn(a, x, 0, |a|)
  }

  function LeftIn(a: seq<real>, x: real, lo: nat, hi: nat): (k: nat)
    requires lo <= hi <= |a|
    ensures lo <= k <= hi
    ensures Sorted(a) && (forall i | 0 <= i < lo :: a[i] < x) && (forall i | hi <= i < |a| :: x <= a[i])
        ==> (forall i | 0 <= i < k :: a[i] < x) && (forall i | k <= i < |a| :: x <= a[i])
    decreases hi - lo
  {
    if lo == hi then lo else
    var mid := (lo + hi) / 2;
    if a[mid] < x then LeftIn(a, x, mid + 1, hi) else LeftIn(a, x, lo, mid)
  }
}
