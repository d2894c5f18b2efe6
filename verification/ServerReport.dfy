/**
  The intervals of the server's text report: the gap-closing loop of `server_text_intervals` in
  experiments/network/throughput.py, lines 47 to 52. The text rounds starts and ends to 0.01 s, and
  `windows` takes what this gives.
  */
module ServerReport {
  import opened Windows

  /** A gap that rounding alone can make. */
  predicate RoundingGap(before: Interval, iv: Interval) {
    0.0 < iv.start - before.end <= 0.011
  }

  /** Interval i of the report once its gap is closed. */
  function Joined(s: seq<Interval>, i: nat): Interval
    requires i < |s|
  {
    if i > 0 && RoundingGap(s[i - 1], s[i]) then s[i].(start := s[i - 1].end) else s[i]
  }

  ghost predicate IsClosed(r: seq<Interval>, s: seq<Interval>) {
    |r| == |s| && forall i | 0 <= i < |s| :: r[i] == Joined(s, i)
  }

  /** The loop, which sees ends already behind it: closing moves no end. */
  method CloseGaps(out: array<Interval>)
    modifies out
    ensures IsClosed(out[..], old(out[..]))
  {
    ghost var s := out[..];
    var i := 1;
    while i < out.Length
      invariant i >= 1
      invariant forall j | 0 <= j < out.Length :: out[j] == if j < i then Joined(s, j) else s[j]
    {
      var iv := out[i];
      if RoundingGap(out[i - 1], iv) {
        out[i] := iv.(start := out[i - 1].end);
      }
      i := i + 1;
    }
  }

  ghost predicate InSequence(s: seq<Interval>) {
    forall i | 0 < i < |s| :: Follows(s, i)
  }

  ghost predicate Follows(s: seq<Interval>, i: nat)
    requires 0 < i < |s|
  {
    s[i - 1].end <= s[i].start
  }

  ghost predicate HeldAt(s: seq<Interval>, t: real) {
    exists i :: 0 <= i < |s| && s[i].start <= t < s[i].end
  }

  /** The instants in gaps that are closed. */
  ghost predicate InRoundingGap(s: seq<Interval>, t: real) {
    exists i :: 0 < i < |s| && RoundingGap(s[i - 1], s[i]) && s[i - 1].end <= t < s[i].start
  }

  /** Positive length and sequence are kept, so the report still suits `windows`; ends and rates stay. */
  lemma {:induction false} ClosedKeeps(r: seq<Interval>, s: seq<Interval>)
    requires IsClosed(r, s)
    ensures Positive(s) ==> Positive(r)
    ensures InSequence(s) ==> InSequence(r)
    ensures forall i | 0 <= i < |s| :: r[i].end == s[i].end && r[i].rate == s[i].rate
  {
    if InSequence(s) {
      forall i | 0 < i < |r| ensures Follows(r, i) {
        assert Follows(s, i);
      }
    }
  }

  /** The closed report holds exactly the instants the report held and those of the closed gaps. */
  lemma {:induction false} ClosedHolds(r: seq<Interval>, s: seq<Interval>, t: real)
    requires IsClosed(r, s) && Positive(s)
    ensures HeldAt(r, t) <==> HeldAt(s, t) || InRoundingGap(s, t)
  {
    if HeldAt(r, t) {
      var i :| 0 <= i < |r| && r[i].start <= t < r[i].end;
      assert r[i] == Joined(s, i);
    }
    if HeldAt(s, t) {
      var i :| 0 <= i < |s| && s[i].start <= t < s[i].end;
      assert r[i] == Joined(s, i);
    }
    if InRoundingGap(s, t) {
      var i :| 0 < i < |s| && RoundingGap(s[i - 1], s[i]) && s[i - 1].end <= t < s[i].start;
      assert r[i] == Joined(s, i) && s[i].start < s[i].end;
    }
  }

  /** A report that was closed has nothing left to close. */
  lemma {:induction false} ClosedOnce(r: seq<Interval>, s: seq<Interval>, again: seq<Interval>)
    requires IsClosed(r, s) && IsClosed(again, r)
    ensures again == r
  {
    forall i | 0 <= i < |r| ensures again[i] == r[i] {
      assert r[i] == Joined(s, i) && again[i] == Joined(r, i);
      assert i > 0 ==> r[i - 1] == Joined(s, i - 1);
    }
  }
}
