/**
  The worker of QueueWorker left alone: every item runs its remaining repeats in order, and what the
  progress messages say meanwhile.
  */
module QueueDrain {
  import opened Numbers
  import opened QueueWorker

  function Iterate<S>(f: S -> S, s: S, n: nat): S {
    if n == 0 then s else f(Iterate(f, s, n - 1))
  }

  lemma {:induction false} IterateAdds<S>(f: S -> S, s: S, m: nat, n: nat)
    ensures Iterate(f, Iterate(f, s, m), n) == Iterate(f, s, m + n)
  {
    if n > 0 {
      IterateAdds(f, s, m, n - 1);
    }
  }

  /** The worker left alone for a number of steps. */
  function WorkFor(s: State, steps: nat): State {
    Iterate(WorkStep, s, steps)
  }

  lemma {:induction false} WorkAdds(s: State, m: nat, n: nat)
    ensures WorkFor(WorkFor(s, m), n) == WorkFor(s, m + n)
  {
    IterateAdds(WorkStep, s, m, n);
  }

  function Repeated<T>(x: T, n: nat): seq<T> {
    if n == 0 then [] else [x] + Repeated(x, n - 1)
  }

  function Remaining(items: seq<Item>, id: Id): nat {
    if id < |items| then MaxInt(0, items[id].repeat - items[id].completed) else 0
  }

  /** Each item its remaining repeats, in queue order. */
  function AllRuns(queue: seq<Id>, items: seq<Item>): seq<Id> {
    if queue == [] then [] else Repeated(queue[0], Remaining(items, queue[0])) + AllRuns(queue[1..], items)
  }

  /** One report per run; an item that had nothing left is dropped without moving the position. */
  function AllReports(queue: seq<Id>, items: seq<Item>, idx: nat): seq<Report> {
    if queue == [] then [] else
    var left := Remaining(items, queue[0]);
    Repeated(Report(idx + 1, |queue| + idx), left) + AllReports(queue[1..], items, if left > 0 then idx + 1 else idx)
  }

  /** The end of a run that nobody disturbs. */
  ghost predicate Drained(s: State, s': State) {
    && s'.pc == Idle && !s'.running && s'.queue == []
    && s'.ran == s.ran + AllRuns(s.queue, s.items)
    && s'.reports == s.reports + AllReports(s.queue, s.items, s.idx)
  }

  /** What one repeat of the head item changes. */
  ghost predicate RepeatDone(s: State, s': State)
    requires s.queue != []
  {
    var id := s.queue[0];
    var last := Remaining(s.items, id) == 1;
    && id < |s.items| && s'.items == s.items[id := s.items[id].(completed := s.items[id].completed + 1)]
    && s'.ran == s.ran + [id] && s'.reports == s.reports + [Report(s.idx + 1, |s.queue| + s.idx)]
    && s'.queue == (if last then s.queue[1..] else s.queue)
    && s'.idx == (if last then s.idx + 1 else s.idx)
  }

  /** One repeat of the head item, from the while condition to the run ... */
  lemma {:induction false} ToTheRun(s: State) returns (s4: State, steps: nat)
    requires Inv(s) && s.pc == Check && s.running && s.queue != [] && Remaining(s.items, s.queue[0]) > 0
    ensures s4 == WorkFor(s, steps)
    ensures var it := s.items[s.queue[0]];
            s4 == s.(pc := Run(s.queue[0], it.repeat, it.completed),
                     reports := s.reports + [Report(s.idx + 1, |s.queue| + s.idx)])
  {
    FourSteps(s);
    s4, steps := WorkFor(s, 4), 4;
  }

  /** ... and from the run to the while condition. */
  lemma {:induction false} FromTheRun(s: State) returns (s': State, steps: nat)
    requires s.pc.Run? && s.running && s.queue != [] && s.pc.item == s.queue[0] < |s.items|
    ensures s' == WorkFor(s, steps)
    ensures var id, done := s.pc.item, s.pc.done + 1;
            var last := done >= s.pc.repeat;
            s' == s.(pc := Check, ran := s.ran + [id], items := s.items[id := s.items[id].(completed := done)],
                     queue := if last then s.queue[1..] else s.queue, idx := if last then s.idx + 1 else s.idx)
  {
    FourSteps(s);
    assert WorkFor(s, 3) == WorkStep(WorkStep(WorkStep(s)));
    steps := if s.pc.done + 1 >= s.pc.repeat then 4 else 3;
    s' := WorkFor(s, steps);
  }

  /** What the two together leave. */
  function AfterRepeat(s: State): State
    requires s.queue != [] && s.queue[0] < |s.items|
  {
    var id := s.queue[0];
    var it := s.items[id];
    var last := it.completed + 1 >= it.repeat;
    s.(ran := s.ran + [id], items := s.items[id := it.(completed := it.completed + 1)],
       reports := s.reports + [Report(s.idx + 1, |s.queue| + s.idx)],
       queue := if last then s.queue[1..] else s.queue, idx := if last then s.idx + 1 else s.idx)
  }

  lemma {:induction false} AfterRepeatIsDone(s: State)
    requires Inv(s) && s.pc == Check && s.queue != [] && Remaining(s.items, s.queue[0]) > 0
    ensures RepeatDone(s, AfterRepeat(s)) && Inv(AfterRepeat(s))
  {
  }

  lemma {:induction false} OneRepeat(s: State) returns (s': State, steps: nat)
    requires Inv(s) && s.pc == Check && s.running && s.queue != [] && Remaining(s.items, s.queue[0]) > 0
    ensures s' == WorkFor(s, steps) && Inv(s') && s'.pc == Check && s'.running
    ensures RepeatDone(s, s')
  {
    var s4, m := ToTheRun(s);
    var n;
    s', n := FromTheRun(s4);
    steps := m + n;
    WorkAdds(s, m, n);
    assert s' == AfterRepeat(s);
    AfterRepeatIsDone(s);
  }

  lemma {:induction false} FourSteps(s: State)
    ensures WorkFor(s, 4) == WorkStep(WorkStep(WorkStep(WorkStep(s))))
  {
    assert WorkFor(s, 2) == WorkStep(WorkFor(s, 1));
    assert WorkFor(s, 4) == WorkStep(WorkFor(s, 3));
  }

  lemma {:induction false} OneSkip(s: State) returns (s': State, steps: nat)
    requires Inv(s) && s.pc == Check && s.running && s.queue != [] && Remaining(s.items, s.queue[0]) == 0
    ensures s' == WorkFor(s, steps) && Inv(s') && s' == s.(queue := s.queue[1..])
  {
    FourSteps(s);
    s', steps := s.(queue := s.queue[1..]), 4;
  }

  /** Other items' remaining repeats do not change what the tail of a queue still has to do. */
  lemma {:induction false} TailUntouched(queue: seq<Id>, items: seq<Item>, items': seq<Item>, idx: nat)
    requires forall i | 0 <= i < |queue| :: Remaining(items, queue[i]) == Remaining(items', queue[i])
    ensures AllRuns(queue, items) == AllRuns(queue, items')
            && AllReports(queue, items, idx) == AllReports(queue, items', idx)
  {
    if queue != [] {
      TailUntouched(queue[1..], items, items', if Remaining(items, queue[0]) > 0 then idx + 1 else idx);
    }
  }

  /** What is still to do splits off the head's next repeat. */
  lemma {:induction false} SplitRepeat(queue: seq<Id>, items: seq<Item>, items': seq<Item>, idx: nat)
    requires queue != [] && Remaining(items, queue[0]) > 0
    requires forall i, j | 0 <= i < j < |queue| :: queue[i] != queue[j]
    requires queue[0] < |items|
             && items' == items[queue[0] := items[queue[0]].(completed := items[queue[0]].completed + 1)]
    ensures var last := Remaining(items, queue[0]) == 1;
            var queue', idx' := if last then queue[1..] else queue, if last then idx + 1 else idx;
            && AllRuns(queue, items) == [queue[0]] + AllRuns(queue', items')
            && AllReports(queue, items, idx) == [Report(idx + 1, |queue| + idx)] + AllReports(queue', items', idx')
  {
    var id, left := queue[0], Remaining(items, queue[0]);
    assert Remaining(items', id) == left - 1;
    TailUntouched(queue[1..], items, items', idx + 1);
    var r := Report(idx + 1, |queue| + idx);
    assert Repeated(id, left) == [id] + Repeated(id, left - 1) && Repeated(r, left) == [r] + Repeated(r, left - 1);
    if left == 1 {
      assert Repeated(id, 0) == [] && Repeated(r, 0) == [];
    }
  }

  /** Some runs and reports took the worker from s to s', and the rest is still to do. */
  ghost predicate Toward(s: State, s': State, runs: seq<Id>, reports: seq<Report>) {
    && s'.ran == s.ran + runs && AllRuns(s.queue, s.items) == runs + AllRuns(s'.queue, s'.items)
    && s'.reports == s.reports + reports
    && AllReports(s.queue, s.items, s.idx) == reports + AllReports(s'.queue, s'.items, s'.idx)
  }

  lemma {:induction false} ThenDrained(s: State, s': State, s'': State, runs: seq<Id>, reports: seq<Report>)
    requires Toward(s, s', runs, reports) && Drained(s', s'')
    ensures Drained(s, s'')
  {
  }

  function HeadLeft(s: State): nat {
    if s.queue == [] then 0 else Remaining(s.items, s.queue[0])
  }

  lemma {:induction false} Progress(s: State) returns (s': State, steps: nat, runs: seq<Id>, reports: seq<Report>)
    requires Inv(s) && s.pc == Check && s.running && s.queue != []
    ensures s' == WorkFor(s, steps) && Inv(s') && s'.pc == Check && s'.running && Toward(s, s', runs, reports)
    ensures |s'.queue| < |s.queue| || (|s'.queue| == |s.queue| && HeadLeft(s') < HeadLeft(s))
  {
    if Remaining(s.items, s.queue[0]) == 0 {
      s', steps := OneSkip(s);
      runs, reports := [], [];
      SkipToward(s);
    } else {
      s', steps := OneRepeat(s);
      runs, reports := [s.queue[0]], [Report(s.idx + 1, |s.queue| + s.idx)];
      RepeatToward(s, s');
    }
  }

  lemma {:induction false} SkipToward(s: State)
    requires s.queue != [] && Remaining(s.items, s.queue[0]) == 0
    ensures Toward(s, s.(queue := s.queue[1..]), [], [])
  {
    SplitSkip(s.queue, s.items, s.idx);
  }

  lemma {:induction false} RepeatToward(s: State, s': State)
    requires Inv(s) && s.queue != [] && Remaining(s.items, s.queue[0]) > 0
    requires RepeatDone(s, s')
    ensures Toward(s, s', [s.queue[0]], [Report(s.idx + 1, |s.queue| + s.idx)])
    ensures |s'.queue| < |s.queue| || (|s'.queue| == |s.queue| && HeadLeft(s') < HeadLeft(s))
  {
    SplitRepeat(s.queue, s.items, s'.items, s.idx);
  }

  lemma {:induction false} Drain(s: State) returns (steps: nat)
    requires Inv(s) && s.pc == Check && s.running
    ensures Drained(s, WorkFor(s, steps))
    decreases |s.queue|, HeadLeft(s)
  {
    if s.queue == [] {
      EmptyQueue(s);
      steps := 3;
    } else {
      var s', m, runs, reports := Progress(s);
      var n := Drain(s');
      WorkAdds(s, m, n);
      steps := m + n;
      ThenDrained(s, s', WorkFor(s', n), runs, reports);
    }
  }

  lemma {:induction false} EmptyQueue(s: State)
    requires s.pc == Check && s.running && s.queue == []
    ensures Drained(s, WorkFor(s, 3))
  {
    assert WorkFor(s, 2) == WorkStep(WorkFor(s, 1));
    assert WorkFor(s, 3) == WorkStep(WorkFor(s, 2));
  }

  lemma {:induction false} SplitSkip(queue: seq<Id>, items: seq<Item>, idx: nat)
    requires queue != [] && Remaining(items, queue[0]) == 0
    ensures AllRuns(queue, items) == [] + AllRuns(queue[1..], items)
    ensures AllReports(queue, items, idx) == [] + AllReports(queue[1..], items, idx)
  {
    assert Repeated(queue[0], 0) == [] && Repeated(Report(idx + 1, |queue| + idx), 0) == [];
  }

  /** No item without repeats left comes before one that still has some. */
  ghost predicate ExhaustedLast(queue: seq<Id>, items: seq<Item>) {
    forall i, j | 0 <= i < j < |queue| :: Remaining(items, queue[i]) == 0 ==> Remaining(items, queue[j]) == 0
  }

  ghost predicate AllTotals(reports: seq<Report>, total: nat) {
    forall i | 0 <= i < |reports| :: reports[i].total == total
  }

  lemma {:induction false} RepeatedAll<T>(x: T, n: nat)
    ensures |Repeated(x, n)| == n && forall i | 0 <= i < n :: Repeated(x, n)[i] == x
  {
    if n > 0 {
      RepeatedAll(x, n - 1);
    }
  }

  /** With nothing left to run there is nothing to report, and conversely. */
  lemma {:induction false} NoReportsIff(queue: seq<Id>, items: seq<Item>, idx: nat)
    ensures AllReports(queue, items, idx) == [] <==> forall i | 0 <= i < |queue| :: Remaining(items, queue[i]) == 0
  {
    if queue != [] {
      var left := Remaining(items, queue[0]);
      RepeatedAll(Report(idx + 1, |queue| + idx), left);
      NoReportsIff(queue[1..], items, if left > 0 then idx + 1 else idx);
      assert forall i | 1 <= i < |queue| :: queue[i] == queue[1..][i - 1];
    }
  }

  lemma {:induction false} TotalsOfParts(head: seq<Report>, tail: seq<Report>, total: nat)
    ensures AllTotals(head + tail, total) <==> AllTotals(head, total) && AllTotals(tail, total)
  {
    assert forall i | 0 <= i < |head| :: (head + tail)[i] == head[i];
    assert forall i | 0 <= i < |tail| :: tail[i] == (head + tail)[|head| + i];
  }

  lemma {:induction false} ExhaustedSplit(queue: seq<Id>, items: seq<Item>)
    requires queue != []
    ensures ExhaustedLast(queue, items) <==>
            ExhaustedLast(queue[1..], items)
            && (Remaining(items, queue[0]) == 0
               ==> forall i | 0 <= i < |queue[1..]| :: Remaining(items, queue[1..][i]) == 0)
  {
    assert forall i | 1 <= i < |queue| :: queue[i] == queue[1..][i - 1];
  }

  lemma {:induction false} TotalsIff(queue: seq<Id>, items: seq<Item>, idx: nat)
    ensures AllTotals(AllReports(queue, items, idx), |queue| + idx) <==> ExhaustedLast(queue, items)
    ensures forall r <- AllReports(queue, items, idx) :: r.total <= |queue| + idx
  {
    if queue != [] {
      var left, rest := Remaining(items, queue[0]), queue[1..];
      var idx' := if left > 0 then idx + 1 else idx;
      var r := Report(idx + 1, |queue| + idx);
      var head, tail := Repeated(r, left), AllReports(rest, items, idx');
      RepeatedAll(r, left);
      TotalsIff(rest, items, idx');
      NoReportsIff(rest, items, idx');
      TotalsOfParts(head, tail, |queue| + idx);
      ExhaustedSplit(queue, items);
      if left == 0 {
        // No report below has the total of now, so none may be left.
        assert AllTotals(tail, |queue| + idx) <==> tail == [] by {
          if tail != [] { assert tail[0] in tail; }
        }
      }
    }
  }

  /**
    Without interference every item runs exactly its remaining repeats, in order, and the queue ends empty;
    the reported total is the initial length throughout exactly when no exhausted item precedes a live one.
    */
  lemma {:induction false} UndisturbedRun(s: State) returns (steps: nat)
    requires Inv(s) && s.pc == Idle && !s.running && s.queue != []
    ensures var s' := WorkFor(Next(s, Start), steps);
            && s'.pc == Idle && !s'.running && s'.queue == []
            && s'.ran == s.ran + AllRuns(s.queue, s.items)
            && |s.reports| <= |s'.reports| && s'.reports[..|s.reports|] == s.reports
            && (AllTotals(s'.reports[|s.reports|..], |s.queue|) <==> ExhaustedLast(s.queue, s.items))
  {
    var s0 := Next(s, Start);
    steps := Drain(s0);
    TotalsIff(s.queue, s.items, 0);
  }
}
