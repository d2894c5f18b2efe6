/**
  Sums over one trace of hop lines whose callers are already known: what each service is charged,
  and where the time goes.
  */
module HopSums {
  import opened Bytes
  import opened Numbers
  import opened WeightedSums

  datatype Hop = Hop(service: string, receive: real, emit: real, span: real)

  type Trace = seq<Hop>

  /** The caller of each hop, by its place in the trace; None for a root. */
  type Callers = seq<Option<nat>>

  ghost predicate CallersOf(t: Trace, ps: Callers) {
    |ps| == |t| && forall h | 0 <= h < |ps| :: ps[h].Some? ==> ps[h].value < |t|
  }

  predicate Within(t: Trace, ids: seq<nat>) {
    forall k | 0 <= k < |ids| :: ids[k] < |t|
  }

  /** The hops among the first n that `h` called. */
  function Children(ps: Callers, h: nat, n: nat): (ids: seq<nat>)
    requires n <= |ps|
    ensures forall k | 0 <= k < |ids| :: ids[k] < n && ps[ids[k]] == Some(h)
  {
    if n == 0 then [] else
    var before := Children(ps, h, n - 1);
    if ps[n - 1] == Some(h) then before + [n - 1] else before
  }

  function Roots(ps: Callers, n: nat): (ids: seq<nat>)
    requires n <= |ps|
    ensures forall k | 0 <= k < |ids| :: ids[k] < n && ps[ids[k]] == None
  {
    if n == 0 then [] else
    var before := Roots(ps, n - 1);
    if ps[n - 1] == None then before + [n - 1] else before
  }

  function SpanSum(t: Trace, ids: seq<nat>): real
    requires Within(t, ids)
  {
    if ids == [] then 0.0 else SpanSum(t, ids[..|ids| - 1]) + t[ids[|ids| - 1]].span
  }

  lemma {:induction false} SumAppend(t: Trace, ids: seq<nat>, last: nat)
    requires Within(t, ids) && last < |t|
    ensures SpanSum(t, ids + [last]) == SpanSum(t, ids) + t[last].span
  {
    assert (ids + [last])[..|ids|] == ids;
  }

  /** What the children of a hop took. */
  function Kids(t: Trace, ps: Callers, h: nat): real
    requires |ps| == |t|
  {
    SpanSum(t, Children(ps, h, |t|))
  }

  function SelfCost(t: Trace, ps: Callers, h: nat): real
    requires h < |t| == |ps|
  {
    MaxReal(0.0, t[h].span - Kids(t, ps, h))
  }

  /** How much the children of a hop outlast it. */
  function Excess(t: Trace, ps: Callers, h: nat): real
    requires h < |t| == |ps|
  {
    MaxReal(0.0, Kids(t, ps, h) - t[h].span)
  }

  /** The part of `costs` that the first n hops put on a service. */
  function OnService(t: Trace, costs: seq<real>, service: string, n: nat): real
    requires n <= |t| == |costs|
  {
    if n == 0 then 0.0
    else OnService(t, costs, service, n - 1) + if t[n - 1].service == service then costs[n - 1] else 0.0
  }

  function SelfCostsOf(t: Trace, ps: Callers): (r: seq<real>)
    requires |ps| == |t|
    ensures |r| == |t| && forall h | 0 <= h < |t| :: r[h] == SelfCost(t, ps, h)
  {
    seq(|t|, h requires 0 <= h < |t| => SelfCost(t, ps, h))
  }

  function ExcessesOf(t: Trace, ps: Callers): (r: seq<real>)
    requires |ps| == |t|
    ensures |r| == |t| && forall h | 0 <= h < |t| :: r[h] == Excess(t, ps, h)
  {
    seq(|t|, h requires 0 <= h < |t| => Excess(t, ps, h))
  }

  function KidsOf(t: Trace, ps: Callers): (r: seq<real>)
    requires |ps| == |t|
    ensures |r| == |t| && forall h | 0 <= h < |t| :: r[h] == Kids(t, ps, h)
  {
    seq(|t|, h requires 0 <= h < |t| => Kids(t, ps, h))
  }

  function SpansOf(t: Trace): (r: seq<real>)
    ensures |r| == |t| && forall h | 0 <= h < |t| :: r[h] == t[h].span
  {
    seq(|t|, h requires 0 <= h < |t| => t[h].span)
  }

  // ---------------------------------------------------------------- services

  /** Costs added over a list of services, as the table's columns are. */
  function OverServices(t: Trace, costs: seq<real>, services: seq<string>, n: nat): real
    requires n <= |t| == |costs|
  {
    if services == [] then 0.0
    else OverServices(t, costs, services[..|services| - 1], n) + OnService(t, costs, services[|services| - 1], n)
  }

  ghost predicate NoRepeats(services: seq<string>) {
    forall i, j | 0 <= i < j < |services| :: services[i] != services[j]
  }

  ghost predicate ListsEachServiceOnce(t: Trace, services: seq<string>) {
    NoRepeats(services) && forall h | 0 <= h < |t| :: t[h].service in services
  }

  lemma {:induction false} OverServicesStep(t: Trace, costs: seq<real>, services: seq<string>, n: nat)
    requires 0 < n <= |t| == |costs| && NoRepeats(services)
    ensures OverServices(t, costs, services, n)
         == OverServices(t, costs, services, n - 1) + if t[n - 1].service in services then costs[n - 1] else 0.0
  {
    if services != [] {
      var rest := services[..|services| - 1];
      assert services == rest + [services[|services| - 1]];
      OverServicesStep(t, costs, rest, n);
    }
  }

  lemma {:induction false} NoHops(t: Trace, costs: seq<real>, services: seq<string>)
    requires |costs| == |t|
    ensures OverServices(t, costs, services, 0) == 0.0
  {
    if services != [] {
      NoHops(t, costs, services[..|services| - 1]);
    }
  }

  /** Splitting by service loses and duplicates nothing. */
  lemma {:induction false} ServicesCover(t: Trace, costs: seq<real>, services: seq<string>, n: nat)
    requires n <= |t| == |costs| && ListsEachServiceOnce(t, services)
    ensures OverServices(t, costs, services, n) == Sum(costs, n)
  {
    if n == 0 {
      NoHops(t, costs, services);
    } else {
      ServicesCover(t, costs, services, n - 1);
      OverServicesStep(t, costs, services, n);
    }
  }

  // ---------------------------------------------------------------- conservation

  /** Spans of the first m hops whose caller is among the first k. */
  function HeldBy(t: Trace, ps: Callers, k: nat, m: nat): real
    requires m <= |t| == |ps|
  {
    if m == 0 then 0.0
    else HeldBy(t, ps, k, m - 1) + if ps[m - 1].Some? && ps[m - 1].value < k then t[m - 1].span else 0.0
  }

  /** The children of `h` among the first m hops, summed hop by hop. */
  function KidsUpTo(t: Trace, ps: Callers, h: nat, m: nat): real
    requires m <= |t| == |ps|
  {
    if m == 0 then 0.0 else KidsUpTo(t, ps, h, m - 1) + if ps[m - 1] == Some(h) then t[m - 1].span else 0.0
  }

  lemma {:induction false} KidsHopByHop(t: Trace, ps: Callers, h: nat, m: nat)
    requires m <= |t| == |ps|
    ensures SpanSum(t, Children(ps, h, m)) == KidsUpTo(t, ps, h, m)
  {
    if m > 0 {
      KidsHopByHop(t, ps, h, m - 1);
      SumAppend(t, Children(ps, h, m - 1), m - 1);
    }
  }

  lemma {:induction false} HeldByOneMore(t: Trace, ps: Callers, k: nat, m: nat)
    requires m <= |t| == |ps|
    ensures HeldBy(t, ps, k + 1, m) == HeldBy(t, ps, k, m) + KidsUpTo(t, ps, k, m)
  {
    if m > 0 {
      HeldByOneMore(t, ps, k, m - 1);
    }
  }

  lemma {:induction false} NothingHeld(t: Trace, ps: Callers, m: nat)
    requires m <= |t| == |ps|
    ensures HeldBy(t, ps, 0, m) == 0.0
  {
    if m > 0 {
      NothingHeld(t, ps, m - 1);
    }
  }

  /** The exchange of sums: children counted under their callers are hops counted by themselves. */
  lemma {:induction false} KidsAreHeld(t: Trace, ps: Callers, k: nat)
    requires k <= |t| == |ps|
    ensures Sum(KidsOf(t, ps), k) == HeldBy(t, ps, k, |t|)
  {
    if k == 0 {
      NothingHeld(t, ps, |t|);
    } else {
      KidsAreHeld(t, ps, k - 1);
      HeldByOneMore(t, ps, k - 1, |t|);
      KidsHopByHop(t, ps, k - 1, |t|);
    }
  }

  lemma {:induction false} RootsAndHeld(t: Trace, ps: Callers, n: nat)
    requires n <= |t| && CallersOf(t, ps)
    ensures Sum(SpansOf(t), n) == SpanSum(t, Roots(ps, n)) + HeldBy(t, ps, |t|, n)
  {
    if n > 0 {
      RootsAndHeld(t, ps, n - 1);
      if ps[n - 1] == None {
        SumAppend(t, Roots(ps, n - 1), n - 1);
      }
    }
  }

  /** A cut-off at zero on each side of a difference: what the one drops the other holds. */
  lemma {:induction false} CutOffs(selfs: seq<real>, spans: seq<real>, kids: seq<real>, excesses: seq<real>, n: nat)
    requires n <= |selfs| == |spans| == |kids| == |excesses|
    requires forall h | 0 <= h < n ::
               selfs[h] == MaxReal(0.0, spans[h] - kids[h]) && excesses[h] == MaxReal(0.0, kids[h] - spans[h])
    ensures Sum(selfs, n) == Sum(spans, n) - Sum(kids, n) + Sum(excesses, n)
    ensures Sum(excesses, n) >= 0.0
    ensures Sum(excesses, n) == 0.0 <==> forall h | 0 <= h < n :: kids[h] <= spans[h]
  {
    if n > 0 {
      CutOffs(selfs, spans, kids, excesses, n - 1);
    }
  }

  /** Each hop's children take no longer than the hop. */
  ghost predicate NoneOutlasted(t: Trace, ps: Callers)
    requires |ps| == |t|
  {
    forall h | 0 <= h < |t| :: Kids(t, ps, h) <= t[h].span
  }

  /**
    The conservation law, whatever the callers, cycles included: the self costs over all services are the
    root spans plus what children outlast their callers by; so at least the root spans, and equal to them
    exactly when no hop's children outlast it.
    */
  lemma {:induction false} Conservation(t: Trace, ps: Callers, services: seq<string>)
    requires CallersOf(t, ps) && ListsEachServiceOnce(t, services)
    ensures var total, roots := OverServices(t, SelfCostsOf(t, ps), services, |t|), SpanSum(t, Roots(ps, |t|));
            && total == roots + Sum(ExcessesOf(t, ps), |t|)
            && total >= roots
            && (total == roots <==> NoneOutlasted(t, ps))
  {
    SelfIsRootsAndExcess(t, ps, services);
    SelfIsSpanLessKids(t, ps);
  }

  lemma {:induction false} SelfIsRootsAndExcess(t: Trace, ps: Callers, services: seq<string>)
    requires CallersOf(t, ps) && ListsEachServiceOnce(t, services)
    ensures OverServices(t, SelfCostsOf(t, ps), services, |t|)
            == SpanSum(t, Roots(ps, |t|)) + Sum(ExcessesOf(t, ps), |t|)
  {
    ServicesCover(t, SelfCostsOf(t, ps), services, |t|);
    SelfIsSpanLessKids(t, ps);
    KidsAreHeld(t, ps, |t|);
    RootsAndHeld(t, ps, |t|);
  }

  lemma {:induction false} SelfIsSpanLessKids(t: Trace, ps: Callers)
    requires |ps| == |t|
    ensures Sum(SelfCostsOf(t, ps), |t|) == Sum(SpansOf(t), |t|) - Sum(KidsOf(t, ps), |t|) + Sum(ExcessesOf(t, ps), |t|)
    ensures Sum(ExcessesOf(t, ps), |t|) >= 0.0 && (Sum(ExcessesOf(t, ps), |t|) == 0.0 <==> NoneOutlasted(t, ps))
  {
    var spans, kids := SpansOf(t), KidsOf(t, ps);
    CutOffs(SelfCostsOf(t, ps), spans, kids, ExcessesOf(t, ps), |t|);
    assert NoneOutlasted(t, ps) <==> forall h | 0 <= h < |t| :: kids[h] <= spans[h];
  }

  /** With one root and nothing outlasted, the services share out exactly the root's span. */
  lemma {:induction false} OneRoot(t: Trace, ps: Callers, services: seq<string>, root: nat)
    requires CallersOf(t, ps) && ListsEachServiceOnce(t, services) && NoneOutlasted(t, ps)
    requires root < |t| && Roots(ps, |t|) == [root]
    ensures OverServices(t, SelfCostsOf(t, ps), services, |t|) == t[root].span
  {
    SumOfOne(t, root);
    SelfIsSpanLessKids(t, ps);
    SelfIsRootsAndExcess(t, ps, services);
  }

  lemma {:induction false} SumOfOne(t: Trace, h: nat)
    requires h < |t|
    ensures SpanSum(t, [h]) == t[h].span
  {
    SumAppend(t, [], h);
    assert [] + [h] == [h];
  }

  // ---------------------------------------------------------------- calls that do not overlap

  ghost predicate Apart(t: Trace, a: nat, b: nat)
    requires a < |t| && b < |t|
  {
    t[a].emit <= t[b].receive || t[b].emit <= t[a].receive
  }

  /** The calls that `h` makes never overlap. */
  ghost predicate OneAtATime(t: Trace, ps: Callers, h: nat)
    requires |ps| == |t|
  {
    forall a, b | 0 <= a < b < |t| && ps[a] == Some(h) && ps[b] == Some(h) :: Apart(t, a, b)
  }

  /** `c` is a call of `h` inside [from, to], and its span is the milliseconds from receipt to reply. */
  ghost predicate CallIn(t: Trace, ps: Callers, h: nat, c: nat, from: real, to: real)
    requires |ps| == |t|
  {
    && c < |t| && ps[c] == Some(h)
    && from <= t[c].receive <= t[c].emit <= to && t[c].span == 1000.0 * (t[c].emit - t[c].receive)
  }

  ghost predicate Increasing(ids: seq<nat>) {
    forall i, j | 0 <= i < j < |ids| :: ids[i] < ids[j]
  }

  /** The hops of `ids` that have replied by `time`, or those that have not. */
  ghost function ByEnd(t: Trace, ids: seq<nat>, time: real, ended: bool): (r: seq<nat>)
    requires Within(t, ids)
    ensures forall k | 0 <= k < |r| :: r[k] in ids && (t[r[k]].emit <= time <==> ended)
    ensures Within(t, r) && |r| <= |ids|
    ensures Increasing(ids) ==> Increasing(r)
  {
    if ids == [] then [] else
    var rest, last := ByEnd(t, ids[..|ids| - 1], time, ended), ids[|ids| - 1];
    if (t[last].emit <= time) == ended then rest + [last] else rest
  }

  lemma {:induction false} SumByEnd(t: Trace, ids: seq<nat>, time: real)
    requires Within(t, ids)
    ensures SpanSum(t, ids) == SpanSum(t, ByEnd(t, ids, time, true)) + SpanSum(t, ByEnd(t, ids, time, false))
  {
    if ids != [] {
      var rest, last := ids[..|ids| - 1], ids[|ids| - 1];
      SumByEnd(t, rest, time);
      SumAppend(t, ByEnd(t, rest, time, true), last);
      SumAppend(t, ByEnd(t, rest, time, false), last);
    }
  }

  /**
    Of the calls before `last` in the trace, those over by its receipt end before it, the others start after its
    reply.
    */
  lemma {:induction false} CallsAround(t: Trace, ps: Callers, h: nat, rest: seq<nat>, last: nat, from: real, to: real)
    requires |ps| == |t| && OneAtATime(t, ps, h) && Within(t, rest) && CallIn(t, ps, h, last, from, to)
    requires forall k | 0 <= k < |rest| :: rest[k] < last && CallIn(t, ps, h, rest[k], from, to)
    ensures var before, after := ByEnd(t, rest, t[last].receive, true), ByEnd(t, rest, t[last].receive, false);
            && (forall k | 0 <= k < |before| :: CallIn(t, ps, h, before[k], from, t[last].receive))
            && (forall k | 0 <= k < |after| :: CallIn(t, ps, h, after[k], t[last].emit, to))
  {
    var cut := t[last].receive;
    var before, after := ByEnd(t, rest, cut, true), ByEnd(t, rest, cut, false);
    forall k | 0 <= k < |before| ensures CallIn(t, ps, h, before[k], from, cut) {
      var m :| 0 <= m < |rest| && rest[m] == before[k];
      assert CallIn(t, ps, h, rest[m], from, to);
    }
    forall k | 0 <= k < |after| ensures CallIn(t, ps, h, after[k], t[last].emit, to) {
      var m :| 0 <= m < |rest| && rest[m] == after[k];
      assert CallIn(t, ps, h, rest[m], from, to) && Apart(t, rest[m], last);
    }
  }

  /** Calls of one hop, one at a time inside an interval, take no longer than the interval. */
  lemma {:induction false} DisjointFit(t: Trace, ps: Callers, h: nat, ids: seq<nat>, from: real, to: real)
    requires |ps| == |t| && OneAtATime(t, ps, h) && from <= to && Increasing(ids) && Within(t, ids)
    requires forall k | 0 <= k < |ids| :: CallIn(t, ps, h, ids[k], from, to)
    ensures SpanSum(t, ids) <= 1000.0 * (to - from)
    decreases |ids|
  {
    if ids != [] {
      var rest, last := ids[..|ids| - 1], ids[|ids| - 1];
      assert CallIn(t, ps, h, last, from, to);
      assert forall k | 0 <= k < |rest| :: rest[k] == ids[k];
      var cut := t[last].receive;
      CallsAround(t, ps, h, rest, last, from, to);
      SumByEnd(t, rest, cut);
      assert SpanSum(t, ByEnd(t, rest, cut, true)) <= 1000.0 * (cut - from) by {
        DisjointFit(t, ps, h, ByEnd(t, rest, cut, true), from, cut);
      }
      assert SpanSum(t, ByEnd(t, rest, cut, false)) <= 1000.0 * (to - t[last].emit) by {
        DisjointFit(t, ps, h, ByEnd(t, rest, cut, false), t[last].emit, to);
      }
    }
  }

  lemma {:induction false} ChildrenIncrease(ps: Callers, h: nat, n: nat)
    requires n <= |ps|
    ensures Increasing(Children(ps, h, n))
  {
    if n > 0 {
      ChildrenIncrease(ps, h, n - 1);
    }
  }
}
