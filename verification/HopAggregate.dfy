/**
  The latency breakdown of experiments/exposure/hop_aggregate.py: from one trace of hop lines it
  infers who called whom by containment in time, and charges each service its span less its
  children's. Hops are told apart by their place in the trace, as the code does by identity.
  */
module HopAggregate {
  import opened Bytes
  import opened HopSums
  import opened Numbers

  /** `a` may have called `b`. */
  predicate Contains(t: Trace, a: nat, b: nat)
    requires a < |t| && b < |t|
  {
    a != b && t[a].receive <= t[b].receive && t[b].emit <= t[a].emit && t[a].span >= t[b].span
  }

  /** `a` is chosen over `b` as the parent: the smaller span, and the earlier of equals. */
  predicate Preferred(t: Trace, a: nat, b: nat)
    requires a < |t| && b < |t|
  {
    t[a].span < t[b].span || (t[a].span == t[b].span && a <= b)
  }

  /** `min(parents, key=span)` over the first n hops. */
  function ParentAmong(t: Trace, h: nat, n: nat): (p: Option<nat>)
    requires h < |t| && n <= |t|
    ensures p.Some? ==> p.value < n
  {
    if n == 0 then None else
    var best := ParentAmong(t, h, n - 1);
    if Contains(t, n - 1, h) && (best.None? || t[n - 1].span < t[best.value].span) then Some(n - 1) else best
  }

  function Parent(t: Trace, h: nat): (p: Option<nat>)
    requires h < |t|
    ensures p.Some? ==> p.value < |t|
  {
    ParentAmong(t, h, |t|)
  }

  /** The scan finds a parent if there is one, and the preferred one. */
  lemma {:induction false} ParentAmongIsPreferred(t: Trace, h: nat, n: nat)
    requires h < |t| && n <= |t|
    ensures match ParentAmong(t, h, n)
            case None => forall a | 0 <= a < n :: !Contains(t, a, h)
            case Some(p) => Contains(t, p, h) && forall a | 0 <= a < n && Contains(t, a, h) :: Preferred(t, p, a)
  {
    if n > 0 {
      ParentAmongIsPreferred(t, h, n - 1);
    }
  }

  lemma {:induction false} ParentIsPreferred(t: Trace, h: nat)
    requires h < |t|
    ensures match Parent(t, h)
            case None => forall a | 0 <= a < |t| :: !Contains(t, a, h)
            case Some(p) => Contains(t, p, h) && forall a | 0 <= a < |t| && Contains(t, a, h) :: Preferred(t, p, a)
  {
    ParentAmongIsPreferred(t, h, |t|);
  }

  function Parents(t: Trace): (ps: Callers)
    ensures CallersOf(t, ps) && forall h | 0 <= h < |t| :: ps[h] == Parent(t, h)
  {
    seq(|t|, h requires 0 <= h < |t| => Parent(t, h))
  }

  // ---------------------------------------------------------------- the code

  ghost predicate IsMaxSpan(t: Trace, ids: seq<nat>, x: real)
    requires Within(t, ids)
  {
    && (exists k | 0 <= k < |ids| :: t[ids[k]].span == x)
    && (forall k | 0 <= k < |ids| :: t[ids[k]].span <= x)
  }

  /** Lines 109 to 117: who called each hop, kept as lists of children and of roots. */
  method CallTree(t: Trace) returns (children: seq<seq<nat>>, roots: seq<nat>)
    ensures |children| == |t| && forall i | 0 <= i < |t| :: children[i] == Children(Parents(t), i, |t|)
    ensures roots == Roots(Parents(t), |t|)
  {
    ghost var ps := Parents(t);
    children, roots := seq(|t|, _ => []), [];
    for h := 0 to |t|
      invariant |children| == |t| && forall i | 0 <= i < |t| :: children[i] == Children(ps, i, h)
      invariant roots == Roots(ps, h)
    {
      var parent := Parent(t, h);
      if parent == None {
        roots := roots + [h];
      } else {
        children := children[parent.value := children[parent.value] + [h]];
      }
    }
  }

  /** A Python dict of floats, an absent key standing for 0. */
  function Get(m: map<string, real>, service: string): real {
    if service in m then m[service] else 0.0
  }

  /** Lines 118 to 124: a cost per hop added up by service. */
  method ByService(t: Trace, costs: seq<real>) returns (sums: map<string, real>)
    requires |costs| == |t|
    ensures forall service :: service in sums <==> exists h <- t :: h.service == service
    ensures forall service :: Get(sums, service) == OnService(t, costs, service, |t|)
  {
    sums := map[];
    for h := 0 to |t|
      invariant forall service :: service in sums <==> exists x <- t[..h] :: x.service == service
      invariant forall service :: Get(sums, service) == OnService(t, costs, service, h)
    {
      assert t[..h + 1] == t[..h] + [t[h]];
      ghost var before := sums;
      sums := sums[t[h].service := Get(sums, t[h].service) + costs[h]];
      assert forall service ::
             Get(sums, service) == Get(before, service) + if t[h].service == service then costs[h] else 0.0;
    }
    assert t[..|t|] == t;
  }

  /** Lines 122 and 123: each hop's span less its children's, cut off at zero. */
  method Charges(t: Trace, ghost ps: Callers, children: seq<seq<nat>>) returns (selfs: seq<real>)
    requires |children| == |ps| == |t| && forall i | 0 <= i < |t| :: children[i] == Children(ps, i, |t|)
    ensures selfs == SelfCostsOf(t, ps)
  {
    selfs := [];
    ghost var all := SelfCostsOf(t, ps);
    for h := 0 to |t|
      invariant selfs == all[..h]
    {
      var kids := SpanSum(t, children[h]);
      assert all[h] == SelfCost(t, ps, h) && all[..h + 1] == all[..h] + [all[h]];
      selfs := selfs + [MaxReal(0.0, t[h].span - kids)];
    }
  }

  method SelfCosts(t: Trace) returns (selfMs: map<string, real>, spanMs: map<string, real>, e2e: real)
    ensures forall service :: service in selfMs <==> exists h <- t :: h.service == service
    ensures spanMs.Keys == selfMs.Keys
    ensures forall service :: Get(selfMs, service) == OnService(t, SelfCostsOf(t, Parents(t)), service, |t|)
    ensures forall service :: Get(spanMs, service) == OnService(t, SpansOf(t), service, |t|)
    ensures var roots := Roots(Parents(t), |t|); if roots == [] then e2e == 0.0 else IsMaxSpan(t, roots, e2e)
  {
    var children, roots := CallTree(t);
    var selfs := Charges(t, Parents(t), children);
    selfMs := ByService(t, selfs);
    spanMs := ByService(t, SpansOf(t));
    e2e := MaxSpan(t, roots);
  }

  method MaxSpan(t: Trace, ids: seq<nat>) returns (x: real)
    requires Within(t, ids)
    ensures if ids == [] then x == 0.0 else IsMaxSpan(t, ids, x)
  {
    x := 0.0;
    for i := 0 to |ids|
      invariant i == 0 ==> x == 0.0
      invariant i > 0 ==> exists k | 0 <= k < i :: t[ids[k]].span == x
      invariant forall k | 0 <= k < i :: t[ids[k]].span <= x
    {
      if i == 0 || t[ids[i]].span > x {
        x := t[ids[i]].span;
      }
    }
  }

  // ---------------------------------------------------------------- the end-to-end time

  /** Conservation for the inferred callers, twins and cycles included. */
  lemma {:induction false} SelfCostsConserve(t: Trace, services: seq<string>)
    requires ListsEachServiceOnce(t, services)
    ensures var total := OverServices(t, SelfCostsOf(t, Parents(t)), services, |t|);
            var roots := SpanSum(t, Roots(Parents(t), |t|));
            total >= roots && (total == roots <==> NoneOutlasted(t, Parents(t)))
  {
    Conservation(t, Parents(t), services);
  }

  /** Spans are the milliseconds between receipt and reply, and the calls of one hop do not overlap. */
  ghost predicate Sequential(t: Trace) {
    && (forall h | 0 <= h < |t| :: t[h].receive <= t[h].emit && t[h].span == 1000.0 * (t[h].emit - t[h].receive))
    && (forall h | 0 <= h < |t| :: OneAtATime(t, Parents(t), h))
  }

  lemma {:induction false} KidsFit(t: Trace, h: nat)
    requires Sequential(t) && h < |t|
    ensures Kids(t, Parents(t), h) <= t[h].span
  {
    var ps := Parents(t);
    var ids := Children(ps, h, |t|);
    ChildrenIncrease(ps, h, |t|);
    forall k | 0 <= k < |ids| ensures CallIn(t, ps, h, ids[k], t[h].receive, t[h].emit) {
      ParentIsPreferred(t, ids[k]);
    }
    DisjointFit(t, ps, h, ids, t[h].receive, t[h].emit);
  }

  /** One root and calls that do not overlap: the self costs add up to the end-to-end time exactly. */
  lemma {:induction false} SelfCostsMakeEndToEnd(t: Trace, services: seq<string>, root: nat)
    requires Sequential(t) && ListsEachServiceOnce(t, services)
    requires root < |t| && Roots(Parents(t), |t|) == [root]
    ensures OverServices(t, SelfCostsOf(t, Parents(t)), services, |t|) == t[root].span
    ensures IsMaxSpan(t, Roots(Parents(t), |t|), t[root].span)
  {
    forall h | 0 <= h < |t| ensures Kids(t, Parents(t), h) <= t[h].span {
      KidsFit(t, h);
    }
    OneRoot(t, Parents(t), services, root);
    assert t[[root][0]].span == t[root].span;
  }

  // ---------------------------------------------------------------- the call forest

  /** The k-th hop up the parent chain from h; None past a root. */
  function Up(t: Trace, h: nat, k: nat): (r: Option<nat>)
    requires h < |t|
    ensures r.Some? ==> r.value < |t|
  {
    if k == 0 then Some(h) else
    match Up(t, h, k - 1)
    case None => None
    case Some(x) => Parent(t, x)
  }

  /** The chain from h comes to a root. */
  ghost predicate Ends(t: Trace, h: nat)
    requires h < |t|
  {
    exists k: nat :: Up(t, h, k).None?
  }

  /** Two hops no comparison tells apart. */
  predicate Twins(t: Trace, a: nat, b: nat)
    requires a < |t| && b < |t|
  {
    a != b && t[a].receive == t[b].receive && t[a].emit == t[b].emit && t[a].span == t[b].span
  }

  /** Twins that no other hop of the same span containing them precedes. */
  ghost predicate LeadingTwins(t: Trace, a: nat, b: nat)
    requires a < |t| && b < |t|
  {
    a < b && Twins(t, a, b) && forall k | 0 <= k < b && k != a :: !(Contains(t, k, a) && t[k].span == t[a].span)
  }

  ghost function Containers(t: Trace, h: nat): set<nat>
    requires h < |t|
  {
    set a | 0 <= a < |t| && Contains(t, a, h)
  }

  lemma {:induction false} FewerElements(a: set<nat>, b: set<nat>)
    requires a < b
    ensures |a| < |b|
  {
    assert b == a + (b - a);
    assert |b| == |a| + |b - a|;
  }

  lemma {:induction false} ParentContainsStrictly(t: Trace, h: nat)
    requires h < |t| && Parent(t, h).Some? && !Twins(t, Parent(t, h).value, h)
    ensures |Containers(t, Parent(t, h).value)| < |Containers(t, h)|
  {
    var p := Parent(t, h).value;
    ParentIsPreferred(t, h);
    forall a | a in Containers(t, p) ensures a in Containers(t, h) {
      assert Contains(t, a, p) && Contains(t, p, h);
    }
    assert p in Containers(t, h) && p !in Containers(t, p);
    FewerElements(Containers(t, p), Containers(t, h));
  }

  lemma {:induction false} UpFromParent(t: Trace, h: nat, k: nat)
    requires h < |t| && Parent(t, h).Some?
    ensures Up(t, h, k + 1) == Up(t, Parent(t, h).value, k)
  {
    if k == 0 {
      assert Up(t, h, 0) == Some(h);
    } else {
      UpFromParent(t, h, k - 1);
    }
  }

  lemma {:induction false} EndsThroughParent(t: Trace, h: nat)
    requires h < |t| && (Parent(t, h).None? || Ends(t, Parent(t, h).value))
    ensures Ends(t, h)
  {
    if Parent(t, h).None? {
      assert Up(t, h, 0) == Some(h) && Up(t, h, 1) == None;
    } else {
      var k: nat :| Up(t, Parent(t, h).value, k).None?;
      UpFromParent(t, h, k);
    }
  }

  /** A twin chosen as parent, with a twin chosen as its parent in turn, is one of two leading twins. */
  lemma {:induction false} TwinParentsLead(t: Trace, h: nat, p: nat, q: nat)
    requires h < |t| && p < |t| && q < |t|
    requires Parent(t, h) == Some(p) && Twins(t, p, h) && Parent(t, p) == Some(q) && Twins(t, q, p)
    ensures if p < q then LeadingTwins(t, p, q) else LeadingTwins(t, q, p)
  {
    ParentIsPreferred(t, h);
    ParentIsPreferred(t, p);
    var a, b := if p < q then p else q, if p < q then q else p;
    assert h != q ==> Contains(t, q, h);
    forall k | 0 <= k < b && k != a ensures !(Contains(t, k, a) && t[k].span == t[a].span) {
      assert Contains(t, k, a) && k != h ==> Contains(t, k, h);
      assert Contains(t, k, a) && k != p ==> Contains(t, k, p);
    }
  }

  lemma {:induction false} ChainEnds(t: Trace, h: nat)
    requires h < |t|
    requires forall a, b | 0 <= a < |t| && 0 <= b < |t| :: !LeadingTwins(t, a, b)
    ensures Ends(t, h)
    decreases |Containers(t, h)|
  {
    ParentIsPreferred(t, h);
    match Parent(t, h)
    case None =>
      EndsThroughParent(t, h);
    case Some(p) =>
      if !Twins(t, p, h) {
        ParentContainsStrictly(t, h);
        ChainEnds(t, p);
      } else {
        ParentIsPreferred(t, p);
        assert Contains(t, h, p);
        var q := Parent(t, p).value;
        if Twins(t, q, p) {
          TwinParentsLead(t, h, p, q);
        } else {
          SameContainers(t, h, p);
          ParentContainsStrictly(t, p);
          ChainEnds(t, q);
          EndsThroughParent(t, p);
        }
      }
      EndsThroughParent(t, h);
  }

  lemma {:induction false} SameContainers(t: Trace, a: nat, b: nat)
    requires a < |t| && b < |t| && Twins(t, b, a)
    ensures |Containers(t, a)| == |Containers(t, b)|
  {
    assert Containers(t, a) - {b} == Containers(t, b) - {a};
    assert b in Containers(t, a) && a in Containers(t, b);
    assert |Containers(t, a)| == |Containers(t, a) - {b}| + 1;
    assert |Containers(t, b)| == |Containers(t, b) - {a}| + 1;
  }

  /** Leading twins are each other's parents, and their chains go round for ever. */
  lemma {:induction false} LeadingTwinsLoop(t: Trace, a: nat, b: nat, k: nat)
    requires a < |t| && b < |t| && LeadingTwins(t, a, b)
    ensures Up(t, a, k) == Some(if k % 2 == 0 then a else b)
  {
    assert Contains(t, a, b) && Contains(t, b, a);
    ParentIsPreferred(t, a);
    ParentIsPreferred(t, b);
    assert Contains(t, Parent(t, b).value, a) || Parent(t, b).value == a;
    assert Parent(t, a) == Some(b) && Parent(t, b) == Some(a);
    if k > 0 {
      LeadingTwinsLoop(t, a, b, k - 1);
    }
  }

  /** The exact condition for a forest: every parent chain comes to a root, unless two twins lead their class. */
  lemma {:induction false} ForestIff(t: Trace)
    ensures (forall h | 0 <= h < |t| :: Ends(t, h)) <==>
            forall a, b | 0 <= a < |t| && 0 <= b < |t| :: !LeadingTwins(t, a, b)
  {
    if a, b :| 0 <= a < |t| && 0 <= b < |t| && LeadingTwins(t, a, b) {
      forall k: nat ensures Up(t, a, k).Some? {
        LeadingTwinsLoop(t, a, b, k);
      }
      assert !Ends(t, a);
    } else {
      forall h | 0 <= h < |t| ensures Ends(t, h) {
        ChainEnds(t, h);
      }
    }
  }

  /** Distinct (receive, emit, span) triples always give a forest. */
  lemma {:induction false} DistinctTriplesMakeForest(t: Trace)
    requires forall a, b | 0 <= a < b < |t| :: !Twins(t, a, b)
    ensures forall h | 0 <= h < |t| :: Ends(t, h)
  {
    ForestIff(t);
  }
}
