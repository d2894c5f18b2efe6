/** Bandwidth ranges of a plan, expanded: `_expand_experiments` of 5g-probe/probe/application.py, lines 3155 to 3200. */
module Expansion {
  import opened Bytes

  datatype Bandwidth = Given(text: string) | Mbit(rate: int)

  /** Labels are kept as what they are made of: a given text, a range entry's parts, or an entry's own parts. */
  datatype Label = Text(text: string)
                 | OfRange(kind: string, direction: string, protocol: string, rate: int)
                 | OfParts(kind: string, direction: string, protocol: string, bandwidth: Option<Bandwidth>)

  /** A key of the entry: missing, null, or with a text. */
  datatype Field = Missing | Null | Value(text: string)

  /** A JSON value, as the code looks at it: whether it counts as true, and what `int` makes of it, None for an error. */
  datatype Number = Number(truthy: bool, toInt: Option<int>)

  datatype Experiment = Experiment(start: Option<Number>, end: Option<Number>, step: Option<Number>, id: Option<nat>,
                                   kind: string, direction: string, protocol: string, bandwidth: Option<Bandwidth>,
                                   caption: Option<Label>, state: Field, result: Field, error: Field,
                                   startedAt: Field, completedAt: Field)

  /** The step is looked at as it is given: a number 0 makes no range, but the text "0" and 0.5 do. */
  predicate IsRange(x: Experiment) {
    x.start.Some? && x.end.Some? && x.step.Some? && x.step.value.truthy
  }

  /** What `int` is applied to: both bounds of a range, and its step once there is an entry. */
  predicate Reads(x: Experiment) {
    IsRange(x) ==>
      && x.start.value.toInt.Some? && x.end.value.toInt.Some?
      && (x.start.value.toInt.value <= x.end.value.toInt.value ==> x.step.value.toInt.Some?)
  }

  predicate IsReadRange(x: Experiment) {
    IsRange(x) && Reads(x)
  }

  function First(x: Experiment): int
    requires IsReadRange(x)
  {
    x.start.value.toInt.value
  }

  function Last(x: Experiment): int
    requires IsReadRange(x)
  {
    x.end.value.toInt.value
  }

  /** The step of a range; 0 for one that is never looked at. */
  function Step(x: Experiment): int
    requires IsReadRange(x)
  {
    if x.step.value.toInt.Some? then x.step.value.toInt.value else 0
  }

  function SetDefault(f: Field, value: Field): Field {
    if f.Missing? then value else f
  }

  function Stamped(x: Experiment, n: nat): Experiment {
    x.(start := None, end := None, step := None, id := Some(n),
       state := SetDefault(x.state, Value("pending")), result := SetDefault(x.result, Null),
       error := SetDefault(x.error, Null),
       startedAt := SetDefault(x.startedAt, Null), completedAt := SetDefault(x.completedAt, Null))
  }

  function AtRate(x: Experiment, rate: int, n: nat): Experiment {
    Stamped(x.(bandwidth := Some(Mbit(rate)), caption := Some(OfRange(x.kind, x.direction, x.protocol, rate))), n)
  }

  /** Whether a label counts as given: the empty text does not, nor parts that are all empty. */
  predicate HasLabel(x: Experiment) {
    match x.caption
    case None => false
    case Some(Text(t)) => t != ""
    case Some(OfRange(_, _, _, _)) => true
    case Some(OfParts(k, d, p, b)) => k != "" || d != "" || p != "" || (b.Some? && b.value != Given(""))
  }

  function Single(x: Experiment, n: nat): Experiment {
    Stamped(if HasLabel(x) then x else x.(caption := Some(OfParts(x.kind, x.direction, x.protocol, x.bandwidth))), n)
  }

  /** A range whose loop ends, or raises; any other entry has no loop. */
  predicate Ends(x: Experiment) {
    IsReadRange(x) ==> Step(x) >= 1 || First(x) > Last(x)
  }

  /** The template is expanded: nothing raises, and the loop ends. */
  predicate Expands(x: Experiment) {
    Reads(x) && Ends(x)
  }

  /** The entries of a range from a rate on. */
  function FromRate(x: Experiment, rate: int, n: nat): seq<Experiment>
    requires IsReadRange(x) && (Step(x) >= 1 || rate > Last(x))
    decreases Last(x) - rate
  {
    if rate > Last(x) then [] else [AtRate(x, rate, n)] + FromRate(x, rate + Step(x), n + 1)
  }

  function Entries(x: Experiment, n: nat): seq<Experiment>
    requires Expands(x)
  {
    if IsRange(x) then FromRate(x, First(x), n) else [Single(x, n)]
  }

  /** The first n templates are expanded. */
  ghost predicate AllExpand(raw: seq<Experiment>, n: nat)
    requires n <= |raw|
  {
    forall i | 0 <= i < n :: Expands(raw[i])
  }

  /** How many entries a template gives. */
  function Count(x: Experiment): nat
    requires Expands(x)
  {
    if !IsRange(x) then 1
    else if First(x) > Last(x) then 0
    else (Last(x) - First(x)) / Step(x) + 1
  }

  /** How many entries the first n templates give. */
  function Total(raw: seq<Experiment>, n: nat): nat
    requires n <= |raw| && AllExpand(raw, n)
  {
    if n == 0 then 0 else Total(raw, n - 1) + Count(raw[n - 1])
  }

  /** The entries of template i, numbered on from those of the templates before it. */
  function OwnEntries(raw: seq<Experiment>, i: nat): seq<Experiment>
    requires i < |raw| && AllExpand(raw, i + 1)
  {
    Entries(raw[i], Total(raw, i) + 1)
  }

  /** The entries of the first n templates. */
  function Expand(raw: seq<Experiment>, n: nat): seq<Experiment>
    requires n <= |raw| && AllExpand(raw, n)
  {
    if n == 0 then [] else Expand(raw, n - 1) + OwnEntries(raw, n - 1)
  }

  method ExpandRange(x: Experiment, idx: nat) returns (entries: seq<Experiment>)
    requires IsRange(x) && Expands(x)
    ensures entries == FromRate(x, First(x), idx)
  {
    entries := [];
    var bw, n := First(x), idx;
    while bw <= Last(x)
      invariant Step(x) >= 1 || bw > Last(x)
      invariant FromRate(x, First(x), idx) == entries + FromRate(x, bw, n)
      decreases Last(x) - bw
    {
      Associate(entries, [AtRate(x, bw, n)], FromRate(x, bw + Step(x), n + 1));
      entries := entries + [AtRate(x, bw, n)];
      bw, n := bw + Step(x), n + 1;
    }
  }

  /** No loop that is reached runs for ever; what follows a template that raises is not reached. */
  ghost predicate ReachedEnd(raw: seq<Experiment>) {
    forall i | 0 <= i < |raw| && (forall j | 0 <= j < i :: Reads(raw[j])) :: Ends(raw[i])
  }

  method ExpandOne(x: Experiment, idx: nat) returns (entries: seq<Experiment>)
    requires Expands(x)
    ensures entries == Entries(x, idx)
  {
    if IsRange(x) {
      entries := ExpandRange(x, idx);
    } else {
      entries := [Single(x, idx)];
    }
  }

  lemma {:induction false} OneMore(raw: seq<Experiment>, i: nat)
    requires i < |raw| && AllExpand(raw, i) && Expands(raw[i])
    ensures AllExpand(raw, i + 1)
    ensures var more := Entries(raw[i], Total(raw, i) + 1);
            Expand(raw, i + 1) == Expand(raw, i) + more && Total(raw, i + 1) == Total(raw, i) + |more|
  {
    EntriesAre(raw[i], Total(raw, i) + 1);
  }

  /** None stands for the exception that `int` raises. */
  method ExpandAll(raw: seq<Experiment>) returns (result: Option<seq<Experiment>>)
    requires ReachedEnd(raw)
    ensures result.Some? <==> AllExpand(raw, |raw|)
    ensures result.Some? ==> result.value == Expand(raw, |raw|)
  {
    var entries, idx := [], 1;
    for i := 0 to |raw|
      invariant AllExpand(raw, i) && entries == Expand(raw, i) && idx == Total(raw, i) + 1
    {
      assert Ends(raw[i]);
      if !Reads(raw[i]) {
        return None;
      }
      OneMore(raw, i);
      var more := ExpandOne(raw[i], idx);
      entries, idx := entries + more, idx + |more|;
    }
    result := Some(entries);
  }

  // ---------------------------------------------------------------- how many, and which

  lemma {:induction false} MoreTimes(p: int, q: int, s: int)
    requires s >= 1 && p > q
    ensures p * s >= q * s + s
    decreases p - q
  {
    OneLess(p, s);
    if p > q + 1 {
      MoreTimes(p - 1, q, s);
    }
  }

  lemma {:induction false} Euclid(d: int, s: int)
    requires s >= 1
    ensures d == (d / s) * s + d % s && 0 <= d % s < s
  {
  }

  lemma {:induction false} QuotientIs(d: int, s: int, q: int, r: int)
    requires s >= 1 && d == q * s + r && 0 <= r < s
    ensures d / s == q
  {
    var p, m := d / s, d % s;
    Euclid(d, s);
    if p > q {
      MoreTimes(p, q, s);
    } else if q > p {
      MoreTimes(q, p, s);
    }
  }

  lemma {:induction false} OneStepLess(d: int, s: int)
    requires s >= 1 && d >= 0
    ensures d < s ==> d / s == 0
    ensures d >= s ==> d / s == (d - s) / s + 1
  {
    if d >= s {
      Euclid(d, s);
      var q := d / s;
      assert (q - 1) * s == q * s - s;
      QuotientIs(d - s, s, q - 1, d % s);
    } else {
      QuotientIs(d, s, 0, d);
    }
  }

  lemma {:induction false} RangeLength(x: Experiment, rate: int, n: nat)
    requires IsReadRange(x) && (Step(x) >= 1 || rate > Last(x))
    ensures |FromRate(x, rate, n)| == if rate > Last(x) then 0 else (Last(x) - rate) / Step(x) + 1
    decreases Last(x) - rate
  {
    if rate <= Last(x) {
      RangeLength(x, rate + Step(x), n + 1);
      OneStepLess(Last(x) - rate, Step(x));
    }
  }

  lemma {:induction false} OneLess(k: int, s: int)
    ensures s + (k - 1) * s == k * s
  {
  }

  lemma {:induction false} RangeIs(x: Experiment, rate: int, n: nat, k: nat)
    requires IsReadRange(x) && (Step(x) >= 1 || rate > Last(x)) && k < |FromRate(x, rate, n)|
    ensures FromRate(x, rate, n)[k] == AtRate(x, rate + k * Step(x), n + k)
    decreases k
  {
    if k > 0 {
      RangeIs(x, rate + Step(x), n + 1, k - 1);
      OneLess(k, Step(x));
    }
  }

  /** A non-empty range gives floor((end - start) / step) + 1 entries, one per rate, in order. */
  lemma {:induction false} EntriesAre(x: Experiment, n: nat)
    requires Expands(x)
    ensures |Entries(x, n)| == Count(x)
    ensures IsRange(x) ==> forall k | 0 <= k < |Entries(x, n)| ::
              Entries(x, n)[k] == AtRate(x, First(x) + k * Step(x), n + k)
  {
    if IsRange(x) {
      RangeLength(x, First(x), n);
      forall k | 0 <= k < |Entries(x, n)|
        ensures Entries(x, n)[k] == AtRate(x, First(x) + k * Step(x), n + k)
      {
        RangeIs(x, First(x), n, k);
      }
    }
  }

  /** Every rate up to the end is there: the next one would pass it. */
  lemma {:induction false} LastRate(x: Experiment)
    requires IsRange(x) && Expands(x) && First(x) <= Last(x)
    ensures First(x) + (Count(x) - 1) * Step(x) <= Last(x) < First(x) + Count(x) * Step(x)
  {
    var d, s := Last(x) - First(x), Step(x);
    Euclid(d, s);
    OneLess(d / s + 1, s);
  }

  /** The loop of a range ends exactly when its step is at least 1 or its start is past its end. */
  lemma {:induction false} EndsIff(x: Experiment)
    requires IsReadRange(x)
    ensures Ends(x) <==> exists k: nat :: PastEnd(x, k)
  {
    var a, b, s := First(x), Last(x), Step(x);
    if s >= 1 {
      var k: nat := if b >= a then b - a + 1 else 0;
      Grows(k, s);
      assert PastEnd(x, k);
    } else if a > b {
      assert PastEnd(x, 0);
    } else {
      forall k: nat ensures !PastEnd(x, k) {
        Shrinks(k, s);
      }
    }
  }

  /** A range from 10 to 20 whose step is the text "0", as the form sends it: no rate passes the end. */
  lemma {:induction false} ZeroAsText(x: Experiment)
    requires x.start == Some(Number(true, Some(10))) && x.end == Some(Number(true, Some(20)))
    requires x.step == Some(Number(true, Some(0)))
    ensures IsReadRange(x) && !Ends(x) && forall k: nat :: !PastEnd(x, k)
  {
    EndsIff(x);
  }

  ghost predicate PastEnd(x: Experiment, k: nat)
    requires IsReadRange(x)
  {
    First(x) + k * Step(x) > Last(x)
  }

  lemma {:induction false} Grows(k: nat, s: int)
    requires s >= 1
    ensures k * s >= k
  {
  }

  lemma {:induction false} Shrinks(k: nat, s: int)
    requires s <= 0
    ensures k * s <= 0
  {
  }

  // ---------------------------------------------------------------- the whole plan

  lemma {:induction false} ExpandLength(raw: seq<Experiment>, n: nat)
    requires n <= |raw| && AllExpand(raw, n)
    ensures |Expand(raw, n)| == Total(raw, n)
  {
    if n > 0 {
      ExpandLength(raw, n - 1);
      EntriesAre(raw[n - 1], Total(raw, n - 1) + 1);
    }
  }

  /** Each template's entries stand together, in the templates' order. */
  lemma {:induction false} InOrder(raw: seq<Experiment>, i: nat, n: nat) returns (after: seq<Experiment>)
    requires i < n <= |raw| && AllExpand(raw, n)
    ensures |Expand(raw, i)| == Total(raw, i)
    ensures Expand(raw, n) == Expand(raw, i) + OwnEntries(raw, i) + after
    decreases n
  {
    ExpandLength(raw, i);
    if i == n - 1 {
      after := [];
      NothingAfter(Expand(raw, i), OwnEntries(raw, i));
    } else {
      var between := InOrder(raw, i, n - 1);
      AssociateFour(Expand(raw, i), OwnEntries(raw, i), between, OwnEntries(raw, n - 1));
      after := between + OwnEntries(raw, n - 1);
    }
  }

  lemma {:induction false} NothingAfter<T>(a: seq<T>, b: seq<T>)
    ensures a + b == a + b + []
  {
  }

  /** Numbered n, without a range, and with everything that an entry is given. */
  ghost predicate IsPlain(x: Experiment, n: nat) {
    x.id == Some(n) && NoRange(x) && Labelled(x) && Complete(x)
  }

  predicate NoRange(x: Experiment) {
    x.start.None? && x.end.None? && x.step.None?
  }

  predicate Labelled(x: Experiment) {
    HasLabel(x) || x.caption == Some(OfParts(x.kind, x.direction, x.protocol, x.bandwidth))
  }

  predicate Complete(x: Experiment) {
    !x.state.Missing? && !x.result.Missing? && !x.error.Missing? && !x.startedAt.Missing? && !x.completedAt.Missing?
  }

  lemma {:induction false} StampedIsPlain(x: Experiment, n: nat, rate: int)
    ensures IsPlain(Single(x, n), n) && IsPlain(AtRate(x, rate, n), n)
  {
  }

  ghost predicate PlainFrom(xs: seq<Experiment>, n: nat) {
    forall i | 0 <= i < |xs| :: IsPlain(xs[i], n + i)
  }

  lemma {:induction false} EntriesArePlain(x: Experiment, n: nat)
    requires Expands(x)
    ensures PlainFrom(Entries(x, n), n)
  {
    EntriesAre(x, n);
    forall k | 0 <= k < |Entries(x, n)| ensures IsPlain(Entries(x, n)[k], n + k) {
      StampedIsPlain(x, n + k, if IsRange(x) then First(x) + k * Step(x) else 0);
    }
  }

  lemma {:induction false} OwnArePlain(raw: seq<Experiment>, i: nat)
    requires i < |raw| && AllExpand(raw, i + 1)
    ensures PlainFrom(OwnEntries(raw, i), Total(raw, i) + 1)
  {
    EntriesArePlain(raw[i], Total(raw, i) + 1);
  }

  lemma {:induction false} PlainTogether(xs: seq<Experiment>, ys: seq<Experiment>, n: nat)
    requires PlainFrom(xs, 1) && PlainFrom(ys, n) && n == |xs| + 1
    ensures PlainFrom(xs + ys, 1)
  {
    assert forall i | |xs| <= i < |xs + ys| :: (xs + ys)[i] == ys[i - |xs|];
  }

  lemma {:induction false} OneMorePlain(xs: seq<Experiment>, raw: seq<Experiment>, i: nat)
    requires i < |raw| && AllExpand(raw, i + 1) && |xs| == Total(raw, i) && PlainFrom(xs, 1)
    ensures PlainFrom(xs + OwnEntries(raw, i), 1)
  {
    OwnArePlain(raw, i);
    PlainTogether(xs, OwnEntries(raw, i), |xs| + 1);
  }

  /** The entries are numbered 1, 2, 3 and so on, and expanding one of them by itself changes nothing. */
  lemma {:induction false} Numbered(raw: seq<Experiment>, n: nat)
    requires n <= |raw| && AllExpand(raw, n)
    ensures PlainFrom(Expand(raw, n), 1)
  {
    if n > 0 {
      Numbered(raw, n - 1);
      ExpandLength(raw, n - 1);
      OneMorePlain(Expand(raw, n - 1), raw, n - 1);
    }
  }

  lemma {:induction false} PlainIsItself(x: Experiment, n: nat)
    requires IsPlain(x, n)
    ensures Expands(x) && Entries(x, n) == [x]
  {
  }

  lemma {:induction false} OneMoreItself(xs: seq<Experiment>, n: nat)
    requires n < |xs| && AllExpand(xs, n) && Total(xs, n) == n && IsPlain(xs[n], n + 1)
    ensures AllExpand(xs, n + 1) && OwnEntries(xs, n) == [xs[n]]
  {
    PlainIsItself(xs[n], n + 1);
  }

  lemma {:induction false} PlainStays(xs: seq<Experiment>, n: nat)
    requires n <= |xs| && PlainFrom(xs, 1)
    ensures AllExpand(xs, n) && Expand(xs, n) == xs[..n]
  {
    if n > 0 {
      PlainStays(xs, n - 1);
      ExpandLength(xs, n - 1);
      assert IsPlain(xs[n - 1], 1 + (n - 1));
      OneMoreItself(xs, n - 1);
      assert xs[..n] == xs[..n - 1] + [xs[n - 1]];
    }
  }

  /** Expanding an expanded plan changes nothing. */
  lemma {:induction false} Idempotent(raw: seq<Experiment>)
    requires AllExpand(raw, |raw|)
    ensures var es := Expand(raw, |raw|);
            AllExpand(es, |es|) && Expand(es, |es|) == es
  {
    Numbered(raw, |raw|);
    var es := Expand(raw, |raw|);
    PlainStays(es, |es|);
    assert es[..|es|] == es;
  }
}
