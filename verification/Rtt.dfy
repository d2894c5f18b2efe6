/**
  Echo accounting of experiments/network/rtt.py: `split` and `point_times`, the two readers of echo
  requests and replies, and `segments`, the parts of the core.
  */
module Rtt {
  import opened Bytes

  /**
    A captured IPv4 packet, by itself or, with `gtpu`, inside GTP-U; `icmp` says that it is ICMP with
    its first 8 bytes there, and only then do `kind`, `ident` and `seqno` mean something.
    */
  datatype Row = Row(t: real, gtpu: bool, icmp: bool, kind: nat, src: string, dst: string, ident: nat, seqno: nat)

  datatype Key = Key(ue: string, ident: nat, seqno: nat)

  predicate IsRequest(r: Row, target: string) {
    r.icmp && r.kind == 8 && r.dst == target
  }

  predicate IsReply(r: Row, target: string) {
    r.icmp && r.kind == 0 && r.src == target
  }

  function RequestKey(r: Row): Key {
    Key(r.src, r.ident, r.seqno)
  }

  function ReplyKey(r: Row): Key {
    Key(r.dst, r.ident, r.seqno)
  }

  /** The times of all requests with a key, in the capture's order. */
  function Requests(rows: seq<Row>, target: string, k: Key): seq<real> {
    if rows == [] then [] else
    var before, r := Requests(rows[..|rows| - 1], target, k), rows[|rows| - 1];
    if IsRequest(r, target) && RequestKey(r) == k then before + [r.t] else before
  }

  function Replies(rows: seq<Row>, target: string, k: Key): seq<real> {
    if rows == [] then [] else
    var before, r := Replies(rows[..|rows| - 1], target, k), rows[|rows| - 1];
    if IsReply(r, target) && ReplyKey(r) == k then before + [r.t] else before
  }

  /** The packets `split` looks at. */
  function Inner(rows: seq<Row>): seq<Row> {
    if rows == [] then [] else
    var before := Inner(rows[..|rows| - 1]);
    if rows[|rows| - 1].gtpu then before + [rows[|rows| - 1]] else before
  }

  function RequestsFrom(rows: seq<Row>, target: string, src: string): nat {
    if rows == [] then 0 else
    RequestsFrom(rows[..|rows| - 1], target, src)
    + if IsRequest(rows[|rows| - 1], target) && rows[|rows| - 1].src == src then 1 else 0
  }

  // ---------------------------------------------------------------- split: the first pass

  /** A dict filled with setdefault has the first time of each key. */
  ghost predicate HasFirst(m: map<Key, real>, k: Key, times: seq<real>) {
    if times == [] then k !in m else k in m && m[k] == times[0]
  }

  ghost predicate FirstRequests(m: map<Key, real>, rows: seq<Row>, target: string) {
    forall k :: HasFirst(m, k, Requests(rows, target, k))
  }

  ghost predicate FirstReplies(m: map<Key, real>, rows: seq<Row>, target: string) {
    forall k :: HasFirst(m, k, Replies(rows, target, k))
  }

  function SetDefault(m: map<Key, real>, k: Key, t: real): map<Key, real> {
    if k in m then m else m[k := t]
  }

  lemma {:induction false} OneMoreRow(rows: seq<Row>, r: Row, target: string, k: Key)
    ensures Requests(rows + [r], target, k) ==
            Requests(rows, target, k) + if IsRequest(r, target) && RequestKey(r) == k then [r.t] else []
    ensures Replies(rows + [r], target, k) ==
            Replies(rows, target, k) + if IsReply(r, target) && ReplyKey(r) == k then [r.t] else []
  {
    assert (rows + [r])[..|rows|] == rows;
  }

  lemma {:induction false} RequestNoted(m: map<Key, real>, rows: seq<Row>, r: Row, target: string)
    requires FirstRequests(m, rows, target)
    ensures FirstRequests(if IsRequest(r, target) then SetDefault(m, RequestKey(r), r.t) else m, rows + [r], target)
  {
    var after := if IsRequest(r, target) then SetDefault(m, RequestKey(r), r.t) else m;
    forall k ensures HasFirst(after, k, Requests(rows + [r], target, k)) {
      assert HasFirst(m, k, Requests(rows, target, k));
      OneMoreRow(rows, r, target, k);
    }
  }

  lemma {:induction false} ReplyNoted(m: map<Key, real>, rows: seq<Row>, r: Row, target: string)
    requires FirstReplies(m, rows, target)
    ensures FirstReplies(if IsReply(r, target) then SetDefault(m, ReplyKey(r), r.t) else m, rows + [r], target)
  {
    var after := if IsReply(r, target) then SetDefault(m, ReplyKey(r), r.t) else m;
    forall k ensures HasFirst(after, k, Replies(rows + [r], target, k)) {
      assert HasFirst(m, k, Replies(rows, target, k));
      OneMoreRow(rows, r, target, k);
    }
  }

  /** A Counter, in order of first appearance. */
  ghost predicate Counts(sources: map<string, nat>, order: seq<string>, rows: seq<Row>, target: string) {
    && (forall s :: s in order <==> s in sources)
    && (forall s :: RequestsFrom(rows, target, s) == if s in sources then sources[s] else 0)
    && (forall s | s in sources :: sources[s] > 0)
  }

  datatype Item = Item(key: Key, t: real)

  ghost predicate DistinctKeys(items: seq<Item>) {
    forall i, j | 0 <= i < j < |items| :: items[i].key != items[j].key
  }

  ghost predicate Listed(items: seq<Item>, k: Key, t: real) {
    Item(k, t) in items
  }

  /** The items of a dict, each once. */
  ghost predicate ItemsOf(items: seq<Item>, m: map<Key, real>) {
    && DistinctKeys(items)
    && (forall x | x in items :: x.key in m && m[x.key] == x.t)
    && (forall k | k in m :: Listed(items, k, m[k]))
  }

  lemma {:induction false} ItemNoted(items: seq<Item>, m: map<Key, real>, k: Key, t: real)
    requires ItemsOf(items, m) && k !in m
    ensures ItemsOf(items + [Item(k, t)], m[k := t])
  {
    var all, after := items + [Item(k, t)], m[k := t];
    assert forall x | x in items :: x.key != k;
    forall j | j in after ensures Listed(all, j, after[j]) {
      if j != k {
        assert Listed(items, j, m[j]);
      } else {
        assert all[|items|] == Item(k, t);
      }
    }
  }

  /** The first pass: the requests in order of first appearance, the replies, and the sources counted. */
  method Read(rows: seq<Row>, target: string) returns (reqs: map<Key, real>, items: seq<Item>, reps: map<Key, real>,
                                                       sources: map<string, nat>, order: seq<string>)
    ensures FirstRequests(reqs, Inner(rows), target) && FirstReplies(reps, Inner(rows), target)
    ensures ItemsOf(items, reqs)
    ensures Counts(sources, order, Inner(rows), target)
  {
    reqs, items, reps, sources, order := map[], [], map[], map[], [];
    for i := 0 to |rows|
      invariant FirstRequests(reqs, Inner(rows[..i]), target) && FirstReplies(reps, Inner(rows[..i]), target)
      invariant ItemsOf(items, reqs)
      invariant Counts(sources, order, Inner(rows[..i]), target)
    {
      var r := rows[i];
      assert rows[..i + 1][..i] == rows[..i];
      if r.gtpu {
        RequestNoted(reqs, Inner(rows[..i]), r, target);
        ReplyNoted(reps, Inner(rows[..i]), r, target);
        SourceNoted(sources, order, Inner(rows[..i]), r, target);
        if IsRequest(r, target) {
          if RequestKey(r) !in reqs {
            ItemNoted(items, reqs, RequestKey(r), r.t);
            items := items + [Item(RequestKey(r), r.t)];
          }
          reqs := SetDefault(reqs, RequestKey(r), r.t);
          if r.src in sources {
            sources := sources[r.src := sources[r.src] + 1];
          } else {
            sources, order := sources[r.src := 1], order + [r.src];
          }
        } else if IsReply(r, target) {
          reps := SetDefault(reps, ReplyKey(r), r.t);
        }
      }
    }
    assert rows[..|rows|] == rows;
  }

  lemma {:induction false} SourceNoted(sources: map<string, nat>, order: seq<string>, rows: seq<Row>, r: Row,
                                       target: string)
    requires Counts(sources, order, rows, target)
    ensures !IsRequest(r, target) ==> Counts(sources, order, rows + [r], target)
    ensures IsRequest(r, target) && r.src in sources
            ==> Counts(sources[r.src := sources[r.src] + 1], order, rows + [r], target)
    ensures IsRequest(r, target) && r.src !in sources
            ==> Counts(sources[r.src := 1], order + [r.src], rows + [r], target)
  {
    assert (rows + [r])[..|rows|] == rows;
  }

  /** `most_common(1)`: the source of most requests, the first one seen of several. */
  method MostCommon(sources: map<string, nat>, order: seq<string>) returns (ue: string)
    requires order != [] && forall s :: s in order <==> s in sources
    ensures ue in sources && forall s | s in sources :: sources[s] <= sources[ue]
    ensures exists k | 0 <= k < |order| ::
              order[k] == ue && forall j | 0 <= j < k :: order[j] in sources && sources[order[j]] < sources[ue]
  {
    ue := order[0];
    ghost var k := 0;
    for i := 0 to |order|
      invariant 0 <= k < |order| && order[k] == ue && ue in sources
      invariant forall j | 0 <= j < i :: order[j] in sources && sources[order[j]] <= sources[ue]
      invariant forall j | 0 <= j < k :: order[j] in sources && sources[order[j]] < sources[ue]
    {
      assert order[i] in order;
      if sources[order[i]] > sources[ue] {
        ue, k := order[i], i;
      }
    }
  }

  // ---------------------------------------------------------------- split: the flows

  ghost predicate ByTime(items: seq<Item>) {
    forall i, j | 0 <= i < j < |items| :: items[i].t <= items[j].t
  }

  lemma {:induction false} Before(x: Item, items: seq<Item>)
    requires DistinctKeys(items) && forall y | y in items :: y.key != x.key
    ensures DistinctKeys([x] + items)
    ensures ByTime(items) && (items == [] || x.t <= items[0].t) ==> ByTime([x] + items)
  {
    assert ByTime(items) ==> forall j | 0 <= j < |items| :: items[0].t <= items[j].t;
    assert forall j | 0 <= j < |items| :: items[j] in items;
  }

  function InsertItem(x: Item, items: seq<Item>): (r: seq<Item>)
    requires ByTime(items) && DistinctKeys(items) && forall y | y in items :: y.key != x.key
    ensures ByTime(r) && DistinctKeys(r)
    ensures forall y :: y in r <==> y == x || y in items
    ensures r[0] == x || (items != [] && r[0] == items[0])
  {
    if items == [] then [x]
    else if x.t < items[0].t then Before(x, items); [x] + items
    else
      var rest := InsertItem(x, items[1..]);
      assert items == [items[0]] + items[1..];
      assert forall j | 0 < j < |items| :: items[j].key != items[0].key;
      Before(items[0], rest);
      [items[0]] + rest
  }

  /** A stable sort by time. */
  function SortItems(items: seq<Item>): (r: seq<Item>)
    requires DistinctKeys(items)
    ensures ByTime(r) && DistinctKeys(r)
    ensures forall x :: x in r <==> x in items
  {
    if items == [] then [] else
    var n := |items| - 1;
    assert items == items[..n] + [items[n]];
    assert forall j | 0 <= j < n :: items[j].key != items[n].key;
    InsertItem(items[n], SortItems(items[..n]))
  }

  datatype Flow = Flow(first: real, core: map<nat, real>, unpaired: nat, requests: nat)

  function AddTo(f: Flow, x: Item, reps: map<Key, real>): Flow {
    if x.key in reps then f.(requests := f.requests + 1, core := f.core[x.key.seqno := (reps[x.key] - x.t) * 1000.0])
    else f.(requests := f.requests + 1, unpaired := f.unpaired + 1)
  }

  function Book(flows: map<nat, Flow>, x: Item, reps: map<Key, real>, ue: string): map<nat, Flow> {
    if x.key.ue != ue then flows
    else if x.key.ident in flows then flows[x.key.ident := AddTo(flows[x.key.ident], x, reps)]
    else flows[x.key.ident := AddTo(Flow(x.t, map[], 0, 0), x, reps)]
  }

  function Flows(items: seq<Item>, reps: map<Key, real>, ue: string): map<nat, Flow> {
    if items == [] then map[] else Book(Flows(items[..|items| - 1], reps, ue), items[|items| - 1], reps, ue)
  }

  /** The sequence numbers a flow asked with. */
  function AskedIn(items: seq<Item>, ue: string, ident: nat): set<nat> {
    if items == [] then {} else
    var before, k := AskedIn(items[..|items| - 1], ue, ident), items[|items| - 1].key;
    if k.ue == ue && k.ident == ident then before + {k.seqno} else before
  }

  lemma {:induction false} AskedIs(items: seq<Item>, ue: string, ident: nat, n: nat)
    ensures n in AskedIn(items, ue, ident) <==> exists i | 0 <= i < |items| :: items[i].key == Key(ue, ident, n)
  {
    if items != [] {
      AskedIs(items[..|items| - 1], ue, ident, n);
    }
  }

  /** A flow's counts and times against its items. */
  ghost predicate FlowIs(f: Flow, items: seq<Item>, reps: map<Key, real>, ue: string, ident: nat) {
    && f.requests == |AskedIn(items, ue, ident)| == |f.core| + f.unpaired
    && f.core.Keys <= AskedIn(items, ue, ident)
    && (forall i | 0 <= i < |items| && InFlow(items[i], ue, ident) :: Booked(f, items[i], reps))
  }

  predicate InFlow(x: Item, ue: string, ident: nat) {
    x.key.ue == ue && x.key.ident == ident
  }

  ghost predicate Booked(f: Flow, x: Item, reps: map<Key, real>) {
    && (x.key.seqno in f.core <==> x.key in reps)
    && (x.key in reps ==> f.core[x.key.seqno] == (reps[x.key] - x.t) * 1000.0)
    && f.first <= x.t
  }

  lemma {:induction false} AddedTo(f: Flow, before: seq<Item>, x: Item, reps: map<Key, real>, ue: string, ident: nat)
    requires DistinctKeys(before + [x]) && InFlow(x, ue, ident) && f.first <= x.t
    requires FlowIs(f, before, reps, ue, ident)
    ensures FlowIs(AddTo(f, x, reps), before + [x], reps, ue, ident)
  {
    var items, g := before + [x], AddTo(f, x, reps);
    assert items[..|before|] == before;
    assert forall i | 0 <= i < |before| :: items[i] == before[i] && items[i].key != items[|before|].key;
    AskedIs(before, ue, ident, x.key.seqno);
    assert x.key.seqno !in AskedIn(before, ue, ident);
    forall i | 0 <= i < |items| && InFlow(items[i], ue, ident) ensures Booked(g, items[i], reps) {
      if i < |before| {
        assert Booked(f, before[i], reps);
      }
    }
  }

  lemma {:induction false} AnotherFlow(f: Flow, before: seq<Item>, x: Item, reps: map<Key, real>, ue: string,
                                       ident: nat)
    requires !InFlow(x, ue, ident) && FlowIs(f, before, reps, ue, ident)
    ensures FlowIs(f, before + [x], reps, ue, ident)
  {
    var items := before + [x];
    assert items[..|before|] == before;
    forall i | 0 <= i < |items| && InFlow(items[i], ue, ident) ensures Booked(f, items[i], reps) {
      assert items[i] == before[i];
    }
  }

  lemma {:induction false} FirstIsEarliest(f: Flow, before: seq<Item>, x: Item, reps: map<Key, real>, ue: string,
                                           ident: nat)
    requires FlowIs(f, before, reps, ue, ident) && AskedIn(before, ue, ident) != {} && ByTime(before + [x])
    ensures f.first <= x.t
  {
    var n :| n in AskedIn(before, ue, ident);
    AskedIs(before, ue, ident, n);
    var i :| 0 <= i < |before| && before[i].key == Key(ue, ident, n);
    assert Booked(f, before[i], reps);
    assert (before + [x])[i].t <= (before + [x])[|before|].t;
  }

  lemma {:induction false} NewFlow(before: seq<Item>, x: Item, reps: map<Key, real>, ue: string, ident: nat)
    requires AskedIn(before, ue, ident) == {}
    ensures FlowIs(Flow(x.t, map[], 0, 0), before, reps, ue, ident)
  {
    forall i | 0 <= i < |before| ensures !InFlow(before[i], ue, ident) {
      AskedIs(before, ue, ident, before[i].key.seqno);
    }
  }

  lemma {:induction false} FlowsAre(items: seq<Item>, reps: map<Key, real>, ue: string, ident: nat)
    requires DistinctKeys(items) && ByTime(items)
    ensures ident in Flows(items, reps, ue) <==> AskedIn(items, ue, ident) != {}
    ensures ident in Flows(items, reps, ue) ==> FlowIs(Flows(items, reps, ue)[ident], items, reps, ue, ident)
  {
    if items != [] {
      var n := |items| - 1;
      var before, x := items[..n], items[n];
      FlowsAre(before, reps, ue, ident);
      assert items == before + [x];
      if InFlow(x, ue, ident) {
        if ident in Flows(before, reps, ue) {
          FirstIsEarliest(Flows(before, reps, ue)[ident], before, x, reps, ue, ident);
          AddedTo(Flows(before, reps, ue)[ident], before, x, reps, ue, ident);
        } else {
          NewFlow(before, x, reps, ue, ident);
          AddedTo(Flow(x.t, map[], 0, 0), before, x, reps, ue, ident);
        }
      } else if ident in Flows(before, reps, ue) {
        AnotherFlow(Flows(before, reps, ue)[ident], before, x, reps, ue, ident);
      }
    }
  }

  lemma {:induction false} FirstIsSeen(items: seq<Item>, reps: map<Key, real>, ue: string, ident: nat)
    requires ident in Flows(items, reps, ue)
    ensures exists i ::
              0 <= i < |items| && InFlow(items[i], ue, ident) && items[i].t == Flows(items, reps, ue)[ident].first
  {
    var n := |items| - 1;
    if ident in Flows(items[..n], reps, ue) {
      FirstIsSeen(items[..n], reps, ue, ident);
    } else {
      assert InFlow(items[n], ue, ident);
    }
  }

  // ---------------------------------------------------------------- split: what it tells

  /** The sequence numbers that a UE asked with under one ICMP id. */
  function Asked(rows: seq<Row>, target: string, ue: string, ident: nat): set<nat> {
    if rows == [] then {} else
    var before, r := Asked(rows[..|rows| - 1], target, ue, ident), rows[|rows| - 1];
    if IsRequest(r, target) && r.src == ue && r.ident == ident then before + {r.seqno} else before
  }

  lemma {:induction false} AskedHasRequest(rows: seq<Row>, target: string, ue: string, ident: nat, n: nat)
    ensures n in Asked(rows, target, ue, ident) <==> Requests(rows, target, Key(ue, ident, n)) != []
  {
    if rows != [] {
      AskedHasRequest(rows[..|rows| - 1], target, ue, ident, n);
    }
  }

  /** The core time of an echo: from the first request with its key to the first reply. */
  ghost predicate CoreIs(f: Flow, rows: seq<Row>, target: string, k: Key) {
    var asked, answered := Requests(rows, target, k), Replies(rows, target, k);
    && (k.seqno in f.core <==> asked != [] && answered != [])
    && (k.seqno in f.core ==> f.core[k.seqno] == (answered[0] - asked[0]) * 1000.0)
    && (asked != [] ==> f.first <= asked[0])
  }

  /** Requests counted once each, paired or unpaired; the core times; the time of the earliest request. */
  ghost predicate FlowOf(f: Flow, rows: seq<Row>, target: string, ue: string, ident: nat) {
    && f.requests == |Asked(rows, target, ue, ident)| == |f.core| + f.unpaired
    && (forall n :: CoreIs(f, rows, target, Key(ue, ident, n)))
    && (exists n :: IsFirst(f, rows, target, Key(ue, ident, n)))
  }

  ghost predicate IsFirst(f: Flow, rows: seq<Row>, target: string, k: Key) {
    Requests(rows, target, k) != [] && f.first == Requests(rows, target, k)[0]
  }

  lemma {:induction false} AskedAreItems(rows: seq<Row>, target: string, reqs: map<Key, real>, items: seq<Item>,
                                         sorted: seq<Item>,
                      ue: string, ident: nat)
    requires FirstRequests(reqs, rows, target) && ItemsOf(items, reqs) && forall x :: x in sorted <==> x in items
    ensures AskedIn(sorted, ue, ident) == Asked(rows, target, ue, ident)
  {
    forall n ensures n in AskedIn(sorted, ue, ident) <==> n in Asked(rows, target, ue, ident) {
      var k := Key(ue, ident, n);
      AskedIs(sorted, ue, ident, n);
      AskedHasRequest(rows, target, ue, ident, n);
      assert HasFirst(reqs, k, Requests(rows, target, k));
      if k in reqs {
        assert Listed(items, k, reqs[k]);
        assert Item(k, reqs[k]) in sorted;
      }
    }
  }

  lemma {:induction false} FlowTells(rows: seq<Row>, target: string, reqs: map<Key, real>, items: seq<Item>,
                                     sorted: seq<Item>,
                  reps: map<Key, real>, ue: string, ident: nat)
    requires FirstRequests(reqs, rows, target) && FirstReplies(reps, rows, target) && ItemsOf(items, reqs)
    requires (forall x :: x in sorted <==> x in items) && DistinctKeys(sorted) && ByTime(sorted)
    ensures ident in Flows(sorted, reps, ue) <==> Asked(rows, target, ue, ident) != {}
    ensures ident in Flows(sorted, reps, ue) ==> FlowOf(Flows(sorted, reps, ue)[ident], rows, target, ue, ident)
  {
    AskedAreItems(rows, target, reqs, items, sorted, ue, ident);
    FlowsAre(sorted, reps, ue, ident);
    if ident in Flows(sorted, reps, ue) {
      var f := Flows(sorted, reps, ue)[ident];
      forall n ensures CoreIs(f, rows, target, Key(ue, ident, n)) {
        CoreTells(rows, target, reqs, items, sorted, reps, ue, ident, f, n);
      }
      FirstIsSeen(sorted, reps, ue, ident);
      var i :| 0 <= i < |sorted| && InFlow(sorted[i], ue, ident) && sorted[i].t == f.first;
      var k := sorted[i].key;
      assert sorted[i] in items && HasFirst(reqs, k, Requests(rows, target, k));
      assert IsFirst(f, rows, target, Key(ue, ident, k.seqno));
    }
  }

  lemma {:induction false} CoreTells(rows: seq<Row>, target: string, reqs: map<Key, real>, items: seq<Item>,
                                     sorted: seq<Item>,
                  reps: map<Key, real>, ue: string, ident: nat, f: Flow, n: nat)
    requires FirstRequests(reqs, rows, target) && FirstReplies(reps, rows, target) && ItemsOf(items, reqs)
    requires forall x :: x in sorted <==> x in items
    requires FlowIs(f, sorted, reps, ue, ident)
    ensures CoreIs(f, rows, target, Key(ue, ident, n))
  {
    var k := Key(ue, ident, n);
    assert HasFirst(reqs, k, Requests(rows, target, k)) && HasFirst(reps, k, Replies(rows, target, k));
    if k in reqs {
      assert Listed(items, k, reqs[k]) && Item(k, reqs[k]) in sorted;
      var i :| 0 <= i < |sorted| && sorted[i] == Item(k, reqs[k]);
      assert Booked(f, sorted[i], reps);
    } else {
      AskedIs(sorted, ue, ident, n);
      assert forall i | 0 <= i < |sorted| :: sorted[i] in items;
    }
  }

  method FlowsOf(items: seq<Item>, reps: map<Key, real>, ue: string) returns (flows: map<nat, Flow>)
    ensures flows == Flows(items, reps, ue)
  {
    flows := map[];
    for i := 0 to |items|
      invariant flows == Flows(items[..i], reps, ue)
    {
      assert items[..i + 1][..i] == items[..i];
      var k := items[i].key;
      if k.ue == ue {
        var f := if k.ident in flows then flows[k.ident] else Flow(items[i].t, map[], 0, 0);
        f := f.(requests := f.requests + 1);
        if k !in reps {
          f := f.(unpaired := f.unpaired + 1);
        } else {
          f := f.(core := f.core[k.seqno := (reps[k] - items[i].t) * 1000.0]);
        }
        flows := flows[k.ident := f];
      }
    }
    assert items[..|items|] == items;
  }

  /** The UE and its echo flows, or None without a request in GTP-U. */
  method Split(rows: seq<Row>, target: string) returns (r: Option<(string, map<nat, Flow>)>)
    ensures r.None? <==> forall s :: RequestsFrom(Inner(rows), target, s) == 0
    ensures r.Some? ==> forall s :: RequestsFrom(Inner(rows), target, s) <= RequestsFrom(Inner(rows), target, r.value.0)
    ensures r.Some? ==> forall ident ::
              && (ident in r.value.1 <==> Asked(Inner(rows), target, r.value.0, ident) != {})
              && (ident in r.value.1 ==> FlowOf(r.value.1[ident], Inner(rows), target, r.value.0, ident))
  {
    var reqs, items, reps, sources, order := Read(rows, target);
    if order == [] {
      return None;
    }
    assert order[0] in order && order[0] in sources;
    assert RequestsFrom(Inner(rows), target, order[0]) > 0;
    var ue := MostCommon(sources, order);
    var sorted := SortItems(items);
    var flows := FlowsOf(sorted, reps, ue);
    forall ident: nat
      ensures ident in flows <==> Asked(Inner(rows), target, ue, ident) != {}
      ensures ident in flows ==> FlowOf(flows[ident], Inner(rows), target, ue, ident)
    {
      FlowTells(Inner(rows), target, reqs, items, sorted, reps, ue, ident);
    }
    r := Some((ue, flows));
  }
}
