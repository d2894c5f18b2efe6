/**
  The parts of the core in experiments/network/rtt.py: `point_times`, the echoes at one capture point,
  and `segments`, what one echo spent between consecutive points.
  */
module RttPoints {
  import opened Bytes
  import opened Rounding
  import opened Rtt
  import opened WeightedSums

  // ---------------------------------------------------------------- one capture point

  datatype Times = Times(request: Option<real>, reply: Option<real>)

  /** `e or t`: a time of 0 counts as none. */
  function Or(e: Option<real>, t: real): Option<real> {
    if e.None? || e.value == 0.0 then Some(t) else e
  }

  function AnyOf(times: seq<real>): Option<real> {
    if times == [] then None else Or(AnyOf(times[..|times| - 1]), times[|times| - 1])
  }

  ghost predicate HasTimes(m: map<Key, Times>, k: Key, asked: seq<real>, answered: seq<real>) {
    && (k in m <==> asked != [] || answered != [])
    && (k in m ==> m[k] == Times(AnyOf(asked), AnyOf(answered)))
  }

  ghost predicate PointTimes(m: map<Key, Times>, rows: seq<Row>, target: string) {
    forall k :: HasTimes(m, k, Requests(rows, target, k), Replies(rows, target, k))
  }

  function Entry(m: map<Key, Times>, k: Key): Times {
    if k in m then m[k] else Times(None, None)
  }

  function Note(m: map<Key, Times>, r: Row, target: string): map<Key, Times> {
    if IsRequest(r, target) then
      var e := Entry(m, RequestKey(r));
      m[RequestKey(r) := e.(request := Or(e.request, r.t))]
    else if IsReply(r, target) then
      var e := Entry(m, ReplyKey(r));
      m[ReplyKey(r) := e.(reply := Or(e.reply, r.t))]
    else m
  }

  lemma {:induction false} AnyOfOneMore(times: seq<real>, t: real)
    ensures AnyOf(times + [t]) == Or(AnyOf(times), t)
  {
    assert (times + [t])[..|times|] == times;
  }

  lemma {:induction false} Noted(m: map<Key, Times>, rows: seq<Row>, r: Row, target: string)
    requires PointTimes(m, rows, target)
    ensures PointTimes(Note(m, r, target), rows + [r], target)
  {
    forall k ensures HasTimes(Note(m, r, target), k, Requests(rows + [r], target, k), Replies(rows + [r], target, k)) {
      var asked, answered := Requests(rows, target, k), Replies(rows, target, k);
      assert HasTimes(m, k, asked, answered);
      OneMoreRow(rows, r, target, k);
      AnyOfOneMore(asked, r.t);
      AnyOfOneMore(answered, r.t);
    }
  }

  method ReadPoint(rows: seq<Row>, target: string) returns (m: map<Key, Times>)
    ensures PointTimes(m, rows, target)
  {
    m := map[];
    for i := 0 to |rows|
      invariant PointTimes(m, rows[..i], target)
    {
      var r := rows[i];
      Noted(m, rows[..i], r, target);
      assert rows[..i + 1] == rows[..i] + [r];
      if r.icmp {
        if r.kind == 8 && r.dst == target {
          var e := Entry(m, RequestKey(r));
          m := m[RequestKey(r) := e.(request := Or(e.request, r.t))];
        } else if r.kind == 0 && r.src == target {
          var e := Entry(m, ReplyKey(r));
          m := m[ReplyKey(r) := e.(reply := Or(e.reply, r.t))];
        }
      }
    }
    assert rows[..|rows|] == rows;
  }

  /** `e or t` over a capture keeps the first time exactly when that is not 0, or every time is. */
  lemma {:induction false} FirstTimeIff(times: seq<real>)
    requires times != []
    ensures AnyOf(times).Some?
    ensures AnyOf(times) == Some(times[0]) <==> times[0] != 0.0 || forall i | 0 <= i < |times| :: times[i] == 0.0
  {
    var n := |times| - 1;
    if n > 0 {
      FirstTimeIff(times[..n]);
    }
  }

  ghost predicate AllInGtpu(rows: seq<Row>) {
    forall i | 0 <= i < |rows| :: rows[i].gtpu
  }

  lemma {:induction false} InnerIsAll(rows: seq<Row>)
    requires AllInGtpu(rows)
    ensures Inner(rows) == rows
  {
    if rows != [] {
      InnerIsAll(rows[..|rows| - 1]);
      assert rows == rows[..|rows| - 1] + [rows[|rows| - 1]];
    }
  }

  lemma {:induction false} TimesOfRows(rows: seq<Row>, target: string, k: Key)
    requires forall i | 0 <= i < |rows| :: rows[i].t != 0.0
    ensures forall i | 0 <= i < |Requests(rows, target, k)| :: Requests(rows, target, k)[i] != 0.0
    ensures forall i | 0 <= i < |Replies(rows, target, k)| :: Replies(rows, target, k)[i] != 0.0
  {
    if rows != [] {
      TimesOfRows(rows[..|rows| - 1], target, k);
    }
  }

  /** On a capture of GTP-U alone, with no time 0, the two readers agree about every echo of the UE. */
  lemma {:induction false} ReadersAgree(rows: seq<Row>, target: string, m: map<Key, Times>, f: Flow, ue: string,
                                        ident: nat, n: nat)
    requires AllInGtpu(rows) && forall i | 0 <= i < |rows| :: rows[i].t != 0.0
    requires PointTimes(m, rows, target) && FlowOf(f, Inner(rows), target, ue, ident)
    ensures var e := Entry(m, Key(ue, ident, n));
            && (n in f.core <==> e.request.Some? && e.reply.Some?)
            && (n in f.core ==> f.core[n] == (e.reply.value - e.request.value) * 1000.0)
  {
    var k := Key(ue, ident, n);
    var asked, answered := Requests(rows, target, k), Replies(rows, target, k);
    InnerIsAll(rows);
    TimesOfRows(rows, target, k);
    assert HasTimes(m, k, asked, answered) && CoreIs(f, rows, target, k);
    if asked != [] {
      FirstTimeIff(asked);
    }
    if answered != [] {
      FirstTimeIff(answered);
    }
  }

  // ---------------------------------------------------------------- the parts of the core

  /** An echo at one point, when that point saw both packets. */
  datatype Seen = Seen(request: real, reply: real)

  /** What one echo spent between two consecutive points, both ways, in ms. */
  function Between(a: Seen, b: Seen): real {
    ((b.request - a.request) + (a.reply - b.reply)) * 1000.0
  }

  function AtLast(x: Seen): real {
    (x.reply - x.request) * 1000.0
  }

  /** The parts before rounding: each step between points, and the turnaround at the last one. */
  function Parts(points: seq<Seen>): (r: seq<real>)
    requires points != []
    ensures |r| == |points|
  {
    if |points| == 1 then [AtLast(points[0])] else [Between(points[0], points[1])] + Parts(points[1..])
  }

  function Rounded(xs: seq<real>): (r: seq<real>)
    ensures |r| == |xs| && forall i | 0 <= i < |xs| :: r[i] == Round4(xs[i])
  {
    if xs == [] then [] else [Round4(xs[0])] + Rounded(xs[1..])
  }

  predicate Complete(at: seq<Option<Times>>) {
    forall i | 0 <= i < |at| :: at[i].Some? && at[i].value.request.Some? && at[i].value.reply.Some?
  }

  function SeenAt(at: seq<Option<Times>>): (r: seq<Seen>)
    requires Complete(at)
    ensures |r| == |at|
    ensures forall i | 0 <= i < |at| :: r[i] == Seen(at[i].value.request.value, at[i].value.reply.value)
  {
    if at == [] then [] else [Seen(at[0].value.request.value, at[0].value.reply.value)] + SeenAt(at[1..])
  }

  /** `segments`: None when a point missed the request or the reply. */
  function Segments(at: seq<Option<Times>>): Option<seq<real>>
    requires at != []
  {
    if Complete(at) then Some(Rounded(Parts(SeenAt(at)))) else None
  }

  function Total(xs: seq<real>): real {
    Sum(xs, |xs|)
  }

  lemma {:induction false} TotalFront(x: real, ys: seq<real>)
    ensures Total([x] + ys) == x + Total(ys)
  {
    SumFront(x, ys, |ys|);
  }

  /** The parts telescope: together they are the echo's time at the first point. */
  lemma {:induction false} PartsTelescope(points: seq<Seen>)
    requires points != []
    ensures Total(Parts(points)) == AtLast(points[0])
  {
    if |points| == 1 {
      TotalFront(AtLast(points[0]), []);
      assert [AtLast(points[0])] + [] == Parts(points);
    } else {
      PartsTelescope(points[1..]);
      TotalFront(Between(points[0], points[1]), Parts(points[1..]));
    }
  }

  lemma {:induction false} RoundingAdds(xs: seq<real>)
    ensures -0.00005 * |xs| as real <= Total(Rounded(xs)) - Total(xs) <= 0.00005 * |xs| as real
  {
    if xs != [] {
      RoundingAdds(xs[1..]);
      TotalFront(xs[0], xs[1..]);
      TotalFront(Round4(xs[0]), Rounded(xs[1..]));
      assert xs == [xs[0]] + xs[1..];
    }
  }

  /** For any number of points, after rounding each part adds at most half a unit of its last decimal. */
  lemma {:induction false} SegmentsTelescope(at: seq<Option<Times>>)
    requires at != [] && Complete(at)
    ensures var whole, parts := AtLast(SeenAt(at)[0]), Segments(at).value;
            -0.00005 * |at| as real <= Total(parts) - whole <= 0.00005 * |at| as real
  {
    PartsTelescope(SeenAt(at));
    RoundingAdds(Parts(SeenAt(at)));
  }

  /** The five parts of an echo against its core time in the summary: within 0.00025 ms. */
  lemma {:induction false} CoreIsSumOfParts(rows: seq<Row>, target: string, m: map<Key, Times>, f: Flow, ue: string,
                                            ident: nat, n: nat,
                         at: seq<Option<Times>>)
    requires AllInGtpu(rows) && forall i | 0 <= i < |rows| :: rows[i].t != 0.0
    requires PointTimes(m, rows, target) && FlowOf(f, Inner(rows), target, ue, ident) && n in f.core
    requires |at| == 5 && at[0] == Some(Entry(m, Key(ue, ident, n))) && Segments(at).Some?
    ensures |Segments(at).value| == 5 && -0.00025 <= Total(Segments(at).value) - f.core[n] <= 0.00025
  {
    ReadersAgree(rows, target, m, f, ue, ident, n);
    SegmentsTelescope(at);
  }
}
