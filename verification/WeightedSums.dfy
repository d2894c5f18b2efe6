/** Sums of weighted values, and what adding, bounding or perturbing the weights does to them. */
module WeightedSums {
  function Sum(ws: seq<real>, n: nat): real
    requires n <= |ws|
  {
    if n == 0 then 0.0 else Sum(ws, n - 1) + ws[n - 1]
  }

  function Dot(ws: seq<real>, vs: seq<real>, n: nat): real
    requires n <= |ws| == |vs|
  {
    if n == 0 then 0.0 else Dot(ws, vs, n - 1) + ws[n - 1] * vs[n - 1]
  }

  lemma {:induction false} SumFront(x: real, ys: seq<real>, n: nat)
    requires n <= |ys|
    ensures Sum([x] + ys, n + 1) == x + Sum(ys, n)
  {
    if n > 0 {
      SumFront(x, ys, n - 1);
    }
  }

  /** The first n weights and values decide. */
  lemma {:induction false} SameDot(ws: seq<real>, ws': seq<real>, vs: seq<real>, vs': seq<real>, n: nat)
    requires n <= |ws| == |vs| && n <= |ws'| == |vs'|
    requires forall i | 0 <= i < n :: ws[i] == ws'[i] && vs[i] == vs'[i]
    ensures Dot(ws, vs, n) == Dot(ws', vs', n) && Sum(vs, n) == Sum(vs', n)
  {
    if n > 0 {
      SameDot(ws, ws', vs, vs', n - 1);
    }
  }

  lemma {:induction false} DotOneMore(ws: seq<real>, vs: seq<real>, w: real, v: real)
    requires |ws| == |vs|
    ensures Dot(ws + [w], vs + [v], |vs| + 1) == Dot(ws, vs, |vs|) + w * v
    ensures Sum(vs + [v], |vs| + 1) == Sum(vs, |vs|) + v
  {
    SameDot(ws + [w], ws, vs + [v], vs, |vs|);
  }

  lemma {:induction false} Scale(t: real, x: real, y: real)
    requires t >= 0.0 && x <= y
    ensures t * x <= t * y
  {
  }

  lemma {:induction false} Distribute(c: real, t: real, v: real)
    ensures (c + t) * v == c * v + t * v
  {
  }

  lemma {:induction false} DotPlus(ws: seq<real>, us: seq<real>, sums: seq<real>, vs: seq<real>, n: nat)
    requires n <= |ws| == |us| == |sums| == |vs|
    requires forall i | 0 <= i < n :: sums[i] == ws[i] + us[i]
    ensures Dot(sums, vs, n) == Dot(ws, vs, n) + Dot(us, vs, n)
  {
    if n > 0 {
      DotPlus(ws, us, sums, vs, n - 1);
      Distribute(ws[n - 1], us[n - 1], vs[n - 1]);
    }
  }

  /** A weighted sum lies between the bounds of the values that have weight. */
  lemma {:induction false} DotBetween(ws: seq<real>, vs: seq<real>, least: real, most: real, n: nat)
    requires n <= |ws| == |vs|
    requires forall i | 0 <= i < n :: ws[i] == 0.0 || (ws[i] > 0.0 && least <= vs[i] <= most)
    ensures least * Sum(ws, n) <= Dot(ws, vs, n) <= most * Sum(ws, n)
  {
    if n > 0 {
      DotBetween(ws, vs, least, most, n - 1);
      var t, v := ws[n - 1], vs[n - 1];
      Distribute(Sum(ws, n - 1), t, least);
      Distribute(Sum(ws, n - 1), t, most);
      if t > 0.0 {
        Scale(t, least, v);
        Scale(t, v, most);
      }
    }
  }

  /** Weights off by at most `eps`, all one way, move a sum of non-negative values by `eps` of each at most. */
  lemma {:induction false} DotNear(ws: seq<real>, os: seq<real>, vs: seq<real>, eps: real, n: nat)
    requires n <= |ws| == |os| == |vs|
    requires forall i | 0 <= i < n :: ws[i] <= os[i] <= ws[i] + eps && vs[i] >= 0.0
    ensures Dot(ws, vs, n) <= Dot(os, vs, n) <= Dot(ws, vs, n) + eps * Sum(vs, n)
  {
    if n > 0 {
      DotNear(ws, os, vs, eps, n - 1);
      var w, o, v := ws[n - 1], os[n - 1], vs[n - 1];
      Scale(v, w, o);
      Scale(v, o, w + eps);
      Distribute(w, eps, v);
      Distribute(Sum(vs, n - 1), v, eps);
    }
  }

  lemma {:induction false} SumOfZeroes(ws: seq<real>, vs: seq<real>, n: nat)
    requires n <= |ws| == |vs|
    requires forall i | 0 <= i < n :: ws[i] == 0.0
    ensures Dot(ws, vs, n) == 0.0
  {
    if n > 0 {
      SumOfZeroes(ws, vs, n - 1);
    }
  }

  lemma {:induction false} SumIff(ws: seq<real>, n: nat)
    requires n <= |ws| && forall i | 0 <= i < n :: ws[i] >= 0.0
    ensures Sum(ws, n) >= 0.0
    ensures Sum(ws, n) == 0.0 <==> forall i | 0 <= i < n :: ws[i] == 0.0
  {
    if n > 0 {
      SumIff(ws, n - 1);
    }
  }

  predicate Between(least: real, x: real, most: real) {
    least <= x <= most
  }

  lemma {:induction false} Divide(least: real, most: real, x: real, c: real)
    requires c > 0.0 && Between(least * c, x, most * c)
    ensures Between(least, x / c, most)
  {
    var q := x / c;
    assert q * c == x;
    assert (q - least) * c >= 0.0 && (most - q) * c >= 0.0;
  }

  /** A weighted mean lies between the bounds of the values that have weight. */
  lemma {:induction false} MeanBetween(ws: seq<real>, vs: seq<real>, least: real, most: real, n: nat)
    requires n <= |ws| == |vs| && Sum(ws, n) > 0.0
    requires forall i | 0 <= i < n :: ws[i] == 0.0 || (ws[i] > 0.0 && least <= vs[i] <= most)
    ensures least <= Dot(ws, vs, n) / Sum(ws, n) <= most
  {
    var c, x := Sum(ws, n), Dot(ws, vs, n);
    assert Between(least * c, x, most * c) by {
      DotBetween(ws, vs, least, most, n);
    }
    Divide(least, most, x, c);
    assert Between(least, x / c, most);
  }

  /** `m * c` is `d`, up to `eps` per unit of weight. */
  ghost predicate Near(m: real, c: real, d: real, eps: real) {
    -eps * c <= m * c - d <= eps * c
  }

  lemma {:induction false} QuotientNear(m: real, d: real, c: real, eps: real)
    requires c > 0.0 && -eps <= m - d / c <= eps
    ensures Near(m, c, d, eps)
  {
    var q := d / c;
    assert q * c == d;
    Scale(c, m, q + eps);
    Scale(c, q - eps, m);
    Distribute(q, eps, c);
    Distribute(q, -eps, c);
  }

  /** Products each off by at most `eps` per unit of weight are off by `eps` per unit of all the weight. */
  lemma {:induction false} ProductsNear(ms: seq<real>, cs: seq<real>, ds: seq<real>, eps: real, n: nat)
    requires n <= |ms| == |cs| == |ds|
    requires forall i | 0 <= i < n :: Near(ms[i], cs[i], ds[i], eps)
    ensures -eps * Sum(cs, n) <= Dot(ms, cs, n) - Sum(ds, n) <= eps * Sum(cs, n)
  {
    if n > 0 {
      ProductsNear(ms, cs, ds, eps, n - 1);
      assert Near(ms[n - 1], cs[n - 1], ds[n - 1], eps);
      Distribute(Sum(cs, n - 1), cs[n - 1], eps);
      Distribute(Sum(cs, n - 1), cs[n - 1], -eps);
    }
  }
}
