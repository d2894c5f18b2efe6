/** Bytes, big-endian integers, optional values, searches and regroupings, shared by the other modules. */
module Bytes {
  type byte = x: int | 0 <= x < 256

  datatype Option<+T> = None | Some(value: T)

  function Pow256(k: nat): (p: nat)
    ensures p >= 1
  {
    if k == 0 then 1 else 256 * Pow256(k - 1)
  }

  /** The integer that a big-endian field denotes. */
  function BigEndian(bs: seq<byte>): (n: nat)
    ensures n < Pow256(|bs|)
  {
    if bs == [] then 0 else BigEndian(bs[..|bs| - 1]) * 256 + bs[|bs| - 1]
  }

  /** The field of `k` bytes that denotes `n`. */
  function ToBigEndian(n: nat, k: nat): (bs: seq<byte>)
    requires n < Pow256(k)
    ensures |bs| == k && BigEndian(bs) == n
  {
    if k == 0 then [] else ToBigEndian(n / 256, k - 1) + [n % 256]
  }

  lemma {:induction false} Associate<T>(a: seq<T>, b: seq<T>, c: seq<T>)
    ensures a + b + c == a + (b + c)
  {
  }

  lemma {:induction false} AssociateFour<T>(a: seq<T>, b: seq<T>, c: seq<T>, d: seq<T>)
    ensures a + b + c + d == a + b + (c + d)
  {
  }

  function Concat<T>(parts: seq<seq<T>>): seq<T> {
    if parts == [] then [] else parts[0] + Concat(parts[1..])
  }

  lemma {:induction false} ConcatAppend<T>(parts: seq<seq<T>>, last: seq<T>)
    ensures Concat(parts + [last]) == Concat(parts) + last
  {
    if parts == [] {
      assert parts + [last] == [last];
    } else {
      ConcatAppend(parts[1..], last);
      assert (parts + [last])[1..] == parts[1..] + [last];
    }
  }

  /** The position of the first `x`, or the length. */
  function FirstOf<T(==)>(s: seq<T>, x: T): (k: nat)
    ensures k <= |s|
    ensures x !in s[..k]
    ensures k < |s| ==> s[k] == x
  {
    if s == [] || s[0] == x then 0 else
    var k := FirstOf(s[1..], x);
    assert s[..k + 1] == [s[0]] + s[1..][..k];
    k + 1
  }

  lemma {:induction false} FirstOfIs<T>(s: seq<T>, x: T, k: nat)
    requires k < |s| && s[k] == x && x !in s[..k]
    ensures FirstOf(s, x) == k
  {
    if k > 0 {
      assert s[0] == s[..k][0];
      assert s[1..][..k - 1] == s[..k][1..];
      FirstOfIs(s[1..], x, k - 1);
    }
  }
}
