/** pandas' `Series.quantile(q)` with its default linear interpolation: sort
    the values, take the virtual index h = (n - 1) * q, and interpolate
    between the values at floor(h) and the next index. */
module Quantiles {

  ghost predicate Sorted(s: seq<real>)
  {
    forall i, j :: 0 <= i <= j < |s| ==> s[i] <= s[j]
  }

  /** Insert `x` into a sorted sequence before the first larger value. */
  function Insert(s: seq<real>, x: real): (r: seq<real>)
    requires Sorted(s)
    ensures Sorted(r)
    ensures multiset(r) == multiset(s) + multiset{x}
  {
    if |s| == 0 then [x]
    else if x <= s[0] then [x] + s
    else
      var rest := Insert(s[1..], x);
      InsertStep(s, x, rest);
      [s[0]] + rest
  }

  /** Putting the head of `s` before a sorted arrangement of the rest of `s`
      and `x`, when `x` is larger than the head, is a sorted arrangement of
      `s` and `x`. */
  lemma InsertStep(s: seq<real>, x: real, rest: seq<real>)
    requires Sorted(s) && |s| > 0 && s[0] < x
    requires Sorted(rest) && multiset(rest) == multiset(s[1..]) + multiset{x}
    ensures Sorted([s[0]] + rest)
    ensures multiset([s[0]] + rest) == multiset(s) + multiset{x}
  {
    assert multiset(s) == multiset{s[0]} + multiset(s[1..]) by { assert s == [s[0]] + s[1..]; }
    forall k | 0 <= k < |rest|
      ensures s[0] <= rest[k]
    {
      assert rest[k] in multiset(rest);
    }
    var r := [s[0]] + rest;
    forall i, j | 0 <= i <= j < |r|
      ensures r[i] <= r[j]
    {
      if i > 0 {
        assert r[i] == rest[i - 1] && r[j] == rest[j - 1];
      } else if j > 0 {
        assert r[j] == rest[j - 1];
      }
    }
  }

  /** Ascending sort; the order of equal values does not matter for a
      quantile. */
  function Sort(s: seq<real>): (r: seq<real>)
    ensures Sorted(r)
    ensures multiset(r) == multiset(s)
    ensures |r| == |s|
  {
    if |s| == 0 then []
    else
      var prefix, x := s[..|s| - 1], s[|s| - 1];
      assert multiset(s) == multiset(prefix) + multiset{x} by { assert s == prefix + [x]; }
      Insert(Sort(prefix), x)
  }

  /** Scaling by a non-negative factor keeps the order. */
  lemma MulMonotone(a: real, b: real, c: real)
    requires a <= b && 0.0 <= c
    ensures a * c <= b * c
  {
    assert b * c - a * c == (b - a) * c;
  }

  /** The virtual index q * (n - 1) of the q-th quantile of n values. */
  function VirtualIndex(n: nat, q: real): (h: real)
    requires n > 0 && 0.0 <= q <= 1.0
    ensures 0.0 <= h <= (n - 1) as real
  {
    var m := (n - 1) as real;
    MulMonotone(0.0, q, m);
    MulMonotone(q, 1.0, m);
    assert 0.0 * m == 0.0 && 1.0 * m == m;
    assert 0.0 <= q * m <= m;
    q * m
  }

  lemma VirtualIndexMonotone(n: nat, q1: real, q2: real)
    requires n > 0 && 0.0 <= q1 <= q2 <= 1.0
    ensures VirtualIndex(n, q1) <= VirtualIndex(n, q2)
  {
    MulMonotone(q1, q2, (n - 1) as real);
  }

  lemma VirtualIndexEnds(n: nat)
    requires n > 0
    ensures VirtualIndex(n, 0.0) == 0.0 && VirtualIndex(n, 1.0) == (n - 1) as real
  {
  }

  /** The point a fraction `g` of the way from `a` to `b`. */
  function Lerp(a: real, b: real, g: real): real
  {
    a + g * (b - a)
  }

  lemma LerpBetween(a: real, b: real, g: real)
    requires a <= b && 0.0 <= g <= 1.0
    ensures a <= Lerp(a, b, g) <= b
  {
    MulMonotone(0.0, g, b - a);
    MulMonotone(g, 1.0, b - a);
  }

  lemma LerpMonotone(a: real, b: real, g1: real, g2: real)
    requires a <= b && g1 <= g2
    ensures Lerp(a, b, g1) <= Lerp(a, b, g2)
  {
    MulMonotone(g1, g2, b - a);
  }

  /** Index of the upper neighbour of virtual index `h`. */
  function Upper(n: nat, h: real): (hi: nat)
    requires n > 0 && 0.0 <= h <= (n - 1) as real
    ensures h.Floor <= hi < n
  {
    if h.Floor + 1 < n then h.Floor + 1 else h.Floor
  }

  /** Linear interpolation at virtual index `h` of a sorted sequence. */
  function Interpolate(t: seq<real>, h: real): real
    requires |t| > 0 && 0.0 <= h <= (|t| - 1) as real
  {
    Lerp(t[h.Floor], t[Upper(|t|, h)], h - h.Floor as real)
  }

  /** The q-th quantile of a non-empty sample. It lies between the sample's
      minimum and maximum: some value is at most it and some value at least
      it. */
  function Quantile(s: seq<real>, q: real): (r: real)
    requires |s| > 0 && 0.0 <= q <= 1.0
    ensures exists i :: 0 <= i < |s| && s[i] <= r
    ensures exists j :: 0 <= j < |s| && r <= s[j]
  {
    var t := Sort(s);
    var n := |s|;
    var h := VirtualIndex(n, q);
    SortedEnds(s);
    VirtualIndexMonotone(n, 0.0, q);
    VirtualIndexMonotone(n, q, 1.0);
    VirtualIndexEnds(n);
    InterpolateMonotone(t, 0.0, h);
    InterpolateMonotone(t, h, (n - 1) as real);
    InterpolateBetween(t, 0.0);
    InterpolateBetween(t, (n - 1) as real);
    assert exists i :: 0 <= i < n && s[i] == t[0];
    assert exists j :: 0 <= j < n && s[j] == t[n - 1];
    Interpolate(t, h)
  }

  /** An interpolated value lies between its two neighbours. */
  lemma InterpolateBetween(t: seq<real>, h: real)
    requires |t| > 0 && 0.0 <= h <= (|t| - 1) as real && Sorted(t)
    ensures t[h.Floor] <= Interpolate(t, h) <= t[Upper(|t|, h)]
  {
    LerpBetween(t[h.Floor], t[Upper(|t|, h)], h - h.Floor as real);
  }

  /** Interpolation is monotone in the virtual index. */
  lemma InterpolateMonotone(t: seq<real>, h1: real, h2: real)
    requires |t| > 0 && 0.0 <= h1 <= h2 <= (|t| - 1) as real && Sorted(t)
    ensures Interpolate(t, h1) <= Interpolate(t, h2)
  {
    var lo1, lo2 := h1.Floor, h2.Floor;
    InterpolateBetween(t, h1);
    InterpolateBetween(t, h2);
    if lo1 == lo2 {
      LerpMonotone(t[lo1], t[Upper(|t|, h1)], h1 - lo1 as real, h2 - lo1 as real);
    } else {
      assert t[Upper(|t|, h1)] <= t[lo2];
    }
  }

  /** The smallest value of a sample is its sorted head, the largest its
      sorted tail. */
  lemma SortedEnds(s: seq<real>)
    requires |s| > 0
    ensures var t := Sort(s);
      && t[0] in s && t[|t| - 1] in s
      && forall i :: 0 <= i < |s| ==> t[0] <= s[i] <= t[|t| - 1]
  {
    var t := Sort(s);
    assert t[0] in multiset(t) && t[|t| - 1] in multiset(t);
    forall i | 0 <= i < |s| ensures t[0] <= s[i] <= t[|t| - 1] {
      assert s[i] in multiset(t);
      var k :| 0 <= k < |t| && t[k] == s[i];
    }
  }

  /** The 0 quantile is the smallest value and the 1 quantile the largest;
      every other quantile lies between them. */
  lemma QuantileWithinRange(s: seq<real>, q: real)
    requires |s| > 0 && 0.0 <= q <= 1.0
    ensures Quantile(s, 0.0) == Sort(s)[0]
    ensures Quantile(s, 1.0) == Sort(s)[|s| - 1]
    ensures Sort(s)[0] <= Quantile(s, q) <= Sort(s)[|s| - 1]
  {
    VirtualIndexEnds(|s|);
    InterpolateEnds(Sort(s));
    QuantileMonotone(s, 0.0, q);
    QuantileMonotone(s, q, 1.0);
  }

  /** Interpolating at the first or the last index gives that element. */
  lemma InterpolateEnds(t: seq<real>)
    requires |t| > 0
    ensures Interpolate(t, 0.0) == t[0]
    ensures Interpolate(t, (|t| - 1) as real) == t[|t| - 1]
  {
    assert (0.0).Floor == 0;
    assert ((|t| - 1) as real).Floor == |t| - 1;
  }

  /** A higher quantile is never smaller. */
  lemma QuantileMonotone(s: seq<real>, q1: real, q2: real)
    requires |s| > 0 && 0.0 <= q1 <= q2 <= 1.0
    ensures Quantile(s, q1) <= Quantile(s, q2)
  {
    VirtualIndexMonotone(|s|, q1, q2);
    InterpolateMonotone(Sort(s), VirtualIndex(|s|, q1), VirtualIndex(|s|, q2));
  }
}
