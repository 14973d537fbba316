/** Shared vocabulary of the analytic pipeline: optional values, the three-way
    risk level, and the small sequence helpers (counting, filtering, summing,
    first-seen de-duplication, flattening, first-maximum search) that the
    pandas/networkx code expresses with list comprehensions, `Counter`,
    `unique()` and `max(..., key=...)`. */
module Common {

  datatype Option<T> = None | Some(value: T)

  /** A value or the exception that replaced it. */
  datatype Result<R, E> = Success(value: R) | Failure(error: E)

  /** A pandas string cell; `None` stands for the missing value <NA>. */
  type Text = Option<string>

  /** The tier used for patients (`risk_category`) and communities (`risk_level`). */
  datatype Level = High | Medium | Low

  /** Number of elements of `s` satisfying `p`. */
  function Count<T>(s: seq<T>, p: T -> bool): (n: nat)
    ensures n <= |s|
  {
    if |s| == 0 then 0 else Count(s[..|s| - 1], p) + (if p(s[|s| - 1]) then 1 else 0)
  }

  /** The elements of `s` satisfying `p`, in their original order. */
  function Filter<T(==,!new)>(s: seq<T>, p: T -> bool): (r: seq<T>)
    ensures |r| == Count(s, p)
    ensures forall x :: x in r <==> x in s && p(x)
  {
    if |s| == 0 then []
    else Filter(s[..|s| - 1], p) + (if p(s[|s| - 1]) then [s[|s| - 1]] else [])
  }

  lemma {:induction false} CountAppend<T>(a: seq<T>, b: seq<T>, p: T -> bool)
    ensures Count(a + b, p) == Count(a, p) + Count(b, p)
    decreases |b|
  {
    if |b| == 0 {
      assert a + b == a;
    } else {
      DropLastAppend(a, b);
      CountAppend(a, b[..|b| - 1], p);
    }
  }

  /** Counting with two disjoint predicates adds up to counting with their union. */
  lemma {:induction false} CountSplit<T>(s: seq<T>, p: T -> bool, q: T -> bool, pq: T -> bool)
    requires forall x :: pq(x) <==> p(x) || q(x)
    requires forall x :: !(p(x) && q(x))
    ensures Count(s, pq) == Count(s, p) + Count(s, q)
  {
    if |s| > 0 {
      CountSplit(s[..|s| - 1], p, q, pq);
    }
  }

  /** Counting with a predicate that holds everywhere counts everything. */
  lemma {:induction false} CountAll<T>(s: seq<T>, p: T -> bool)
    requires forall i :: 0 <= i < |s| ==> p(s[i])
    ensures Count(s, p) == |s|
  {
    if |s| > 0 {
      CountAll(s[..|s| - 1], p);
    }
  }

  /** Counting with a predicate that holds nowhere counts nothing. */
  lemma {:induction false} CountNone<T>(s: seq<T>, p: T -> bool)
    requires forall i :: 0 <= i < |s| ==> !p(s[i])
    ensures Count(s, p) == 0
  {
    if |s| > 0 {
      CountNone(s[..|s| - 1], p);
    }
  }

  function Sum(s: seq<real>): real
  {
    if |s| == 0 then 0.0 else Sum(s[..|s| - 1]) + s[|s| - 1]
  }

  /** `np.mean(xs) if xs else 0`, the guard every caller in the source writes. */
  function Mean(s: seq<real>): real
  {
    if |s| == 0 then 0.0 else Sum(s) / |s| as real
  }

  ghost predicate AllWithin(s: seq<real>, lo: real, hi: real)
  {
    forall i :: 0 <= i < |s| ==> lo <= s[i] <= hi
  }

  lemma {:induction false} SumWithin(s: seq<real>, lo: real, hi: real)
    requires AllWithin(s, lo, hi)
    ensures |s| as real * lo <= Sum(s) <= |s| as real * hi
  {
    if |s| > 0 {
      SumWithin(s[..|s| - 1], lo, hi);
      var m := (|s| - 1) as real;
      assert |s| as real * lo == m * lo + lo && |s| as real * hi == m * hi + hi;
    }
  }

  /** A mean of values in [lo, hi] stays in [lo, hi]. */
  lemma MeanWithin(s: seq<real>, lo: real, hi: real)
    requires |s| > 0 && AllWithin(s, lo, hi)
    ensures lo <= Mean(s) <= hi
  {
    SumWithin(s, lo, hi);
    RatioWithin(Sum(s), |s| as real, lo, hi);
  }

  /** A total between `n * lo` and `n * hi`, shared out over `n`, lies in [lo, hi]. */
  lemma RatioWithin(sum: real, n: real, lo: real, hi: real)
    requires n > 0.0 && n * lo <= sum <= n * hi
    ensures lo <= sum / n <= hi
  {
    DivMonotone(n * lo, sum, n);
    DivMonotone(sum, n * hi, n);
    assert (n * lo) / n == lo && (n * hi) / n == hi;
  }

  ghost predicate NoDup<T>(s: seq<T>)
  {
    forall i, j :: 0 <= i < j < |s| ==> s[i] != s[j]
  }

  /** The distinct elements of `s` in first-seen order (pandas `unique()`,
      the key order of a `Counter` or a dict filled in a loop). */
  function Dedup<T(==,!new)>(s: seq<T>): (r: seq<T>)
    ensures NoDup(r)
    ensures forall x :: x in r <==> x in s
    ensures |r| <= |s|
  {
    if |s| == 0 then []
    else
      var d := Dedup(s[..|s| - 1]);
      if s[|s| - 1] in d then d else d + [s[|s| - 1]]
  }

  /** Dropping the last element of a concatenation drops it from the second
      part. */
  lemma DropLastAppend<T>(a: seq<T>, b: seq<T>)
    requires |b| > 0
    ensures (a + b)[..|a + b| - 1] == a + b[..|b| - 1]
    ensures (a + b)[|a + b| - 1] == b[|b| - 1]
  {
  }

  /** Extending a prefix by one element. */
  lemma TakeSnoc<T>(s: seq<T>, t: nat)
    requires t < |s|
    ensures s[..t + 1] == s[..t] + [s[t]]
  {
  }

  /** Concatenation of all member lists, in order. */
  function Flatten<T>(ss: seq<seq<T>>): seq<T>
  {
    if |ss| == 0 then [] else Flatten(ss[..|ss| - 1]) + ss[|ss| - 1]
  }

  lemma {:induction false} FlattenAppend<T>(a: seq<seq<T>>, b: seq<seq<T>>)
    ensures Flatten(a + b) == Flatten(a) + Flatten(b)
    decreases |b|
  {
    if |b| == 0 {
      assert a + b == a;
    } else {
      DropLastAppend(a, b);
      FlattenAppend(a, b[..|b| - 1]);
    }
  }

  /** Replacing one member list changes the flattened multiset by exactly that member. */
  lemma FlattenUpdate<T>(ss: seq<seq<T>>, i: nat, c: seq<T>)
    requires i < |ss|
    ensures multiset(Flatten(ss[i := c])) + multiset(ss[i]) == multiset(Flatten(ss)) + multiset(c)
  {
    var pre, post := ss[..i], ss[i + 1..];
    assert ss == pre + [ss[i]] + post;
    assert ss[i := c] == pre + [c] + post;
    FlattenAppend(pre + [ss[i]], post);
    FlattenAppend(pre, [ss[i]]);
    FlattenAppend(pre + [c], post);
    FlattenAppend(pre, [c]);
    assert Flatten([ss[i]]) == ss[i] by { assert [ss[i]][..0] == []; }
    assert Flatten([c]) == c by { assert [c][..0] == []; }
  }

  /** Index of the first element whose key is maximal: what Python's
      `max(range(n), key=...)` and `max(items, key=...)` return. */
  function FirstMaxIndex<T>(s: seq<T>, key: T -> real): (i: nat)
    requires |s| > 0
    ensures i < |s|
    ensures forall j :: 0 <= j < |s| ==> key(s[j]) <= key(s[i])
    ensures forall j :: 0 <= j < i ==> key(s[j]) < key(s[i])
  {
    if |s| == 1 then 0
    else
      var i := FirstMaxIndex(s[..|s| - 1], key);
      if key(s[|s| - 1]) > key(s[i]) then |s| - 1 else i
  }

  /** Dividing by a positive number keeps the order. */
  lemma DivMonotone(a: real, b: real, s: real)
    requires a <= b && s > 0.0
    ensures a / s <= b / s
  {
    assert b / s - a / s == (b - a) / s;
  }

  lemma SelfRatio(s: real)
    requires s > 0.0
    ensures s / s == 1.0
  {
  }

  lemma DivStrictMonotone(a: real, b: real, s: real)
    requires a < b && s > 0.0
    ensures a / s < b / s
  {
    assert b / s - a / s == (b - a) / s;
  }

  /** A part of a positive whole is a fraction in [0, 1]. */
  lemma FractionBounds(a: real, s: real)
    requires 0.0 <= a <= s && s > 0.0
    ensures 0.0 <= a / s <= 1.0
  {
    DivMonotone(a, s, s);
    DivMonotone(0.0, a, s);
  }

  /** `x ** n` for a natural exponent. */
  function Pow(x: real, n: nat): real
  {
    if n == 0 then 1.0 else x * Pow(x, n - 1)
  }

  /** Powers are monotone on non-negative bases. */
  lemma {:induction false} PowMonotone(a: real, b: real, n: nat)
    requires 0.0 <= a <= b
    ensures 0.0 <= Pow(a, n) <= Pow(b, n)
  {
    if n > 0 {
      PowMonotone(a, b, n - 1);
      assert a * Pow(a, n - 1) <= b * Pow(a, n - 1);
      assert b * Pow(a, n - 1) <= b * Pow(b, n - 1);
    }
  }
}
