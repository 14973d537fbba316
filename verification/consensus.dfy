/** The co-membership matrix of `create_consensus_clustering` (data_prep.py).
    Of the results whose name is leiden, louvain, greedy or spinglass, entry
    (i, j) counts, over every community of every such result, the pairs of
    occurrences of node i and node j in that community; it is divided by the
    number of results and zeroed when not above the threshold. With fewer
    than two such results the result with the most communities is returned
    instead. Clustering the thresholded matrix again is a foreign algorithm
    and is not part of this model. */
module Consensus {
  import opened Common
  import opened BipartiteGraph
  import opened Communities

  /** `similar_algorithms`. */
  predicate IsSimilar(name: string)
  {
    name == "leiden" || name == "louvain" || name == "greedy" || name == "spinglass"
  }

  /** The dict of named results, in insertion order. A Python dict holds each
      name once; the callers build it with distinct algorithm names, and
      nothing below relies on that, so repeated names are not excluded. */
  type Named = seq<(string, Partition)>

  function SimilarOf(d: Named): (r: Named)
    ensures |r| <= |d|
    ensures forall i :: 0 <= i < |r| ==> IsSimilar(r[i].0)
    ensures forall e :: e in r <==> e in d && IsSimilar(e.0)
  {
    if |d| == 0 then []
    else SimilarOf(d[..|d| - 1]) + (if IsSimilar(d[|d| - 1].0) then [d[|d| - 1]] else [])
  }

  /** Each named result is kept as often as it occurs when its name is one
      of the similar algorithms, and dropped otherwise. */
  lemma {:induction false} SimilarOfCount(d: Named, e: (string, Partition))
    ensures multiset(SimilarOf(d))[e] == if IsSimilar(e.0) then multiset(d)[e] else 0
  {
    if |d| > 0 {
      var pre, last := d[..|d| - 1], d[|d| - 1];
      assert d == pre + [last];
      SimilarOfCount(pre, e);
    }
  }

  /** Filtering a concatenation filters each part and keeps them in order, so
      the kept results stay in the dict's order. */
  lemma {:induction false} SimilarOfAppend(a: Named, b: Named)
    ensures SimilarOf(a + b) == SimilarOf(a) + SimilarOf(b)
    decreases |b|
  {
    if |b| == 0 {
      assert a + b == a;
    } else {
      var pre, x := b[..|b| - 1], b[|b| - 1];
      var tail := if IsSimilar(x.0) then [x] else [];
      DropLastAppend(a, b);
      SimilarOfAppend(a, pre);
      assert SimilarOf(a + b) == SimilarOf(a + pre) + tail;
      assert SimilarOf(b) == SimilarOf(pre) + tail;
    }
  }

  function CommunityCount(e: (string, Partition)): real { |e.1| as real }

  // ---------------------------------------------------------------- counting

  /** Occurrences of `x` in a community. */
  function Occ(c: seq<Node>, x: Node): nat { multiset(c)[x] }

  /** What one result adds to entry (a, b): the occurrence pairs of a and b
      summed over its communities. */
  function PairSum(p: Partition, a: Node, b: Node): nat
  {
    if |p| == 0 then 0 else PairSum(p[..|p| - 1], a, b) + Occ(p[|p| - 1], a) * Occ(p[|p| - 1], b)
  }

  /** What all results add to entry (a, b), before normalisation. */
  function CoCount(parts: seq<Partition>, a: Node, b: Node): nat
  {
    if |parts| == 0 then 0 else CoCount(parts[..|parts| - 1], a, b) + PairSum(parts[|parts| - 1], a, b)
  }

  function Partitions(d: Named): (r: seq<Partition>)
    ensures |r| == |d|
    ensures forall i :: 0 <= i < |d| ==> r[i] == d[i].1
  {
    if |d| == 0 then [] else Partitions(d[..|d| - 1]) + [d[|d| - 1].1]
  }

  /** The co-membership matrix over the graph's node list. */
  function Matrix(nodes: seq<Node>, parts: seq<Partition>, threshold: real): (m: seq<seq<real>>)
    requires |parts| > 0
    ensures |m| == |nodes| && forall i :: 0 <= i < |m| ==> |m[i]| == |nodes|
    ensures forall i, j :: 0 <= i < |nodes| && 0 <= j < |nodes| ==>
      m[i][j] == m[j][i] && (m[i][j] == 0.0 || m[i][j] > threshold)
  {
    CoCountSymmetricAll(parts);
    seq(|nodes|, i requires 0 <= i < |nodes| =>
      seq(|nodes|, j requires 0 <= j < |nodes| =>
        var v := CoCount(parts, nodes[i], nodes[j]) as real / |parts| as real;
        if v <= threshold then 0.0 else v))
  }

  datatype Outcome = SingleResult(partition: Partition) | CoMembership(matrix: seq<seq<real>>)

  /** `create_consensus_clustering` up to the second clustering pass. An empty
      dict makes `max` raise. */
  function CreateConsensus(d: Named, nodes: seq<Node>, threshold: real): (r: Result<Outcome, string>)
    ensures r.Failure? <==> |d| == 0
    ensures |SimilarOf(d)| < 2 && |d| > 0 ==>
      r == Success(SingleResult(d[FirstMaxIndex(d, CommunityCount)].1))
    ensures |SimilarOf(d)| >= 2 ==>
      r == Success(CoMembership(Matrix(nodes, Partitions(SimilarOf(d)), threshold)))
  {
    var similar := SimilarOf(d);
    if |similar| < 2 then
      if |d| == 0 then Failure("max() arg is an empty sequence")
      else Success(SingleResult(d[FirstMaxIndex(d, CommunityCount)].1))
    else
      Success(CoMembership(Matrix(nodes, Partitions(similar), threshold)))
  }

  // ---------------------------------------------------------------- properties

  lemma {:induction false} PairSumSymmetric(p: Partition, a: Node, b: Node)
    ensures PairSum(p, a, b) == PairSum(p, b, a)
  {
    if |p| > 0 {
      PairSumSymmetric(p[..|p| - 1], a, b);
    }
  }

  lemma {:induction false} CoCountSymmetric(parts: seq<Partition>, a: Node, b: Node)
    ensures CoCount(parts, a, b) == CoCount(parts, b, a)
  {
    if |parts| > 0 {
      CoCountSymmetric(parts[..|parts| - 1], a, b);
      PairSumSymmetric(parts[|parts| - 1], a, b);
    }
  }

  lemma CoCountSymmetricAll(parts: seq<Partition>)
    ensures forall a, b :: CoCount(parts, a, b) == CoCount(parts, b, a)
  {
    forall a, b
      ensures CoCount(parts, a, b) == CoCount(parts, b, a)
    {
      CoCountSymmetric(parts, a, b);
    }
  }

  /** The matrix is symmetric, and every entry is either 0 or above the
      threshold. */
  lemma MatrixSymmetric(nodes: seq<Node>, parts: seq<Partition>, threshold: real)
    requires |parts| > 0
    ensures var m := Matrix(nodes, parts, threshold);
      forall i, j :: 0 <= i < |nodes| && 0 <= j < |nodes| ==>
        m[i][j] == m[j][i] && (m[i][j] == 0.0 || m[i][j] > threshold)
  {
    forall i, j | 0 <= i < |nodes| && 0 <= j < |nodes|
      ensures CoCount(parts, nodes[i], nodes[j]) == CoCount(parts, nodes[j], nodes[i])
    {
      CoCountSymmetric(parts, nodes[i], nodes[j]);
    }
  }

  /** A partition proper for `x`: `x` occurs at most once in all its
      communities together. */
  ghost predicate AtMostOnce(p: Partition, x: Node)
  {
    multiset(Flatten(p))[x] <= 1
  }

  ghost predicate Proper(p: Partition)
  {
    forall x :: AtMostOnce(p, x)
  }

  /** Reference definition: some community of `p` holds both nodes. */
  predicate Together(p: Partition, a: Node, b: Node)
  {
    |p| > 0 && (Together(p[..|p| - 1], a, b) || (a in p[|p| - 1] && b in p[|p| - 1]))
  }

  lemma {:induction false} TogetherOccurs(p: Partition, a: Node, b: Node)
    requires Together(p, a, b)
    ensures multiset(Flatten(p))[a] >= 1 && multiset(Flatten(p))[b] >= 1
  {
    var q, c := p[..|p| - 1], p[|p| - 1];
    assert Flatten(p) == Flatten(q) + c;
    if Together(q, a, b) {
      TogetherOccurs(q, a, b);
    }
  }

  /** In a partition proper for both nodes, one result contributes 1 to
      entry (a, b) if it puts them in the same community and 0 otherwise. */
  lemma {:induction false} PairSumIsTogether(p: Partition, a: Node, b: Node)
    requires AtMostOnce(p, a) && AtMostOnce(p, b)
    ensures PairSum(p, a, b) == if Together(p, a, b) then 1 else 0
  {
    if |p| > 0 {
      var q, c := p[..|p| - 1], p[|p| - 1];
      assert Flatten(p) == Flatten(q) + c;
      assert multiset(Flatten(p)) == multiset(Flatten(q)) + multiset(c);
      PairSumIsTogether(q, a, b);
      if Together(q, a, b) {
        TogetherOccurs(q, a, b);
        assert Occ(c, a) == 0;
      } else if a in c && b in c {
        assert Occ(c, a) == 1 && Occ(c, b) == 1;
      } else {
        assert Occ(c, a) == 0 || Occ(c, b) == 0;
      }
    }
  }

  /** Number of results that put `a` and `b` in the same community. */
  function Agreeing(parts: seq<Partition>, a: Node, b: Node): (k: nat)
    ensures k <= |parts|
  {
    if |parts| == 0 then 0
    else Agreeing(parts[..|parts| - 1], a, b) + (if Together(parts[|parts| - 1], a, b) then 1 else 0)
  }

  /** Over proper partitions, the raw count of entry (a, b) is the number of
      results that put a and b together. */
  lemma {:induction false} CoCountIsAgreeing(parts: seq<Partition>, a: Node, b: Node)
    requires forall i :: 0 <= i < |parts| ==> Proper(parts[i])
    ensures CoCount(parts, a, b) == Agreeing(parts, a, b)
  {
    if |parts| > 0 {
      CoCountIsAgreeing(parts[..|parts| - 1], a, b);
      assert Proper(parts[|parts| - 1]);
      PairSumIsTogether(parts[|parts| - 1], a, b);
    }
  }

  /** Over proper partitions an entry is the fraction of results that put
      the two nodes together when that fraction is above the threshold, 0
      otherwise, and so lies in [0, 1]. */
  lemma EntryIsAgreement(nodes: seq<Node>, parts: seq<Partition>, threshold: real, i: nat, j: nat)
    requires |parts| > 0 && i < |nodes| && j < |nodes|
    requires forall k :: 0 <= k < |parts| ==> Proper(parts[k])
    ensures var m := Matrix(nodes, parts, threshold);
      var frac := Agreeing(parts, nodes[i], nodes[j]) as real / |parts| as real;
      && 0.0 <= m[i][j] <= 1.0
      && m[i][j] == (if frac <= threshold then 0.0 else frac)
  {
    var a, b := nodes[i], nodes[j];
    var n := |parts| as real;
    CoCountIsAgreeing(parts, a, b);
    var agree := Agreeing(parts, a, b) as real;
    FractionBounds(agree, n);
    assert Matrix(nodes, parts, threshold)[i][j] == (if agree / n <= threshold then 0.0 else agree / n);
  }

  /** A node that every result places in some community is together with
      itself in every result. */
  lemma {:induction false} PlacedIsTogether(p: Partition, a: Node)
    requires a in Flatten(p)
    ensures Together(p, a, a)
  {
    var q, c := p[..|p| - 1], p[|p| - 1];
    assert Flatten(p) == Flatten(q) + c;
    if a !in c {
      PlacedIsTogether(q, a);
    }
  }

  lemma {:induction false} AllPlacedAgree(parts: seq<Partition>, a: Node)
    requires forall i :: 0 <= i < |parts| ==> a in Flatten(parts[i])
    ensures Agreeing(parts, a, a) == |parts|
  {
    if |parts| > 0 {
      AllPlacedAgree(parts[..|parts| - 1], a);
      PlacedIsTogether(parts[|parts| - 1], a);
    }
  }

  /** With a threshold below 1, a node every proper result places has
      diagonal entry exactly 1. */
  lemma DiagonalIsOne(nodes: seq<Node>, parts: seq<Partition>, threshold: real, i: nat)
    requires |parts| > 0 && i < |nodes| && threshold < 1.0
    requires forall k :: 0 <= k < |parts| ==> Proper(parts[k]) && nodes[i] in Flatten(parts[k])
    ensures Matrix(nodes, parts, threshold)[i][i] == 1.0
  {
    EntryIsAgreement(nodes, parts, threshold, i, i);
    AllPlacedAgree(parts, nodes[i]);
    SelfRatio(|parts| as real);
  }
}
