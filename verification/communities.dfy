/** Community post-processing around the detection algorithms: the size
    filters (`filter_communities_by_size` in data_prep.py and the inline
    filter of `detect_communities_leiden` in data_prep_leiden.py and
    webapp.py), best-of selection in `detect_communities_with_stats`, and the
    choice of k for spectral clustering. The algorithms and their modularity
    scores are inputs: each run either fails or yields a partition and a
    score. */
module Communities {
  import opened Common
  import opened BipartiteGraph

  /** A partition as the algorithms return it: a list of node lists. */
  type Partition = seq<seq<Node>>

  function SizeOf(c: seq<Node>): real { |c| as real }

  /** The communities of size at least `minSize`, in order, and the nodes of
      the others concatenated in order (`large_communities`, `small_nodes`). */
  function SplitBySize(p: Partition, minSize: int): (r: (Partition, seq<Node>))
    ensures forall j :: 0 <= j < |r.0| ==> |r.0[j]| >= minSize
    ensures |r.0| <= |p|
    ensures multiset(Flatten(r.0)) + multiset(r.1) == multiset(Flatten(p))
  {
    if |p| == 0 then ([], [])
    else
      var (large, small) := SplitBySize(p[..|p| - 1], minSize);
      var c := p[|p| - 1];
      SplitStepKeepsNodes(p, large, small);
      if |c| >= minSize then (large + [c], small) else (large, small + c)
  }

  /** Putting the last community of `p` on either side of a split of the
      others gives a split of `p`. */
  lemma SplitStepKeepsNodes(p: Partition, large: Partition, small: seq<Node>)
    requires |p| > 0
    requires multiset(Flatten(large)) + multiset(small) == multiset(Flatten(p[..|p| - 1]))
    ensures var c := p[|p| - 1];
      && multiset(Flatten(large + [c])) + multiset(small) == multiset(Flatten(p))
      && multiset(Flatten(large)) + multiset(small + c) == multiset(Flatten(p))
  {
    var c, f, fl := p[|p| - 1], Flatten(p[..|p| - 1]), Flatten(large);
    assert multiset(Flatten(p)) == multiset(f) + multiset(c) by { assert Flatten(p) == f + c; }
    assert multiset(Flatten(large + [c])) == multiset(fl) + multiset(c) by {
      assert (large + [c])[..|large|] == large;
      assert Flatten(large + [c]) == fl + c;
    }
    assert multiset(small + c) == multiset(small) + multiset(c);
  }

  /** The large communities are exactly the communities of `p` that are large
      enough, in their original order. */
  lemma {:induction false} SplitKeepsLarge(p: Partition, minSize: int)
    ensures SplitBySize(p, minSize).0 == Large(p, minSize)
  {
    if |p| > 0 {
      SplitKeepsLarge(p[..|p| - 1], minSize);
    }
  }

  /** Reference definition of the kept communities: `p` with the small ones
      removed. */
  function Large(p: Partition, minSize: int): Partition
  {
    if |p| == 0 then []
    else Large(p[..|p| - 1], minSize) + (if |p[|p| - 1]| >= minSize then [p[|p| - 1]] else [])
  }

  /** Small nodes go into the first of the largest kept communities. */
  function MergeSmall(large: Partition, small: seq<Node>): (r: Partition)
    requires |large| > 0
    ensures |r| == |large|
    ensures var i := FirstMaxIndex(large, SizeOf);
      && r[i] == large[i] + small
      && (forall j :: 0 <= j < |r| && j != i ==> r[j] == large[j])
      && (forall j :: 0 <= j < |large| ==> |large[j]| <= |large[i]|)
      && (forall j :: 0 <= j < i ==> |large[j]| < |large[i]|)
    ensures multiset(Flatten(r)) == multiset(Flatten(large)) + multiset(small)
  {
    var i := FirstMaxIndex(large, SizeOf);
    ExtendKeepsNodes(large, i, small);
    large[i := large[i] + small]
  }

  /** Appending `small` to one community adds exactly `small` to the nodes. */
  lemma ExtendKeepsNodes(p: Partition, i: nat, small: seq<Node>)
    requires i < |p|
    ensures multiset(Flatten(p[i := p[i] + small])) == multiset(Flatten(p)) + multiset(small)
  {
    var r := p[i := p[i] + small];
    FlattenUpdate(p, i, p[i] + small);
    assert multiset(p[i] + small) == multiset(p[i]) + multiset(small);
    assert multiset(Flatten(r)) + multiset(p[i]) == multiset(Flatten(p)) + multiset(p[i] + small);
    forall x
      ensures multiset(Flatten(r))[x] == (multiset(Flatten(p)) + multiset(small))[x]
    {
      assert (multiset(Flatten(r)) + multiset(p[i]))[x] ==
             (multiset(Flatten(p)) + multiset(p[i] + small))[x];
    }
  }

  /** `filter_communities_by_size` (data_prep.py): small nodes merge into the
      first largest kept community; if nothing was kept they form one
      residual community, but only when there are at least `minSize` of them;
      otherwise they are dropped. */
  function FilterBySize(p: Partition, minSize: int): (r: Partition)
    ensures forall j :: 0 <= j < |r| ==> |r[j]| >= minSize
    ensures var large, small := Large(p, minSize), SplitBySize(p, minSize).1;
      && (|large| > 0 ==> |r| == |large| && multiset(Flatten(r)) == multiset(Flatten(p)))
      && (|large| > 0 && |small| > 0 ==> r == MergeSmall(large, small))
      && (|small| == 0 ==> r == large)
      && (|large| == 0 && |small| > 0 && |small| >= minSize ==> r == [small])
      && (|large| == 0 && (|small| == 0 || |small| < minSize) ==> r == [])
  {
    var large, small := Large(p, minSize), SplitBySize(p, minSize).1;
    // the two filters differ only in the residual community
    if |large| == 0 && |small| > 0 && |small| >= minSize then [small] else LeidenFilter(p, minSize)
  }

  /** The inline filter of `detect_communities_leiden` (data_prep_leiden.py,
      webapp.py): as above, but with no residual community; if nothing was
      kept, the small nodes are dropped. */
  function LeidenFilter(p: Partition, minSize: int): (r: Partition)
    ensures forall j :: 0 <= j < |r| ==> |r[j]| >= minSize
    ensures var large, small := Large(p, minSize), SplitBySize(p, minSize).1;
      && |r| == |large|
      && (|large| > 0 ==> multiset(Flatten(r)) == multiset(Flatten(p)))
      && (|large| > 0 && |small| > 0 ==> r == MergeSmall(large, small))
      && (|small| == 0 ==> r == large)
      && (|large| == 0 ==> r == [])
  {
    LargeKeepsSizes(p, minSize);
    var large, small := Large(p, minSize), SplitBySize(p, minSize).1;
    if |small| > 0 && |large| > 0 then
      MergedPartition(p, minSize);
      MergeSmall(large, small)
    else large
  }

  /** Every kept community is large enough, and the kept communities and the
      small nodes together hold the nodes of `p`. */
  lemma LargeKeepsSizes(p: Partition, minSize: int)
    ensures forall j :: 0 <= j < |Large(p, minSize)| ==> |Large(p, minSize)[j]| >= minSize
    ensures multiset(Flatten(Large(p, minSize))) + multiset(SplitBySize(p, minSize).1) == multiset(Flatten(p))
  {
    SplitKeepsLarge(p, minSize);
  }

  /** Merging the small nodes into the kept communities keeps every node of
      `p` and leaves every community large enough. */
  lemma MergedPartition(p: Partition, minSize: int)
    requires |Large(p, minSize)| > 0 && |SplitBySize(p, minSize).1| > 0
    ensures var m := MergeSmall(Large(p, minSize), SplitBySize(p, minSize).1);
      && |m| == |Large(p, minSize)|
      && multiset(Flatten(m)) == multiset(Flatten(p))
      && forall j :: 0 <= j < |m| ==> |m[j]| >= minSize
  {
    LargeKeepsSizes(p, minSize);
    var large, small := Large(p, minSize), SplitBySize(p, minSize).1;
    var m := MergeSmall(large, small);
    var i := FirstMaxIndex(large, SizeOf);
    forall j | 0 <= j < |m|
      ensures |m[j]| >= minSize
    {
      if j == i {
        assert m[j] == large[i] + small;
      }
    }
  }

  /** Where both filters keep something, they agree. */
  lemma FiltersAgreeWhenSomethingIsKept(p: Partition, minSize: int)
    requires |Large(p, minSize)| > 0
    ensures FilterBySize(p, minSize) == LeidenFilter(p, minSize)
  {
    SplitKeepsLarge(p, minSize);
  }

  /** Whether a result of `detect_communities_leiden` exists. data_prep_leiden.py
      prints the smallest community size, so an empty partition raises there
      and the function returns None; webapp.py does not. */
  datatype LeidenCopy = ResearchScript | WebApp

  function DetectCommunitiesLeiden(copy: LeidenCopy, leiden: Option<Partition>, minSize: int): (r: Option<Partition>)
    ensures leiden.None? ==> r.None?
    ensures leiden.Some? ==>
      if copy == ResearchScript && |leiden.value| == 0 then r.None? else r == Some(LeidenFilter(leiden.value, minSize))
  {
    match leiden
    case None => None
    case Some(p) =>
      if copy == ResearchScript && |p| == 0 then None else Some(LeidenFilter(p, minSize))
  }

  // ---------------------------------------------------------------- selection

  /** The `results` keys, in the dict's insertion order. */
  datatype Algorithm = Greedy | LabelPropagation | Leiden | Louvain | Spectral

  datatype AlgoResult = AlgoResult(algorithm: Algorithm, partition: Partition, modularity: real)

  function Modularity(r: AlgoResult): real { r.modularity }

  /** What the five runs produced: `None` when the library is missing or the
      run raised. */
  datatype Runs = Runs(
    greedy: Option<(Partition, real)>,
    labelPropagation: Option<(Partition, real)>,
    leiden: Option<(Partition, real)>,
    louvain: Option<(Partition, real)>,
    spectral: Option<(Partition, real)>)

  /** A run enters `results` only if it produced at least one community:
      `max(len(c) for c in ...)` raises on an empty partition, and the
      exception discards the run. */
  function Entry(a: Algorithm, run: Option<(Partition, real)>): seq<AlgoResult>
  {
    match run
    case None => []
    case Some((p, m)) => if |p| == 0 then [] else [AlgoResult(a, p, m)]
  }

  function Results(runs: Runs): (r: seq<AlgoResult>)
    ensures |r| <= 5
  {
    Entry(Greedy, runs.greedy) + Entry(LabelPropagation, runs.labelPropagation) + Entry(Leiden, runs.leiden)
      + Entry(Louvain, runs.louvain) + Entry(Spectral, runs.spectral)
  }

  /** Every result comes from a successful run with a non-empty partition,
      and the results appear in dict order without repeats. */
  lemma ResultsAreRuns(runs: Runs)
    ensures var rs := Results(runs);
      && (forall i :: 0 <= i < |rs| ==> |rs[i].partition| > 0)
      && (forall i, j :: 0 <= i < j < |rs| ==> AlgoRank(rs[i].algorithm) < AlgoRank(rs[j].algorithm))
      && (Greedy in AlgorithmsOf(rs) <==> runs.greedy.Some? && |runs.greedy.value.0| > 0)
  {
  }

  function AlgoRank(a: Algorithm): nat
  {
    match a
    case Greedy => 0
    case LabelPropagation => 1
    case Leiden => 2
    case Louvain => 3
    case Spectral => 4
  }

  function AlgorithmsOf(rs: seq<AlgoResult>): set<Algorithm>
  {
    set r | r in rs :: r.algorithm
  }

  /** The index of the best result: the first with maximal modularity, and
      only if that modularity beats the initial `best_modularity = -1`. */
  function BestIndex(rs: seq<AlgoResult>): (r: Option<nat>)
    ensures r.Some? ==> r.value < |rs| && rs[r.value].modularity > -1.0
    ensures r.Some? ==> forall j :: 0 <= j < |rs| ==> rs[j].modularity <= rs[r.value].modularity
    ensures r.Some? ==> forall j :: 0 <= j < r.value ==> rs[j].modularity < rs[r.value].modularity
    ensures r.None? <==> forall j :: 0 <= j < |rs| ==> rs[j].modularity <= -1.0
  {
    if |rs| == 0 then None
    else
      var i := FirstMaxIndex(rs, Modularity);
      if rs[i].modularity > -1.0 then Some(i) else None
  }

  /** The selection loop as written: `if stats['modularity'] > best_modularity`
      over the results in order, starting from -1. */
  method SelectBest(rs: seq<AlgoResult>) returns (best: Option<nat>)
    ensures best == BestIndex(rs)
  {
    var bestModularity := -1.0;
    best := None;
    for i := 0 to |rs|
      invariant best.None? ==> bestModularity == -1.0 && forall j :: 0 <= j < i ==> rs[j].modularity <= -1.0
      invariant best.Some? ==> best.value < i && bestModularity == rs[best.value].modularity > -1.0
      invariant best.Some? ==> forall j :: 0 <= j < i ==> rs[j].modularity <= bestModularity
      invariant best.Some? ==> forall j :: 0 <= j < best.value ==> rs[j].modularity < bestModularity
    {
      if rs[i].modularity > bestModularity {
        bestModularity := rs[i].modularity;
        best := Some(i);
      }
    }
    if best.Some? {
      var k := FirstMaxIndex(rs, Modularity);
      assert rs[k].modularity == bestModularity;
    }
  }

  function FindGreedy(rs: seq<AlgoResult>): (r: Option<Partition>)
    ensures r.Some? <==> Greedy in AlgorithmsOf(rs)
    ensures r.Some? ==> exists i :: 0 <= i < |rs| && rs[i] == AlgoResult(Greedy, r.value, rs[i].modularity)
  {
    if |rs| == 0 then None
    else if rs[0].algorithm == Greedy then
      assert rs[0] in rs;
      Some(rs[0].partition)
    else
      var r := FindGreedy(rs[1..]);
      assert AlgorithmsOf(rs) == {rs[0].algorithm} + AlgorithmsOf(rs[1..]) by {
        assert rs == [rs[0]] + rs[1..];
      }
      if r.Some? then
        var i :| 0 <= i < |rs[1..]| && rs[1..][i] == AlgoResult(Greedy, r.value, rs[1..][i].modularity);
        assert rs[i + 1] == rs[1..][i];
        r
      else r
  }

  /** `detect_communities_with_stats`: filter the best result; without one,
      filter the greedy result if there is one; otherwise raise. */
  function DetectCommunitiesWithStats(runs: Runs, minSize: int): (r: Result<Partition, string>)
    ensures var rs := Results(runs);
      match BestIndex(rs)
      case Some(i) => r == Success(FilterBySize(rs[i].partition, minSize))
      case None =>
        && (r.Failure? <==> Greedy !in AlgorithmsOf(rs))
        && (r.Failure? ==> r.error == "No community detection algorithms succeeded")
        && (FindGreedy(rs).Some? ==> r == Success(FilterBySize(FindGreedy(rs).value, minSize)))
  {
    var rs := Results(runs);
    match BestIndex(rs)
    case Some(i) => Success(FilterBySize(rs[i].partition, minSize))
    case None =>
      match FindGreedy(rs)
      case Some(p) => Success(FilterBySize(p, minSize))
      case None => Failure("No community detection algorithms succeeded")
  }

  /** No algorithm produced a community: a RuntimeError. One that did with a
      modularity above -1 is never overlooked. */
  lemma SelectionFails(runs: Runs, minSize: int)
    ensures |Results(runs)| == 0 ==> DetectCommunitiesWithStats(runs, minSize).Failure?
    ensures (exists i :: 0 <= i < |Results(runs)| && Results(runs)[i].modularity > -1.0) ==>
              DetectCommunitiesWithStats(runs, minSize).Success?
  {
  }

  // ---------------------------------------------------------------- spectral

  /** The candidate cluster counts `[10, 20, 50, min(100, n // 50)]`. */
  function SpectralCandidates(n: nat): (ks: seq<nat>)
    ensures |ks| == 4 && ks[0] == 10 && ks[1] == 20 && ks[2] == 50
    ensures ks[3] <= 100 && ks[3] <= n / 50
  {
    [10, 20, 50, if 100 <= n / 50 then 100 else n / 50]
  }

  /** One spectral run for a given k: None when scikit-learn raised. */
  type SpectralRun = nat -> Option<(Partition, real)>

  /** The candidates that are run (`if k < len(G.nodes())`), in order. */
  function Considered(ks: seq<nat>, n: nat): (r: seq<nat>)
    ensures forall k :: k in r <==> k in ks && k < n
  {
    if |ks| == 0 then []
    else Considered(ks[..|ks| - 1], n) + (if ks[|ks| - 1] < n then [ks[|ks| - 1]] else [])
  }

  function ScoreOf(t: (nat, Partition, real)): real { t.2 }

  /** The outcomes of the runs over `ks`, or None as soon as one raised. */
  function RunAll(ks: seq<nat>, run: SpectralRun): (r: Option<seq<(nat, Partition, real)>>)
    ensures r.Some? <==> forall j :: 0 <= j < |ks| ==> run(ks[j]).Some?
    ensures r.Some? ==> |r.value| == |ks|
    ensures r.Some? ==> forall j :: 0 <= j < |ks| ==> r.value[j] == (ks[j], run(ks[j]).value.0, run(ks[j]).value.1)
  {
    if |ks| == 0 then Some([])
    else
      match RunAll(ks[..|ks| - 1], run)
      case None => None
      case Some(prev) =>
        match run(ks[|ks| - 1])
        case None => None
        case Some((p, m)) => Some(prev + [(ks[|ks| - 1], p, m)])
  }

  /** The spectral step: skipped without scikit-learn or from 5000 nodes on;
      each candidate k < n is run and any exception abandons the whole step;
      the first k of maximal modularity wins if that modularity beats the
      initial -1; `if best_k:` also rejects k = 0, and an empty winning
      partition raises in the statistics and is dropped. */
  function SpectralStep(n: nat, sklearn: bool, run: SpectralRun): (r: Option<(nat, Partition, real)>)
    ensures r.Some? ==> sklearn && n < 5000
    ensures r.Some? ==> var (k, p, m) := r.value;
      && k in SpectralCandidates(n) && 0 < k < n && |p| > 0 && m > -1.0
      && run(k) == Some((p, m))
      && (forall k' :: k' in SpectralCandidates(n) && k' < n ==> run(k').Some? && run(k').value.1 <= m)
  {
    if !sklearn || n >= 5000 then None
    else
      var ks := Considered(SpectralCandidates(n), n);
      match RunAll(ks, run)
      case None => None
      case Some(outs) =>
        if |outs| == 0 then None
        else
          var i := FirstMaxIndex(outs, ScoreOf);
          var (k, p, m) := outs[i];
          if m <= -1.0 || k == 0 || |p| == 0 then None
          else
            WinnerBeatsAll(ks, run, outs);
            Some((k, p, m))
  }

  /** The chosen k is the first considered candidate of maximal modularity:
      every candidate run before it scores strictly less. */
  lemma SpectralStepFirstBest(n: nat, sklearn: bool, run: SpectralRun)
    ensures var r := SpectralStep(n, sklearn, run);
      r.Some? ==> IsFirstBest(Considered(SpectralCandidates(n), n), run, r.value.0, r.value.2)
  {
    var r := SpectralStep(n, sklearn, run);
    var ks := Considered(SpectralCandidates(n), n);
    if r.Some? {
      var outs := RunAll(ks, run).value;
      assert r.value == outs[FirstMaxIndex(outs, ScoreOf)];
      FirstBestIsFirst(ks, run, outs);
    }
  }

  /** `k` is a candidate of `ks` that every earlier candidate run scores
      strictly below `m`. */
  ghost predicate IsFirstBest(ks: seq<nat>, run: SpectralRun, k: nat, m: real)
  {
    exists i ::
      && 0 <= i < |ks| && ks[i] == k
      && forall j :: 0 <= j < i ==> run(ks[j]).Some? && run(ks[j]).value.1 < m
  }

  /** The first best outcome comes from a candidate that every earlier
      candidate scores strictly below. */
  lemma FirstBestIsFirst(ks: seq<nat>, run: SpectralRun, outs: seq<(nat, Partition, real)>)
    requires RunAll(ks, run) == Some(outs) && |outs| > 0
    ensures var w := outs[FirstMaxIndex(outs, ScoreOf)]; IsFirstBest(ks, run, w.0, w.2)
  {
    var i := FirstMaxIndex(outs, ScoreOf);
    forall j | 0 <= j < i
      ensures run(ks[j]).Some? && run(ks[j]).value.1 < outs[i].2
    {
      assert ScoreOf(outs[j]) < ScoreOf(outs[i]);
    }
    assert ks[i] == outs[i].0;
  }

  /** With scikit-learn, between 50 and 5000 nodes, and every considered run
      succeeding with a non-empty partition above modularity -1, the spectral
      step yields a result. From 50 nodes on, `n // 50` is not 0, so no
      candidate is rejected by `if best_k:`. */
  lemma SpectralStepSucceeds(n: nat, sklearn: bool, run: SpectralRun)
    ensures var ks := Considered(SpectralCandidates(n), n);
      sklearn && 50 <= n < 5000 && AllRunsUsable(ks, run) ==> SpectralStep(n, sklearn, run).Some?
  {
    var ks := Considered(SpectralCandidates(n), n);
    if sklearn && 50 <= n < 5000 && AllRunsUsable(ks, run) {
      var outs := UsableOutcomes(n, ks, run);
      var i := FirstMaxIndex(outs, ScoreOf);
      assert outs[i].0 > 0 && |outs[i].1| > 0 && outs[i].2 > -1.0;
    }
  }

  /** Every run over `ks` succeeds with a non-empty partition whose modularity
      beats -1. */
  ghost predicate AllRunsUsable(ks: seq<nat>, run: SpectralRun)
  {
    forall k :: k in ks ==> run(k).Some? && |run(k).value.0| > 0 && run(k).value.1 > -1.0
  }

  /** From 50 nodes on the considered candidates are non-empty and positive,
      so usable runs give usable outcomes. */
  lemma UsableOutcomes(n: nat, ks: seq<nat>, run: SpectralRun) returns (outs: seq<(nat, Partition, real)>)
    requires 50 <= n && ks == Considered(SpectralCandidates(n), n) && AllRunsUsable(ks, run)
    ensures RunAll(ks, run) == Some(outs) && |outs| > 0
    ensures forall j :: 0 <= j < |outs| ==> outs[j].0 > 0 && |outs[j].1| > 0 && outs[j].2 > -1.0
  {
    assert 10 in ks;
    forall j | 0 <= j < |ks| ensures run(ks[j]).Some? {
      assert ks[j] in ks;
    }
    outs := RunAll(ks, run).value;
    forall j | 0 <= j < |outs| ensures outs[j].0 > 0 && |outs[j].1| > 0 && outs[j].2 > -1.0 {
      assert ks[j] in ks && ks[j] in SpectralCandidates(n);
    }
  }

  /** The first best outcome is the run of its k, and no run over `ks` scores
      higher. */
  lemma WinnerBeatsAll(ks: seq<nat>, run: SpectralRun, outs: seq<(nat, Partition, real)>)
    requires RunAll(ks, run) == Some(outs) && |outs| > 0
    ensures var i := FirstMaxIndex(outs, ScoreOf);
      && i < |ks| && outs[i].0 == ks[i] && run(ks[i]) == Some((outs[i].1, outs[i].2))
      && forall k' :: k' in ks ==> run(k').Some? && run(k').value.1 <= outs[i].2
  {
    var i := FirstMaxIndex(outs, ScoreOf);
    forall k' | k' in ks
      ensures run(k').Some? && run(k').value.1 <= outs[i].2
    {
      var j :| 0 <= j < |ks| && ks[j] == k';
      assert ScoreOf(outs[j]) <= ScoreOf(outs[i]);
    }
  }

  lemma ConsideredSnoc(ks: seq<nat>, k: nat, n: nat)
    requires k < n
    ensures Considered(ks + [k], n) == Considered(ks, n) + [k]
  {
    assert (ks + [k])[..|ks|] == ks;
  }

  lemma ConsideredSkip(ks: seq<nat>, k: nat, n: nat)
    requires k >= n
    ensures Considered(ks + [k], n) == Considered(ks, n)
  {
    assert (ks + [k])[..|ks|] == ks;
  }

  /** Appending to a sequence moves its first maximum only to a strictly
      greater new element. */
  lemma FirstMaxSnoc<T>(s: seq<T>, x: T, key: T -> real)
    ensures FirstMaxIndex(s + [x], key) ==
      if |s| == 0 then 0
      else if key(x) > key(s[FirstMaxIndex(s, key)]) then |s| else FirstMaxIndex(s, key)
  {
    assert (s + [x])[..|s|] == s;
  }

  lemma RunAllSnoc(ks: seq<nat>, k: nat, run: SpectralRun, outs: seq<(nat, Partition, real)>, p: Partition, m: real)
    requires RunAll(ks, run) == Some(outs) && run(k) == Some((p, m))
    ensures RunAll(ks + [k], run) == Some(outs + [(k, p, m)])
  {
    assert (ks + [k])[..|ks|] == ks;
  }

  /** The running best of the spectral loop against the outcomes so far:
      none while no modularity beats -1, otherwise the first maximum. */
  ghost predicate BestSoFar(outs: seq<(nat, Partition, real)>, bestK: Option<nat>, bestScore: real, best: Partition)
  {
    && (bestK.None? ==> bestScore == -1.0 && (|outs| == 0 || outs[FirstMaxIndex(outs, ScoreOf)].2 <= -1.0))
    && (bestK.Some? ==>
          && |outs| > 0 && bestScore > -1.0
          && outs[FirstMaxIndex(outs, ScoreOf)] == (bestK.value, best, bestScore))
  }

  /** `if modularity > best_score` keeps `BestSoFar`. */
  lemma BestSoFarStep(outs: seq<(nat, Partition, real)>, x: (nat, Partition, real),
                      bestK: Option<nat>, bestScore: real, best: Partition)
    requires BestSoFar(outs, bestK, bestScore, best)
    ensures x.2 > bestScore ==> BestSoFar(outs + [x], Some(x.0), x.2, x.1)
    ensures x.2 <= bestScore ==> BestSoFar(outs + [x], bestK, bestScore, best)
  {
    FirstMaxSnoc(outs, x, ScoreOf);
  }

  /** The loop of the spectral block: run every candidate k < n in order,
      stopping at the first exception, and keep the running best, which
      starts at -1 and is replaced only by a strictly greater modularity. */
  method SpectralScan(ks: seq<nat>, n: nat, run: SpectralRun)
    returns (raised: bool, bestK: Option<nat>, bestScore: real, bestCommunities: Partition)
    ensures raised <==> RunAll(Considered(ks, n), run).None?
    ensures !raised ==> BestSoFar(RunAll(Considered(ks, n), run).value, bestK, bestScore, bestCommunities)
  {
    raised := false;
    bestK := None;
    bestScore := -1.0;
    bestCommunities := [];
    ghost var outs: seq<(nat, Partition, real)> := [];
    for t := 0 to |ks|
      invariant RunAll(Considered(ks[..t], n), run) == Some(outs)
      invariant BestSoFar(outs, bestK, bestScore, bestCommunities)
    {
      TakeSnoc(ks, t);
      var k := ks[t];
      if k < n {
        match run(k)
        case None =>
          assert k in Considered(ks, n);
          return true, bestK, bestScore, bestCommunities;
        case Some((p, m)) =>
          ConsideredSnoc(ks[..t], k, n);
          RunAllSnoc(Considered(ks[..t], n), k, run, outs, p, m);
          BestSoFarStep(outs, (k, p, m), bestK, bestScore, bestCommunities);
          outs := outs + [(k, p, m)];
          if m > bestScore {
            bestScore := m;
            bestK := Some(k);
            bestCommunities := p;
          }
      } else {
        ConsideredSkip(ks[..t], k, n);
      }
    }
    assert ks[..|ks|] == ks;
  }

  /** The spectral block as written: skip it without scikit-learn or for
      large graphs, scan the candidates, and keep the winner only if
      `best_k` is truthy and its partition is not empty. */
  method SpectralLoop(n: nat, sklearn: bool, run: SpectralRun) returns (r: Option<(nat, Partition, real)>)
    ensures r == SpectralStep(n, sklearn, run)
  {
    if !sklearn || n >= 5000 {
      return None;
    }
    var raised, bestK, bestScore, bestCommunities := SpectralScan(SpectralCandidates(n), n, run);
    if raised || bestK.None? || bestK.value == 0 || |bestCommunities| == 0 {
      return None;
    }
    r := Some((bestK.value, bestCommunities, bestScore));
  }
}
