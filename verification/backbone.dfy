/** `create_backbone` (data_prep.py): a simplified disparity filter. For every
    node of degree k > 1 with strength s (the sum of its edge weights), each
    incident edge of weight w gets the score `(w/s)^(k-1)`; the node asks for
    the edge to be removed when that score is at least `alpha`. The backbone
    keeps every node and every edge neither endpoint asked to remove.

    The textbook disparity filter scores `(1 - w/s)^(k-1)` instead; the
    difference is recorded as a finding and both are modelled here. */
module Backbone {
  import opened Common
  import opened BipartiteGraph

  predicate Incident(n: Node, e: Edge)
  {
    match n
    case Patient(k) => e.patient == k
    case Site(c) => e.site == c
  }

  /** `G.degree(node)`: the number of edges at `n`. */
  function Degree(edges: seq<Edge>, n: Node): nat
  {
    if |edges| == 0 then 0
    else Degree(edges[..|edges| - 1], n) + (if Incident(n, edges[|edges| - 1]) then 1 else 0)
  }

  /** `sum(weights)` over the edges at `n`. */
  function Strength(edges: seq<Edge>, n: Node): real
  {
    if |edges| == 0 then 0.0
    else Strength(edges[..|edges| - 1], n) + (if Incident(n, edges[|edges| - 1]) then edges[|edges| - 1].weight as real else 0.0)
  }

  /** The builder only produces edges of weight at least 1. */
  ghost predicate PositiveWeights(edges: seq<Edge>)
  {
    forall i :: 0 <= i < |edges| ==> edges[i].weight >= 1
  }

  /** With positive weights the strength of a node is at least its degree,
      and at least the weight of each of its edges. */
  lemma {:induction false} StrengthBounds(edges: seq<Edge>, n: Node)
    requires PositiveWeights(edges)
    ensures Strength(edges, n) >= Degree(edges, n) as real
    ensures forall e :: e in edges && Incident(n, e) ==> e.weight as real <= Strength(edges, n)
  {
    if |edges| > 0 {
      var pre := edges[..|edges| - 1];
      assert PositiveWeights(pre);
      StrengthBounds(pre, n);
      assert forall e :: e in edges ==> e in pre || e == edges[|edges| - 1];
    }
  }

  /** The score the code gives the edge of weight `w` at `n`. */
  function Score(edges: seq<Edge>, n: Node, w: nat): real
    requires Degree(edges, n) >= 1 && Strength(edges, n) > 0.0
  {
    Pow(w as real / Strength(edges, n), Degree(edges, n) - 1)
  }

  /** Node `n` asks for edge `e` to be removed: `e` is one of its edges, it
      has more than one, and the score is not below `alpha`. */
  predicate Rejects(edges: seq<Edge>, alpha: real, n: Node, e: Edge)
    requires PositiveWeights(edges)
  {
    && Incident(n, e)
    && Degree(edges, n) > 1
    && (StrengthBounds(edges, n); Score(edges, n, e.weight) >= alpha)
  }

  predicate Keep(edges: seq<Edge>, alpha: real, e: Edge)
    requires PositiveWeights(edges)
  {
    !Rejects(edges, alpha, Patient(e.patient), e) && !Rejects(edges, alpha, Site(e.site), e)
  }

  /** The edges of `es` that `Keep` admits against the degrees and strengths
      of the whole graph `all`, in order. */
  function Survivors(all: seq<Edge>, alpha: real, es: seq<Edge>): (r: seq<Edge>)
    requires PositiveWeights(all)
    ensures |r| <= |es|
    ensures forall e :: e in r <==> e in es && Keep(all, alpha, e)
  {
    if |es| == 0 then []
    else
      var e := es[|es| - 1];
      Survivors(all, alpha, es[..|es| - 1]) + (if Keep(all, alpha, e) then [e] else [])
  }

  /** `create_backbone`: the same nodes with the same attributes; of the
      edges, exactly those that neither endpoint rejects, in their original
      order and with their attributes (weight included) unchanged. */
  function CreateBackbone(g: Graph, alpha: real): (b: Graph)
    requires PositiveWeights(g.edges)
    ensures b.patients == g.patients && b.sites == g.sites
    ensures b.patientInfo == g.patientInfo && b.siteInfo == g.siteInfo
    ensures |b.edges| <= |g.edges|
    ensures forall e :: e in b.edges <==> e in g.edges && Keep(g.edges, alpha, e)
  {
    g.(edges := Survivors(g.edges, alpha, g.edges))
  }

  /** An edge between two nodes of degree 1 always survives. */
  lemma LeafEdgeSurvives(g: Graph, alpha: real, e: Edge)
    requires PositiveWeights(g.edges) && e in g.edges
    requires Degree(g.edges, Patient(e.patient)) == 1 && Degree(g.edges, Site(e.site)) == 1
    ensures e in CreateBackbone(g, alpha).edges
  {
  }

  // ---------------------------------------------------------------- the score's direction

  /** As written, the score grows with the weight: at any node, whenever an
      edge is rejected, every heavier edge of that node is rejected too. */
  lemma AsWrittenRejectsHeavierFirst(edges: seq<Edge>, alpha: real, n: Node, light: Edge, heavy: Edge)
    requires PositiveWeights(edges)
    requires light in edges && heavy in edges && Incident(n, heavy)
    requires light.weight <= heavy.weight
    ensures Rejects(edges, alpha, n, light) ==> Rejects(edges, alpha, n, heavy)
  {
    if Rejects(edges, alpha, n, light) {
      StrengthBounds(edges, n);
      var s := Strength(edges, n);
      DivMonotone(light.weight as real, heavy.weight as real, s);
      PowMonotone(light.weight as real / s, heavy.weight as real / s, Degree(edges, n) - 1);
    }
  }

  /** The textbook disparity score `(1 - w/s)^(k-1)`: the probability, under
      the null model, of an edge at least this heavy. */
  function CorrectedScore(edges: seq<Edge>, n: Node, w: nat): real
    requires Degree(edges, n) >= 1 && Strength(edges, n) > 0.0
  {
    Pow(1.0 - w as real / Strength(edges, n), Degree(edges, n) - 1)
  }

  predicate CorrectedRejects(edges: seq<Edge>, alpha: real, n: Node, e: Edge)
    requires PositiveWeights(edges)
  {
    && Incident(n, e)
    && Degree(edges, n) > 1
    && (StrengthBounds(edges, n); CorrectedScore(edges, n, e.weight) >= alpha)
  }

  /** With the textbook score the filter works the intended way round:
      whenever an edge is rejected, every lighter edge of that node is
      rejected too, so the heavy (significant) edges are the ones kept. */
  lemma CorrectedRejectsLighterFirst(edges: seq<Edge>, alpha: real, n: Node, light: Edge, heavy: Edge)
    requires PositiveWeights(edges)
    requires light in edges && heavy in edges && Incident(n, light)
    requires light.weight <= heavy.weight
    ensures CorrectedRejects(edges, alpha, n, heavy) ==> CorrectedRejects(edges, alpha, n, light)
  {
    if CorrectedRejects(edges, alpha, n, heavy) {
      StrengthBounds(edges, n);
      var s := Strength(edges, n);
      assert heavy.weight as real <= s;
      DivMonotone(heavy.weight as real, s, s);
      DivMonotone(light.weight as real, heavy.weight as real, s);
      PowMonotone(1.0 - heavy.weight as real / s, 1.0 - light.weight as real / s, Degree(edges, n) - 1);
    }
  }

  function ExampleEdge(site: string, w: nat): Edge
  {
    Edge("A", site, w, 0, 0.0, None, None, None, None)
  }

  /** One patient seen once at site S1 and 99 times at site S2, alpha 0.05:
      the code's backbone keeps the single appointment and drops the 99,
      while the textbook score rejects the single appointment and keeps
      the 99. */
  lemma BackboneDropsHeavyEdge()
    ensures var light, heavy := ExampleEdge("S1", 1), ExampleEdge("S2", 99);
      var edges := [light, heavy];
      && PositiveWeights(edges)
      && !Rejects(edges, 0.05, Patient("A"), light) && Rejects(edges, 0.05, Patient("A"), heavy)
      && CorrectedRejects(edges, 0.05, Patient("A"), light) && !CorrectedRejects(edges, 0.05, Patient("A"), heavy)
  {
    var light, heavy := ExampleEdge("S1", 1), ExampleEdge("S2", 99);
    var edges := [light, heavy];
    var a := Patient("A");
    assert edges[..1] == [light] && [light][..0] == [];
    assert Degree([light], a) == 1 && Strength([light], a) == 1.0;
    assert Degree(edges, a) == 2 && Strength(edges, a) == 100.0;
    assert Score(edges, a, 1) == 0.01 && Score(edges, a, 99) == 0.99;
    assert CorrectedScore(edges, a, 1) == 0.99 && CorrectedScore(edges, a, 99) == 0.01;
  }

  // ---------------------------------------------------------------- the loop as written

  /** Some node of `ns` rejects `e`. */
  predicate RejectedByAny(edges: seq<Edge>, alpha: real, ns: seq<Node>, e: Edge)
    requires PositiveWeights(edges)
  {
    |ns| > 0 && (RejectedByAny(edges, alpha, ns[..|ns| - 1], e) || Rejects(edges, alpha, ns[|ns| - 1], e))
  }

  /** Only the two endpoints of an edge can reject it. */
  lemma {:induction false} RejectedByAnyEndpoints(edges: seq<Edge>, alpha: real, ns: seq<Node>, e: Edge)
    requires PositiveWeights(edges)
    ensures RejectedByAny(edges, alpha, ns, e) <==>
      (Patient(e.patient) in ns && Rejects(edges, alpha, Patient(e.patient), e)) ||
      (Site(e.site) in ns && Rejects(edges, alpha, Site(e.site), e))
  {
    if |ns| > 0 {
      var pre, n := ns[..|ns| - 1], ns[|ns| - 1];
      RejectedByAnyEndpoints(edges, alpha, pre, e);
      assert ns == pre + [n];
      if Incident(n, e) {
        assert n == Patient(e.patient) || n == Site(e.site);
      }
    }
  }

  /** In a well-formed graph the pair identifies the edge. */
  lemma PairIdentifiesEdge(g: Graph, u: nat, v: nat)
    requires WellFormed(g) && u < |g.edges| && v < |g.edges|
    requires EdgePair(g.edges[u]) == EdgePair(g.edges[v])
    ensures u == v
  {
  }

  /** The pairs node `n` asks to remove, added to `removed` while walking its
      neighbours as the inner loop of `create_backbone` does. */
  method RejectAtNode(g: Graph, alpha: real, n: Node, removed: set<(string, string)>) returns (out: set<(string, string)>)
    requires WellFormed(g)
    ensures forall u :: 0 <= u < |g.edges| ==>
      (EdgePair(g.edges[u]) in out <==> EdgePair(g.edges[u]) in removed || Rejects(g.edges, alpha, n, g.edges[u]))
    ensures forall p :: p in removed ==> p in out
    ensures forall p :: p in out && p !in removed ==> exists u :: 0 <= u < |g.edges| && EdgePair(g.edges[u]) == p
  {
    out := removed;
    var k := Degree(g.edges, n);
    if k > 1 {
      StrengthBounds(g.edges, n);
      var s := Strength(g.edges, n);
      for t := 0 to |g.edges|
        invariant forall u :: 0 <= u < |g.edges| ==>
          (EdgePair(g.edges[u]) in out <==>
             EdgePair(g.edges[u]) in removed || (u < t && Rejects(g.edges, alpha, n, g.edges[u])))
        invariant forall p :: p in removed ==> p in out
        invariant forall p :: p in out && p !in removed ==> exists u :: 0 <= u < |g.edges| && EdgePair(g.edges[u]) == p
      {
        var e := g.edges[t];
        if Incident(n, e) && Pow(e.weight as real / s, k - 1) >= alpha {
          out := out + {EdgePair(e)};
          forall u | 0 <= u < |g.edges| && EdgePair(g.edges[u]) == EdgePair(e)
            ensures u == t
          {
            PairIdentifiesEdge(g, u, t);
          }
        }
      }
    }
  }

  /** The outer loop of `create_backbone`: every node in turn adds the pairs
      it rejects. */
  method CollectRejected(g: Graph, alpha: real) returns (removed: set<(string, string)>)
    requires WellFormed(g)
    ensures forall u :: 0 <= u < |g.edges| ==>
      (EdgePair(g.edges[u]) in removed <==> RejectedByAny(g.edges, alpha, Nodes(g), g.edges[u]))
  {
    var nodes := Nodes(g);
    removed := {};
    for i := 0 to |nodes|
      invariant forall u :: 0 <= u < |g.edges| ==>
        (EdgePair(g.edges[u]) in removed <==> RejectedByAny(g.edges, alpha, nodes[..i], g.edges[u]))
      invariant forall p :: p in removed ==> exists u :: 0 <= u < |g.edges| && EdgePair(g.edges[u]) == p
    {
      removed := RejectAtNode(g, alpha, nodes[i], removed);
      assert nodes[..i + 1][..i] == nodes[..i];
    }
    assert nodes[..|nodes|] == nodes;
  }

  /** Both endpoints of an edge of a well-formed graph are among its nodes. */
  lemma EndpointsAreNodes(g: Graph, u: nat)
    requires WellFormed(g) && u < |g.edges|
    ensures Patient(g.edges[u].patient) in Nodes(g) && Site(g.edges[u].site) in Nodes(g)
  {
    var nodes, e := Nodes(g), g.edges[u];
    var j :| 0 <= j < |g.patients| && g.patients[j] == e.patient;
    assert nodes[j] == Patient(e.patient);
    var l :| 0 <= l < |g.sites| && g.sites[l] == e.site;
    assert nodes[|g.patients| + l] == Site(e.site);
  }

  /** `create_backbone` as written: walk the nodes, collect the (node,
      neighbour) pairs to remove, then drop those edges. It builds exactly
      `CreateBackbone`. */
  method CreateBackboneLoop(g: Graph, alpha: real) returns (b: Graph)
    requires WellFormed(g)
    ensures b == CreateBackbone(g, alpha)
  {
    var removed := CollectRejected(g, alpha);
    var kept: seq<Edge> := [];
    for u := 0 to |g.edges|
      invariant kept == Survivors(g.edges, alpha, g.edges[..u])
    {
      var e := g.edges[u];
      RejectedByAnyEndpoints(g.edges, alpha, Nodes(g), e);
      EndpointsAreNodes(g, u);
      assert g.edges[..u + 1][..u] == g.edges[..u];
      if EdgePair(e) !in removed {
        kept := kept + [e];
      }
    }
    assert g.edges[..|g.edges|] == g.edges;
    b := g.(edges := kept);
  }
}
