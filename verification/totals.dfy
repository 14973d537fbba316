/** Conservation of appointments in `create_enhanced_bipartite_graph`: every
    cleaned record is counted once at its patient, once at its site and once
    on its edge, so the patients' `total_appointments`, the sites'
    `total_appointments` and the edges' `weight` each add up to the number of
    records, and the DNA counters add up to the number of DNA records. */
module GraphTotals {
  import opened Common
  import opened Records
  import opened BipartiteGraph

  function One(r: CleanRecord): nat { 1 }

  /** Sum of a per-record measure over `rows`. */
  function Total(rows: seq<CleanRecord>, w: CleanRecord -> nat): nat
  {
    if |rows| == 0 then 0 else Total(rows[..|rows| - 1], w) + w(rows[|rows| - 1])
  }

  lemma {:induction false} TotalOne(rows: seq<CleanRecord>)
    ensures Total(rows, One) == |rows|
  {
    if |rows| > 0 {
      TotalOne(rows[..|rows| - 1]);
    }
  }

  lemma {:induction false} TotalDna(rows: seq<CleanRecord>)
    ensures Total(rows, DnaFlagOf) == DnaSum(rows)
  {
    if |rows| > 0 {
      TotalDna(rows[..|rows| - 1]);
    }
  }

  lemma TotalSnoc(rows: seq<CleanRecord>, x: CleanRecord, w: CleanRecord -> nat)
    ensures Total(rows + [x], w) == Total(rows, w) + w(x)
  {
    assert (rows + [x])[..|rows|] == rows;
  }

  /** Sum, over the keys `ks`, of the measure of each key's records. */
  function KeyTotal<K(==)>(recs: seq<CleanRecord>, key: CleanRecord -> K, ks: seq<K>, w: CleanRecord -> nat): nat
  {
    if |ks| == 0 then 0
    else KeyTotal(recs, key, ks[..|ks| - 1], w) + Total(Rows(recs, key, ks[|ks| - 1]), w)
  }

  lemma KeyTotalSnocKey<K>(recs: seq<CleanRecord>, key: CleanRecord -> K, ks: seq<K>, k: K, w: CleanRecord -> nat)
    ensures KeyTotal(recs, key, ks + [k], w) == KeyTotal(recs, key, ks, w) + Total(Rows(recs, key, k), w)
  {
    assert (ks + [k])[..|ks|] == ks;
  }

  /** One more record adds its measure to the total of its own key, if that
      key is among `ks`, and to no other. */
  lemma {:induction false} KeyTotalSnocRecord<K>(recs: seq<CleanRecord>, x: CleanRecord, key: CleanRecord -> K,
                                                 ks: seq<K>, w: CleanRecord -> nat)
    requires NoDup(ks)
    ensures KeyTotal(recs + [x], key, ks, w) ==
            KeyTotal(recs, key, ks, w) + (if key(x) in ks then w(x) else 0)
  {
    if |ks| > 0 {
      var pre, k := ks[..|ks| - 1], ks[|ks| - 1];
      assert NoDup(pre);
      KeyTotalSnocRecord(recs, x, key, pre, w);
      RowsSnoc(recs, x, key, k);
      TotalSnoc(Rows(recs, key, k), x, w);
      assert ks == pre + [k];
      if key(x) == k {
        assert key(x) !in pre;
      }
    }
  }

  /** The first record of a new key opens a group of its own. */
  lemma KeyTotalNewKey<K(!new)>(s: seq<CleanRecord>, x: CleanRecord, key: CleanRecord -> K, w: CleanRecord -> nat)
    requires key(x) !in Keys(s, key)
    ensures KeyTotal(s + [x], key, Keys(s, key) + [key(x)], w) == KeyTotal(s, key, Keys(s, key), w) + w(x)
  {
    KeyTotalSnocRecord(s, x, key, Keys(s, key), w);
    KeyTotalSnocKey(s + [x], key, Keys(s, key), key(x), w);
    RowsNonEmpty(s, key, key(x));
    RowsSnoc(s, x, key, key(x));
    assert Rows(s + [x], key, key(x)) == [x];
    assert [x][..0] == [];
  }

  /** Summing the measure key by key over the distinct keys gives the
      measure of all records: the key groups partition the records. */
  lemma {:induction false} KeyTotalPartition<K(!new)>(recs: seq<CleanRecord>, key: CleanRecord -> K, w: CleanRecord -> nat)
    ensures KeyTotal(recs, key, Keys(recs, key), w) == Total(recs, w)
  {
    if |recs| > 0 {
      var s, x := recs[..|recs| - 1], recs[|recs| - 1];
      assert recs == s + [x];
      KeyTotalPartition(s, key, w);
      KeysSnoc(s, x, key);
      if key(x) in Keys(s, key) {
        KeyTotalSnocRecord(s, x, key, Keys(s, key), w);
      } else {
        KeyTotalNewKey(s, x, key, w);
      }
    }
  }

  /** Sum of the edge weights and of the edge DNA counts. */
  function EdgeWeights(edges: seq<Edge>): nat
  {
    if |edges| == 0 then 0 else EdgeWeights(edges[..|edges| - 1]) + edges[|edges| - 1].weight
  }

  function EdgeDnas(edges: seq<Edge>): nat
  {
    if |edges| == 0 then 0 else EdgeDnas(edges[..|edges| - 1]) + edges[|edges| - 1].dnaCount
  }

  lemma {:induction false} EdgeSumsAreKeyTotals(recs: seq<CleanRecord>, n: nat)
    requires n <= |Keys(recs, PairOf)|
    ensures var edges := GroupedEdges(recs)[..n];
      var ks := Keys(recs, PairOf)[..n];
      && EdgeWeights(edges) == KeyTotal(recs, PairOf, ks, One)
      && EdgeDnas(edges) == KeyTotal(recs, PairOf, ks, DnaFlagOf)
  {
    if n > 0 {
      var pairs := Keys(recs, PairOf);
      var edges := GroupedEdges(recs);
      EdgeSumsAreKeyTotals(recs, n - 1);
      assert edges[..n][..n - 1] == edges[..n - 1];
      assert pairs[..n][..n - 1] == pairs[..n - 1];
      var rows := Rows(recs, PairOf, pairs[n - 1]);
      KeysOccur(recs, PairOf, pairs[n - 1]);
      EdgeOfCounts(recs, pairs[n - 1]);
      TotalOne(rows);
      TotalDna(rows);
    }
  }

  function PatientAppointments(g: Graph, ks: seq<string>): nat
    requires forall k :: k in ks ==> k in g.patientInfo
  {
    if |ks| == 0 then 0
    else PatientAppointments(g, ks[..|ks| - 1]) + g.patientInfo[ks[|ks| - 1]].totalAppointments
  }

  function SiteAppointments(g: Graph, cs: seq<string>): nat
    requires forall c :: c in cs ==> c in g.siteInfo
  {
    if |cs| == 0 then 0
    else SiteAppointments(g, cs[..|cs| - 1]) + g.siteInfo[cs[|cs| - 1]].totalAppointments
  }

  lemma {:induction false} PatientSumIsKeyTotal(recs: seq<CleanRecord>, ks: seq<string>)
    requires forall k :: k in ks ==> k in BuildGraph(recs).patientInfo
    ensures PatientAppointments(BuildGraph(recs), ks) == KeyTotal(recs, PatientOf, ks, One)
  {
    if |ks| > 0 {
      var k := ks[|ks| - 1];
      PatientSumIsKeyTotal(recs, ks[..|ks| - 1]);
      TotalOne(Rows(recs, PatientOf, k));
      NodeRates(recs);
    }
  }

  lemma {:induction false} SiteSumIsKeyTotal(recs: seq<CleanRecord>, cs: seq<string>)
    requires forall c :: c in cs ==> c in BuildGraph(recs).siteInfo
    ensures SiteAppointments(BuildGraph(recs), cs) == KeyTotal(recs, SiteOf, cs, One)
  {
    if |cs| > 0 {
      var c := cs[|cs| - 1];
      SiteSumIsKeyTotal(recs, cs[..|cs| - 1]);
      TotalOne(Rows(recs, SiteOf, c));
      NodeRates(recs);
    }
  }

  /** The patients' `total_appointments` add up to the number of records. */
  lemma PatientAppointmentsConserved(recs: seq<CleanRecord>)
    ensures var g := BuildGraph(recs); PatientAppointments(g, g.patients) == |recs|
  {
    TotalOne(recs);
    PatientSumIsKeyTotal(recs, BuildGraph(recs).patients);
    KeyTotalPartition(recs, PatientOf, One);
  }

  /** The sites' `total_appointments` add up to the number of records. */
  lemma SiteAppointmentsConserved(recs: seq<CleanRecord>)
    ensures var g := BuildGraph(recs); SiteAppointments(g, g.sites) == |recs|
  {
    TotalOne(recs);
    SiteSumIsKeyTotal(recs, BuildGraph(recs).sites);
    KeyTotalPartition(recs, SiteOf, One);
  }

  /** The edge weights add up to the number of records and the edge DNA
      counts to the number of DNA records. */
  lemma EdgeAppointmentsConserved(recs: seq<CleanRecord>)
    ensures EdgeWeights(BuildGraph(recs).edges) == |recs|
    ensures EdgeDnas(BuildGraph(recs).edges) == DnaSum(recs)
  {
    var edges := GroupedEdges(recs);
    var pairs := Keys(recs, PairOf);
    TotalOne(recs);
    TotalDna(recs);
    GroupedEdgesCounters(recs);
    EdgeSumsAreKeyTotals(recs, |pairs|);
    assert edges[..|pairs|] == edges;
    assert pairs[..|pairs|] == pairs;
    KeyTotalPartition(recs, PairOf, One);
    KeyTotalPartition(recs, PairOf, DnaFlagOf);
  }
}
