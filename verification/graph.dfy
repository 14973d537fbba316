/** `create_enhanced_bipartite_graph` (identical in data_prep.py,
    data_prep_leiden.py and webapp.py): one patient node per distinct patient
    key, one site node per distinct site code, one edge per (patient, site)
    pair that occurs in the cleaned records. Node and edge attributes are
    aggregates over the records of that patient, site or pair. */
module BipartiteGraph {
  import opened Common
  import opened Records

  /** A graph node. networkx names it `P_<key>` or `S_<code>`; `Name` below
      gives that string, and the two name spaces cannot collide. */
  datatype Node = Patient(key: string) | Site(code: string)

  function Name(n: Node): string
  {
    match n
    case Patient(k) => "P_" + k
    case Site(c) => "S_" + c
  }

  /** Distinct nodes have distinct names, and the prefix tells the kind. */
  lemma NameInjective(a: Node, b: Node)
    ensures Name(a) == Name(b) ==> a == b
    ensures Name(a)[..2] == (if a.Patient? then "P_" else "S_")
  {
    if Name(a) == Name(b) {
      assert Name(a)[0] == Name(b)[0];
      match a
      case Patient(k) =>
        assert k == Name(a)[2..] == Name(b)[2..];
      case Site(c) =>
        assert c == Name(a)[2..] == Name(b)[2..];
    }
  }

  datatype AgeGroup = Child | YoungAdult | Adult | Senior | Unknown

  /** Age group of a patient's first record: cut-offs at 18, 35 and 65. */
  function AgeGroupOf(age: Option<real>): AgeGroup
  {
    match age
    case None => Unknown
    case Some(a) =>
      if a < 18.0 then Child
      else if a < 35.0 then YoungAdult
      else if a < 65.0 then Adult
      else Senior
  }

  function AgeRank(g: AgeGroup): nat
  {
    match g
    case Child => 0
    case YoungAdult => 1
    case Adult => 2
    case Senior => 3
    case Unknown => 4
  }

  /** A missing age, and only a missing age, gives Unknown; otherwise an older
      patient never falls in a younger group, and each group is exactly its
      half-open age band. */
  lemma AgeGroupBands(a: real, b: real)
    ensures AgeGroupOf(None) == Unknown && AgeGroupOf(Some(a)) != Unknown
    ensures a <= b ==> AgeRank(AgeGroupOf(Some(a))) <= AgeRank(AgeGroupOf(Some(b)))
    ensures AgeGroupOf(Some(a)) == Child <==> a < 18.0
    ensures AgeGroupOf(Some(a)) == YoungAdult <==> 18.0 <= a < 35.0
    ensures AgeGroupOf(Some(a)) == Adult <==> 35.0 <= a < 65.0
    ensures AgeGroupOf(Some(a)) == Senior <==> 65.0 <= a
  {
  }

  /** Bayesian smoothing with one pseudo-DNA in five pseudo-appointments. */
  function SmoothedRate(dnas: nat, appointments: nat): real
  {
    (dnas as real + 1.0) / (appointments as real + 5.0)
  }

  /** The smoothed rate is strictly between 0 and 1 whenever the DNA count does
      not exceed the appointment count, and grows with the DNA count. */
  lemma SmoothedRateBounds(d: nat, n: nat)
    ensures 0.0 < SmoothedRate(d, n)
    ensures d <= n ==> SmoothedRate(d, n) < 1.0
    ensures SmoothedRate(d, n) < SmoothedRate(d + 1, n)
    ensures SmoothedRate(0, 1) == 1.0 / 6.0
  {
    var num, den := d as real + 1.0, n as real + 5.0;
    if d <= n {
      DivStrictMonotone(num, den, den);
      SelfRatio(den);
    }
    DivStrictMonotone(num, num + 1.0, den);
  }

  /** A patient's `risk_category` from the smoothed rate: High above 0.3,
      Medium above 0.1, Low otherwise. */
  function Categorize(rate: real): Level
  {
    if rate > 0.3 then High else if rate > 0.1 then Medium else Low
  }

  function LevelRank(l: Level): nat
  {
    match l
    case Low => 0
    case Medium => 1
    case High => 2
  }

  /** The categories are ordered bands of the rate: a higher rate never gets a
      lower category, and each category is exactly its band. */
  lemma CategorizeBands(r: real, s: real)
    ensures r <= s ==> LevelRank(Categorize(r)) <= LevelRank(Categorize(s))
    ensures Categorize(r) == High <==> r > 0.3
    ensures Categorize(r) == Medium <==> 0.1 < r <= 0.3
    ensures Categorize(r) == Low <==> r <= 0.1
  {
  }

  // ---------------------------------------------------------------- grouping

  function PatientOf(r: CleanRecord): string { r.patient }
  function SiteOf(r: CleanRecord): string { r.site }
  function PairOf(r: CleanRecord): (string, string) { (r.patient, r.site) }

  /** The key of every record, in record order. */
  function Project<K>(recs: seq<CleanRecord>, key: CleanRecord -> K): (r: seq<K>)
    ensures |r| == |recs|
    ensures forall i :: 0 <= i < |recs| ==> r[i] == key(recs[i])
  {
    if |recs| == 0 then [] else Project(recs[..|recs| - 1], key) + [key(recs[|recs| - 1])]
  }

  /** The distinct keys in first-seen order (pandas `unique()`). */
  function Keys<K(==,!new)>(recs: seq<CleanRecord>, key: CleanRecord -> K): seq<K>
  {
    Dedup(Project(recs, key))
  }

  /** The records whose key is `k`, in record order (`df[df[col] == k]`). */
  function Rows<K(==)>(recs: seq<CleanRecord>, key: CleanRecord -> K, k: K): (rows: seq<CleanRecord>)
    ensures |rows| <= |recs|
    ensures forall i :: 0 <= i < |rows| ==> key(rows[i]) == k
  {
    if |recs| == 0 then []
    else
      var pre := Rows(recs[..|recs| - 1], key, k);
      if key(recs[|recs| - 1]) == k then pre + [recs[|recs| - 1]] else pre
  }

  /** A key selects some record exactly when it occurs. */
  lemma {:induction false} RowsNonEmpty<K>(recs: seq<CleanRecord>, key: CleanRecord -> K, k: K)
    ensures |Rows(recs, key, k)| > 0 <==> k in Project(recs, key)
  {
    if |recs| > 0 {
      RowsNonEmpty(recs[..|recs| - 1], key, k);
      assert Project(recs, key) == Project(recs[..|recs| - 1], key) + [key(recs[|recs| - 1])];
    }
  }

  function DnaSum(rows: seq<CleanRecord>): (d: nat)
    ensures d <= |rows|
  {
    if |rows| == 0 then 0 else DnaSum(rows[..|rows| - 1]) + DnaFlagOf(rows[|rows| - 1])
  }

  // ---------------------------------------------------------------- the graph

  datatype PatientInfo = PatientInfo(
    age: Option<real>,
    ageGroup: AgeGroup,
    postcode: Text,
    orgCode: Text,
    totalAppointments: nat,
    totalDnas: nat,
    dnaRate: real,
    uniqueSites: nat,
    riskCategory: Level)

  datatype SiteInfo = SiteInfo(
    providerLocation: Text,
    orgCode: Text,
    treatmentFunction: Text,
    totalAppointments: nat,
    totalDnas: nat,
    siteDnaRate: real,
    uniquePatients: nat)

  /** An edge always runs from a patient to a site; the attributes after
      `dnaRate` are those of the first record of the pair. */
  datatype Edge = Edge(
    patient: string,
    site: string,
    weight: nat,
    dnaCount: nat,
    dnaRate: real,
    appointmentDate: Option<int>,
    treatmentFunction: Text,
    referringOrg: Text,
    outcome: Text)

  /** A bipartite graph. networkx's node order is all patients (first-seen
      order) followed by all sites (first-seen order). */
  datatype Graph = Graph(
    patients: seq<string>,
    sites: seq<string>,
    patientInfo: map<string, PatientInfo>,
    siteInfo: map<string, SiteInfo>,
    edges: seq<Edge>)

  function Nodes(g: Graph): seq<Node>
  {
    seq(|g.patients|, i requires 0 <= i < |g.patients| => Patient(g.patients[i]))
      + seq(|g.sites|, i requires 0 <= i < |g.sites| => Site(g.sites[i]))
  }

  ghost predicate HasNode(g: Graph, n: Node)
  {
    match n
    case Patient(k) => k in g.patients
    case Site(c) => c in g.sites
  }

  function EdgePair(e: Edge): (string, string)
  {
    (e.patient, e.site)
  }

  /** The structural invariants networkx maintains for the builder's output:
      distinct nodes, attributes for every node, edges between existing nodes,
      at most one edge per pair, and edge counters with 1 <= weight and
      dna_count <= weight. */
  ghost predicate WellFormed(g: Graph)
  {
    && NoDup(g.patients) && NoDup(g.sites)
    && (forall k :: k in g.patientInfo <==> k in g.patients)
    && (forall c :: c in g.siteInfo <==> c in g.sites)
    && (forall i :: 0 <= i < |g.edges| ==> g.edges[i].patient in g.patients && g.edges[i].site in g.sites)
    && (forall i, j :: 0 <= i < j < |g.edges| ==> EdgePair(g.edges[i]) != EdgePair(g.edges[j]))
    && (forall i :: 0 <= i < |g.edges| ==> 1 <= g.edges[i].weight && g.edges[i].dnaCount <= g.edges[i].weight)
  }

  function PatientInfoOf(recs: seq<CleanRecord>, k: string): PatientInfo
    requires k in Project(recs, PatientOf)
  {
    var rows := Rows(recs, PatientOf, k);
    RowsNonEmpty(recs, PatientOf, k);
    var first := rows[0];
    var n := |rows|;
    var d := DnaSum(rows);
    var rate := SmoothedRate(d, n);
    PatientInfo(first.age, AgeGroupOf(first.age), first.postcode, first.patientOrg,
                n, d, rate, |Keys(rows, SiteOf)|, Categorize(rate))
  }

  function SiteInfoOf(recs: seq<CleanRecord>, c: string): SiteInfo
    requires c in Project(recs, SiteOf)
  {
    var rows := Rows(recs, SiteOf, c);
    RowsNonEmpty(recs, SiteOf, c);
    var first := rows[0];
    var n := |rows|;
    var d := DnaSum(rows);
    SiteInfo(first.providerLocation, first.providerOrg, first.treatmentFunction,
             n, d, SmoothedRate(d, n), |Keys(rows, PatientOf)|)
  }

  /** The edge of one pair from its weight, DNA count and first record. */
  function MakeEdge(first: CleanRecord, weight: nat, dnas: nat): Edge
    requires weight >= 1
  {
    Edge(first.patient, first.site, weight, dnas, dnas as real / weight as real,
         first.appointmentDate, first.treatmentFunction, first.referringOrg, first.outcome)
  }

  function EdgeOf(recs: seq<CleanRecord>, pair: (string, string)): Edge
    requires pair in Project(recs, PairOf)
  {
    var rows := Rows(recs, PairOf, pair);
    RowsNonEmpty(recs, PairOf, pair);
    MakeEdge(rows[0], |rows|, DnaSum(rows))
  }

  /** The edges as a group-and-reduce over (patient, site) keys, in the order
      in which the pairs first occur. */
  function GroupedEdges(recs: seq<CleanRecord>): seq<Edge>
  {
    var pairs := Keys(recs, PairOf);
    seq(|pairs|, j requires 0 <= j < |pairs| => EdgeOf(recs, pairs[j]))
  }

  /** `create_enhanced_bipartite_graph`: a well-formed graph whose patient
      nodes are exactly the patient keys that occur and whose site nodes are
      exactly the site codes that occur. */
  function BuildGraph(recs: seq<CleanRecord>): (g: Graph)
    ensures WellFormed(g)
    ensures forall k :: k in g.patients <==> exists r :: r in recs && r.patient == k
    ensures forall c :: c in g.sites <==> exists r :: r in recs && r.site == c
  {
    var pk := Keys(recs, PatientOf);
    var sk := Keys(recs, SiteOf);
    GroupedEdgesCounters(recs);
    GroupedEdgesDistinct(recs);
    KeysExactly(recs, PatientOf);
    KeysExactly(recs, SiteOf);
    Graph(pk, sk,
          map k | k in pk :: PatientInfoOf(recs, k),
          map c | c in sk :: SiteInfoOf(recs, c),
          GroupedEdges(recs))
  }

  // ---------------------------------------------------------------- properties

  /** A pair occurs only if its patient and its site occur. */
  lemma PairEndpoints(recs: seq<CleanRecord>, pair: (string, string))
    requires pair in Project(recs, PairOf)
    ensures pair.0 in Project(recs, PatientOf) && pair.1 in Project(recs, SiteOf)
  {
    var pp := Project(recs, PairOf);
    var i :| 0 <= i < |pp| && pp[i] == pair;
    assert Project(recs, PatientOf)[i] == pair.0;
    assert Project(recs, SiteOf)[i] == pair.1;
  }

  /** Each edge carries the pair it was built for, and its weight and DNA
      count are the number of records and of DNA records of that pair. */
  lemma EdgeOfCounts(recs: seq<CleanRecord>, pair: (string, string))
    requires pair in Project(recs, PairOf)
    ensures var e := EdgeOf(recs, pair);
      && EdgePair(e) == pair
      && e.weight == |Rows(recs, PairOf, pair)| >= 1
      && e.dnaCount == DnaSum(Rows(recs, PairOf, pair)) <= e.weight
      && 0.0 <= e.dnaRate <= 1.0
  {
    var rows := Rows(recs, PairOf, pair);
    var e := EdgeOf(recs, pair);
    assert e == MakeEdge(rows[0], |rows|, DnaSum(rows));
    assert PairOf(rows[0]) == pair;
    RatioBounds(DnaSum(rows), |rows|);
  }

  lemma RatioBounds(d: nat, w: nat)
    requires 1 <= w && d <= w
    ensures 0.0 <= d as real / w as real <= 1.0
  {
    FractionBounds(d as real, w as real);
  }

  /** A key is among the distinct keys exactly when some record has it. */
  lemma KeysOccur<K(!new)>(recs: seq<CleanRecord>, key: CleanRecord -> K, k: K)
    ensures k in Keys(recs, key) <==> exists r :: r in recs && key(r) == k
  {
    var kp := Project(recs, key);
    if k in kp {
      var i :| 0 <= i < |kp| && kp[i] == k;
      assert recs[i] in recs && key(recs[i]) == k;
    }
    if exists r :: r in recs && key(r) == k {
      var r :| r in recs && key(r) == k;
      var i :| 0 <= i < |recs| && recs[i] == r;
      assert kp[i] == k;
    }
  }

  /** The i-th edge belongs to the i-th distinct pair and has sound counters. */
  lemma GroupedEdgesCounters(recs: seq<CleanRecord>)
    ensures var edges := GroupedEdges(recs);
      var pairs := Keys(recs, PairOf);
      && |edges| == |pairs|
      && forall i :: 0 <= i < |edges| ==>
           && EdgePair(edges[i]) == pairs[i]
           && edges[i].patient in Keys(recs, PatientOf)
           && edges[i].site in Keys(recs, SiteOf)
           && 1 <= edges[i].weight && edges[i].dnaCount <= edges[i].weight
           && 0.0 <= edges[i].dnaRate <= 1.0
  {
    var edges := GroupedEdges(recs);
    var pairs := Keys(recs, PairOf);
    forall i | 0 <= i < |edges|
      ensures EdgePair(edges[i]) == pairs[i]
      ensures edges[i].patient in Keys(recs, PatientOf) && edges[i].site in Keys(recs, SiteOf)
      ensures 1 <= edges[i].weight && edges[i].dnaCount <= edges[i].weight
      ensures 0.0 <= edges[i].dnaRate <= 1.0
    {
      EdgeOfCounts(recs, pairs[i]);
      PairEndpoints(recs, pairs[i]);
    }
  }

  /** The grouped edges belong to pairwise distinct pairs. */
  lemma GroupedEdgesDistinct(recs: seq<CleanRecord>)
    ensures var edges := GroupedEdges(recs);
      forall i, j :: 0 <= i < j < |edges| ==> EdgePair(edges[i]) != EdgePair(edges[j])
  {
    var edges := GroupedEdges(recs);
    var pairs := Keys(recs, PairOf);
    GroupedEdgesCounters(recs);
    forall i, j | 0 <= i < j < |edges|
      ensures EdgePair(edges[i]) != EdgePair(edges[j])
    {
      assert EdgePair(edges[i]) == pairs[i] && EdgePair(edges[j]) == pairs[j];
    }
  }

  /** The distinct keys are exactly the keys that occur. */
  lemma KeysExactly<K(!new)>(recs: seq<CleanRecord>, key: CleanRecord -> K)
    ensures forall k :: k in Keys(recs, key) <==> exists r :: r in recs && key(r) == k
  {
    forall k
      ensures k in Keys(recs, key) <==> exists r :: r in recs && key(r) == k
    {
      KeysOccur(recs, key, k);
    }
  }

  /** The builder's output is a well-formed bipartite graph: distinct nodes,
      attributes for exactly the nodes, one edge per pair between existing
      nodes, and counters with 1 <= weight, dna_count <= weight and
      0 <= dna_rate <= 1. */
  lemma BuildGraphWellFormed(recs: seq<CleanRecord>)
    ensures WellFormed(BuildGraph(recs))
    ensures var g := BuildGraph(recs);
      forall i :: 0 <= i < |g.edges| ==> 0.0 <= g.edges[i].dnaRate <= 1.0
  {
    var g := BuildGraph(recs);
    var pairs := Keys(recs, PairOf);
    GroupedEdgesCounters(recs);
    assert g.edges == GroupedEdges(recs);
    forall i, j | 0 <= i < j < |g.edges|
      ensures EdgePair(g.edges[i]) != EdgePair(g.edges[j])
    {
      assert EdgePair(g.edges[i]) == pairs[i] && EdgePair(g.edges[j]) == pairs[j];
    }
  }

  /** The nodes are exactly the patient keys and site codes that occur. */
  lemma BuildGraphNodes(recs: seq<CleanRecord>)
    ensures var g := BuildGraph(recs);
      && (forall k :: k in g.patients <==> exists r :: r in recs && r.patient == k)
      && (forall c :: c in g.sites <==> exists r :: r in recs && r.site == c)
  {
    forall k
      ensures k in Keys(recs, PatientOf) <==> exists r :: r in recs && r.patient == k
    {
      KeysOccur(recs, PatientOf, k);
    }
    forall c
      ensures c in Keys(recs, SiteOf) <==> exists r :: r in recs && r.site == c
    {
      KeysOccur(recs, SiteOf, c);
    }
  }

  /** The (patient, site) pair of every edge, in edge order. */
  function EdgePairs(edges: seq<Edge>): (r: seq<(string, string)>)
    ensures |r| == |edges|
    ensures forall i :: 0 <= i < |edges| ==> r[i] == EdgePair(edges[i])
  {
    seq(|edges|, i requires 0 <= i < |edges| => EdgePair(edges[i]))
  }

  /** The edges are the distinct (patient, site) pairs in first-seen order, so
      there is an edge between a patient and a site exactly when some record
      pairs them. */
  lemma BuildGraphEdges(recs: seq<CleanRecord>)
    ensures EdgePairs(BuildGraph(recs).edges) == Keys(recs, PairOf)
    ensures forall pair :: pair in EdgePairs(BuildGraph(recs).edges) <==>
                           exists r :: r in recs && PairOf(r) == pair
  {
    var ep := EdgePairs(BuildGraph(recs).edges);
    GroupedEdgesCounters(recs);
    assert ep == Keys(recs, PairOf);
    forall pair
      ensures pair in ep <==> exists r :: r in recs && PairOf(r) == pair
    {
      KeysOccur(recs, PairOf, pair);
    }
  }

  /** The number of distinct keys among `recs` (pandas `nunique()`). */
  ghost function DistinctCount<K>(recs: seq<CleanRecord>, key: CleanRecord -> K): nat
  {
    |set r | r in recs :: key(r)|
  }

  /** A list without repeats has as many elements as its set. */
  lemma {:induction false} NoDupCard<T>(s: seq<T>)
    requires NoDup(s)
    ensures |set x | x in s| == |s|
  {
    if |s| > 0 {
      var q := s[..|s| - 1];
      assert NoDup(q);
      NoDupCard(q);
      assert (set x | x in s) == (set x | x in q) + {s[|s| - 1]};
      assert s[|s| - 1] !in (set x | x in q);
    }
  }

  /** `unique()` lists each occurring key once, so its length is `nunique()`. */
  lemma KeysCount<K(!new)>(recs: seq<CleanRecord>, key: CleanRecord -> K)
    ensures |Keys(recs, key)| == DistinctCount(recs, key)
  {
    var ks := Keys(recs, key);
    forall k
      ensures k in ks <==> k in (set r | r in recs :: key(r))
    {
      KeysOccur(recs, key, k);
    }
    assert (set x | x in ks) == (set r | r in recs :: key(r));
    NoDupCard(ks);
  }

  /** Every patient and site node carries the smoothed rate `(d+1)/(n+5)` of
      its own records, which lies strictly in (0, 1); a patient's category is
      the band of that rate, and the distinct-site and distinct-patient
      counts are `nunique()` of its records, between 1 and its appointment
      count. */
  lemma NodeRates(recs: seq<CleanRecord>)
    ensures var g := BuildGraph(recs);
      && (forall k :: k in g.patientInfo ==>
            var p := g.patientInfo[k];
            && p.totalAppointments == |Rows(recs, PatientOf, k)| >= 1
            && p.totalDnas == DnaSum(Rows(recs, PatientOf, k)) <= p.totalAppointments
            && p.dnaRate == SmoothedRate(p.totalDnas, p.totalAppointments)
            && 0.0 < p.dnaRate < 1.0
            && p.riskCategory == Categorize(p.dnaRate)
            && p.uniqueSites == DistinctCount(Rows(recs, PatientOf, k), SiteOf)
            && 1 <= p.uniqueSites <= p.totalAppointments)
      && (forall c :: c in g.siteInfo ==>
            var s := g.siteInfo[c];
            && s.totalAppointments == |Rows(recs, SiteOf, c)| >= 1
            && s.totalDnas == DnaSum(Rows(recs, SiteOf, c)) <= s.totalAppointments
            && s.siteDnaRate == SmoothedRate(s.totalDnas, s.totalAppointments)
            && 0.0 < s.siteDnaRate < 1.0
            && s.uniquePatients == DistinctCount(Rows(recs, SiteOf, c), PatientOf)
            && 1 <= s.uniquePatients <= s.totalAppointments)
  {
    var g := BuildGraph(recs);
    forall k | k in g.patientInfo
      ensures var p := g.patientInfo[k];
        && p.uniqueSites == DistinctCount(Rows(recs, PatientOf, k), SiteOf)
        && 1 <= p.uniqueSites <= p.totalAppointments && 0.0 < p.dnaRate < 1.0
    {
      var rows := Rows(recs, PatientOf, k);
      RowsNonEmpty(recs, PatientOf, k);
      var p := g.patientInfo[k];
      assert rows[0].site in Project(rows, SiteOf);
      KeysCount(rows, SiteOf);
      SmoothedRateBounds(p.totalDnas, p.totalAppointments);
    }
    forall c | c in g.siteInfo
      ensures var s := g.siteInfo[c];
        && s.uniquePatients == DistinctCount(Rows(recs, SiteOf, c), PatientOf)
        && 1 <= s.uniquePatients <= s.totalAppointments && 0.0 < s.siteDnaRate < 1.0
    {
      var rows := Rows(recs, SiteOf, c);
      RowsNonEmpty(recs, SiteOf, c);
      var s := g.siteInfo[c];
      assert rows[0].patient in Project(rows, PatientOf);
      KeysCount(rows, PatientOf);
      SmoothedRateBounds(s.totalDnas, s.totalAppointments);
    }
  }

  // ---------------------------------------------------------------- the edge loop

  lemma RowsSnoc<K>(s: seq<CleanRecord>, x: CleanRecord, key: CleanRecord -> K, k: K)
    ensures Rows(s + [x], key, k) == Rows(s, key, k) + (if key(x) == k then [x] else [])
  {
    assert (s + [x])[..|s|] == s;
  }

  lemma DnaSumSnoc(rows: seq<CleanRecord>, x: CleanRecord)
    ensures DnaSum(rows + [x]) == DnaSum(rows) + DnaFlagOf(x)
  {
    assert (rows + [x])[..|rows|] == rows;
  }

  lemma KeysSnoc<K(!new)>(s: seq<CleanRecord>, x: CleanRecord, key: CleanRecord -> K)
    ensures Keys(s + [x], key) ==
      if key(x) in Keys(s, key) then Keys(s, key) else Keys(s, key) + [key(x)]
  {
    assert (s + [x])[..|s|] == s;
    assert Project(s + [x], key) == Project(s, key) + [key(x)];
    assert Project(s + [x], key)[..|s|] == Project(s, key);
  }

  /** What the edge loop keeps per pair: the weight, the DNA count and the
      first record, whose attributes the edge carries. */
  datatype Tally = Tally(weight: nat, dnas: nat, first: CleanRecord)

  /** `t` is the tally of pair `k` over `prefix`. */
  ghost predicate TallyMatches(prefix: seq<CleanRecord>, k: (string, string), t: Tally)
  {
    var rows := Rows(prefix, PairOf, k);
    && |rows| > 0
    && t.weight == |rows|
    && t.dnas == DnaSum(rows)
    && t.first == rows[0]
  }

  /** The state of the edge loop after a prefix of the records: `order`
      holds the pairs seen so far in first-seen order, and `acc` maps each of
      them to the tally of its records. */
  ghost predicate Tallied(prefix: seq<CleanRecord>, acc: map<(string, string), Tally>,
                          order: seq<(string, string)>)
  {
    && order == Keys(prefix, PairOf)
    && (forall k :: k in acc <==> k in order)
    && (forall k :: k in acc ==> TallyMatches(prefix, k, acc[k]))
  }

  /** The tally after one more record. */
  function Bump(acc: map<(string, string), Tally>, r: CleanRecord): map<(string, string), Tally>
  {
    var p := PairOf(r);
    if p in acc then acc[p := Tally(acc[p].weight + 1, acc[p].dnas + DnaFlagOf(r), acc[p].first)]
    else acc[p := Tally(1, DnaFlagOf(r), r)]
  }

  /** A pair met for the first time gets the tally of its one record. */
  lemma TallyKeyFresh(prefix: seq<CleanRecord>, r: CleanRecord,
                      acc: map<(string, string), Tally>, order: seq<(string, string)>)
    requires Tallied(prefix, acc, order) && PairOf(r) !in acc
    ensures TallyMatches(prefix + [r], PairOf(r), Tally(1, DnaFlagOf(r), r))
  {
    var p := PairOf(r);
    RowsSnoc(prefix, r, PairOf, p);
    KeysOccur(prefix, PairOf, p);
    RowsNonEmpty(prefix, PairOf, p);
    assert Rows(prefix + [r], PairOf, p) == [r];
    DnaSumSnoc([], r);
    assert [] + [r] == [r];
  }

  /** A pair met again adds one to its weight and its flag to its count. */
  lemma TallyKeySeen(prefix: seq<CleanRecord>, r: CleanRecord,
                     acc: map<(string, string), Tally>, order: seq<(string, string)>)
    requires Tallied(prefix, acc, order) && PairOf(r) in acc
    ensures var t := acc[PairOf(r)];
      TallyMatches(prefix + [r], PairOf(r), Tally(t.weight + 1, t.dnas + DnaFlagOf(r), t.first))
  {
    var p := PairOf(r);
    RowsSnoc(prefix, r, PairOf, p);
    var rows0 := Rows(prefix, PairOf, p);
    DnaSumSnoc(rows0, r);
    assert TallyMatches(prefix, p, acc[p]);
    assert (rows0 + [r])[0] == rows0[0];
  }

  /** The other pairs keep their tallies. */
  lemma TallyKeyOther(prefix: seq<CleanRecord>, r: CleanRecord,
                      acc: map<(string, string), Tally>, order: seq<(string, string)>, k: (string, string))
    requires Tallied(prefix, acc, order) && k in acc && k != PairOf(r)
    ensures TallyMatches(prefix + [r], k, acc[k])
  {
    RowsSnoc(prefix, r, PairOf, k);
    assert TallyMatches(prefix, k, acc[k]);
  }

  /** After one more record every pair's tally is still its tally. */
  lemma TallyKey(prefix: seq<CleanRecord>, r: CleanRecord,
                 acc: map<(string, string), Tally>, order: seq<(string, string)>, k: (string, string))
    requires Tallied(prefix, acc, order)
    requires k in Bump(acc, r)
    ensures TallyMatches(prefix + [r], k, Bump(acc, r)[k])
  {
    var p := PairOf(r);
    if k == p {
      if p in acc {
        TallyKeySeen(prefix, r, acc, order);
      } else {
        TallyKeyFresh(prefix, r, acc, order);
      }
    } else {
      TallyKeyOther(prefix, r, acc, order, k);
    }
  }

  /** One iteration of the edge loop keeps `Tallied`. */
  lemma TallyStep(prefix: seq<CleanRecord>, r: CleanRecord,
                  acc: map<(string, string), Tally>, order: seq<(string, string)>)
    requires Tallied(prefix, acc, order)
    ensures Tallied(prefix + [r], Bump(acc, r), if PairOf(r) in acc then order else order + [PairOf(r)])
  {
    KeysSnoc(prefix, r, PairOf);
    TallyDomain(acc, order, r);
    forall k | k in Bump(acc, r)
      ensures TallyMatches(prefix + [r], k, Bump(acc, r)[k])
    {
      TallyKey(prefix, r, acc, order, k);
    }
  }

  /** The tallied pairs stay the listed pairs: a new pair is listed last. */
  lemma TallyDomain(acc: map<(string, string), Tally>, order: seq<(string, string)>, r: CleanRecord)
    requires forall k :: k in acc <==> k in order
    ensures var order' := if PairOf(r) in acc then order else order + [PairOf(r)];
      forall k :: k in Bump(acc, r) <==> k in order'
  {
  }

  /** Once all records are tallied, a pair's tally yields exactly its edge. */
  lemma TallyEdge(recs: seq<CleanRecord>, acc: map<(string, string), Tally>,
                  order: seq<(string, string)>, k: (string, string))
    requires Tallied(recs, acc, order) && k in acc
    ensures acc[k].weight >= 1
    ensures MakeEdge(acc[k].first, acc[k].weight, acc[k].dnas) == EdgeOf(recs, k)
  {
    assert TallyMatches(recs, k, acc[k]);
    KeysOccur(recs, PairOf, k);
    assert k in Project(recs, PairOf);
  }

  /** The edge loop of `create_enhanced_bipartite_graph` as written: walk the
      records in order; the first record of a pair adds the edge with weight 1
      and its DNA flag, every later one increments the weight and adds its
      flag. */
  method TallyPairs(recs: seq<CleanRecord>) returns (acc: map<(string, string), Tally>, order: seq<(string, string)>)
    ensures Tallied(recs, acc, order)
  {
    acc := map[];
    order := [];
    var i := 0;
    while i < |recs|
      invariant 0 <= i <= |recs|
      invariant Tallied(recs[..i], acc, order)
    {
      var r := recs[i];
      TakeSnoc(recs, i);
      TallyStep(recs[..i], r, acc, order);
      if PairOf(r) !in acc {
        order := order + [PairOf(r)];
      }
      acc := Bump(acc, r);
      i := i + 1;
    }
    assert recs[..i] == recs;
  }

  /** The whole edge construction: tally the pairs, then give every edge
      `dna_rate = dna_count / weight`. The result is the group-and-reduce
      definition `GroupedEdges`: one edge per distinct pair, in first-seen
      order. */
  method AccumulateEdges(recs: seq<CleanRecord>) returns (edges: seq<Edge>)
    ensures edges == GroupedEdges(recs)
  {
    var acc, order := TallyPairs(recs);
    ghost var all := GroupedEdges(recs);
    assert |all| == |order|;
    edges := [];
    var j := 0;
    while j < |order|
      invariant 0 <= j <= |order|
      invariant edges == all[..j]
    {
      var t := acc[order[j]];
      TallyEdge(recs, acc, order, order[j]);
      assert MakeEdge(t.first, t.weight, t.dnas) == all[j];
      TakeSnoc(all, j);
      edges := edges + [MakeEdge(t.first, t.weight, t.dnas)];
      j := j + 1;
    }
    assert all[..j] == all;
  }
}
