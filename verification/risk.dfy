/** `analyze_community_dna_patterns` and `calculate_community_risk_score`
    (data_prep.py, data_prep_leiden.py, and the inline copy in webapp.py):
    one table row per community that holds at least one patient, with the
    patients' mean DNA rate, their dominant age group, their risk-category
    counts, the sites' mean rate and the composite risk score
    0.7 * mean DNA rate + 0.3 * share of High patients. */
module RiskScoring {
  import opened Common
  import opened BipartiteGraph
  import opened Communities

  /** `G.nodes[n]` succeeds: the node is in the graph. */
  predicate InGraph(g: Graph, n: Node)
  {
    match n
    case Patient(k) => k in g.patientInfo
    case Site(c) => c in g.siteInfo
  }

  predicate AllInGraph(g: Graph, c: seq<Node>)
  {
    forall n :: n in c ==> InGraph(g, n)
  }

  /** The patient keys of a community, in community order. */
  function PatientKeys(c: seq<Node>): (ks: seq<string>)
    ensures forall k :: k in ks <==> Patient(k) in c
  {
    if |c| == 0 then []
    else PatientKeys(c[..|c| - 1]) + (if c[|c| - 1].Patient? then [c[|c| - 1].key] else [])
  }

  /** The site codes of a community, in community order. */
  function SiteCodes(c: seq<Node>): (cs: seq<string>)
    ensures forall k :: k in cs <==> Site(k) in c
  {
    if |c| == 0 then []
    else SiteCodes(c[..|c| - 1]) + (if c[|c| - 1].Site? then [c[|c| - 1].code] else [])
  }

  /** Every node is either a patient or a site, so the two lists together
      are as long as the community. */
  lemma {:induction false} KindsSplit(c: seq<Node>)
    ensures |PatientKeys(c)| + |SiteCodes(c)| == |c|
  {
    if |c| > 0 {
      KindsSplit(c[..|c| - 1]);
    }
  }

  function Patients(g: Graph, ks: seq<string>): (ps: seq<PatientInfo>)
    requires forall k :: k in ks ==> k in g.patientInfo
    ensures |ps| == |ks| && forall i :: 0 <= i < |ks| ==> ps[i] == g.patientInfo[ks[i]]
  {
    seq(|ks|, i requires 0 <= i < |ks| => g.patientInfo[ks[i]])
  }

  function DnaRates(ps: seq<PatientInfo>): (r: seq<real>)
    ensures |r| == |ps| && forall i :: 0 <= i < |ps| ==> r[i] == ps[i].dnaRate
  {
    seq(|ps|, i requires 0 <= i < |ps| => ps[i].dnaRate)
  }

  function Categories(ps: seq<PatientInfo>): (r: seq<Level>)
    ensures |r| == |ps| && forall i :: 0 <= i < |ps| ==> r[i] == ps[i].riskCategory
  {
    seq(|ps|, i requires 0 <= i < |ps| => ps[i].riskCategory)
  }

  function AgeGroups(ps: seq<PatientInfo>): (r: seq<AgeGroup>)
    ensures |r| == |ps| && forall i :: 0 <= i < |ps| ==> r[i] == ps[i].ageGroup
  {
    seq(|ps|, i requires 0 <= i < |ps| => ps[i].ageGroup)
  }

  function AppointmentCounts(ps: seq<PatientInfo>): (r: seq<real>)
    ensures |r| == |ps|
  {
    seq(|ps|, i requires 0 <= i < |ps| => ps[i].totalAppointments as real)
  }

  /** The known ages, skipping the missing ones. */
  function KnownAges(ps: seq<PatientInfo>): (r: seq<real>)
    ensures |r| <= |ps|
  {
    if |ps| == 0 then []
    else KnownAges(ps[..|ps| - 1]) + (match ps[|ps| - 1].age case Some(a) => [a] case None => [])
  }

  function SiteRates(g: Graph, cs: seq<string>): (r: seq<real>)
    requires forall c :: c in cs ==> c in g.siteInfo
    ensures |r| == |cs|
  {
    seq(|cs|, i requires 0 <= i < |cs| => g.siteInfo[cs[i]].siteDnaRate)
  }

  // ---------------------------------------------------------------- the score

  predicate IsHigh(l: Level) { l == High }
  predicate IsMedium(l: Level) { l == Medium }
  predicate IsLow(l: Level) { l == Low }

  /** `risk_counts.get('High', 0) / total_patients`, where the total is the
      sum of the counter's values, or 1 for an empty counter. */
  function HighShare(cats: seq<Level>): (r: real)
    ensures 0.0 <= r <= 1.0
    ensures r == 0.0 <==> Count(cats, IsHigh) == 0
    ensures r == 1.0 <==> |cats| > 0 && Count(cats, IsHigh) == |cats|
  {
    if |cats| == 0 then 0.0
    else
      FractionBounds(Count(cats, IsHigh) as real, |cats| as real);
      Count(cats, IsHigh) as real / |cats| as real
  }

  /** `calculate_community_risk_score`: 0 for a community without rates;
      with rates in [0, 1] a score in [0, 1]. */
  function CompositeScore(rates: seq<real>, cats: seq<Level>): (r: real)
    ensures |rates| == 0 ==> r == 0.0
    ensures AllWithin(rates, 0.0, 1.0) ==> 0.0 <= r <= 1.0
  {
    if |rates| == 0 then 0.0
    else
      UnitMean(rates);
      0.7 * Mean(rates) + 0.3 * HighShare(cats)
  }

  lemma UnitMean(s: seq<real>)
    requires |s| > 0
    ensures AllWithin(s, 0.0, 1.0) ==> 0.0 <= Mean(s) <= 1.0
  {
    if AllWithin(s, 0.0, 1.0) {
      MeanWithin(s, 0.0, 1.0);
    }
  }

  /** The score is 0 without rates, and with rates in [0, 1] it lies in
      [0, 1]; it is 1 exactly when every rate is 1 and every patient is
      High. */
  lemma CompositeScoreBounds(rates: seq<real>, cats: seq<Level>)
    requires AllWithin(rates, 0.0, 1.0)
    ensures |rates| == 0 ==> CompositeScore(rates, cats) == 0.0
    ensures 0.0 <= CompositeScore(rates, cats) <= 1.0
    ensures |rates| > 0 && Mean(rates) == 1.0 && HighShare(cats) == 1.0 ==> CompositeScore(rates, cats) == 1.0
    ensures |rates| > 0 && CompositeScore(rates, cats) == 1.0 ==> Mean(rates) == 1.0 && HighShare(cats) == 1.0
  {
    if |rates| > 0 {
      MeanWithin(rates, 0.0, 1.0);
    }
  }

  /** The score computed inline in webapp.py: the mean guarded by
      `if community_dna_rates else 0` and the High share always added. */
  function InlineScore(rates: seq<real>, cats: seq<Level>): real
  {
    0.7 * (if |rates| > 0 then Mean(rates) else 0.0) + 0.3 * HighShare(cats)
  }

  /** When rates and categories come from the same patients, the inline
      score equals `calculate_community_risk_score`, empty lists included. */
  lemma InlineMatchesComposite(rates: seq<real>, cats: seq<Level>)
    requires |rates| == |cats|
    ensures InlineScore(rates, cats) == CompositeScore(rates, cats)
  {
    if |cats| == 0 {
      CountNone(cats, IsHigh);
    }
  }

  // ---------------------------------------------------------------- dominant age group

  function Frequency(groups: seq<AgeGroup>, a: AgeGroup): real
  {
    multiset(groups)[a] as real
  }

  /** Position, among the first `n` entries, of the first entry whose group
      is the most frequent in the whole list. */
  function FirstMostFrequent(groups: seq<AgeGroup>, n: nat): (i: nat)
    requires 0 < n <= |groups|
    ensures i < n
    ensures forall j :: 0 <= j < n ==> Frequency(groups, groups[j]) <= Frequency(groups, groups[i])
    ensures forall j :: 0 <= j < i ==> Frequency(groups, groups[j]) < Frequency(groups, groups[i])
  {
    if n == 1 then 0
    else
      var i := FirstMostFrequent(groups, n - 1);
      if Frequency(groups, groups[n - 1]) > Frequency(groups, groups[i]) then n - 1 else i
  }

  /** `max(Counter(groups).items(), key=count)[0]`: the counter lists groups
      in first-seen order and `max` keeps the first maximum, so the result is
      the most frequent group, the one seen first among equally frequent
      ones; 'Unknown' for an empty list. */
  function Dominant(groups: seq<AgeGroup>): AgeGroup
  {
    if |groups| == 0 then Unknown else groups[FirstMostFrequent(groups, |groups|)]
  }

  lemma DominantIsFirstMostFrequent(groups: seq<AgeGroup>)
    ensures |groups| == 0 ==> Dominant(groups) == Unknown
    ensures |groups| > 0 ==>
      var r := Dominant(groups);
      && r in groups
      && (forall j :: 0 <= j < |groups| ==> Frequency(groups, groups[j]) <= Frequency(groups, r))
      && (forall j :: 0 <= j < |groups| && Frequency(groups, groups[j]) == Frequency(groups, r) ==>
            r in groups[..j + 1])
  {
    if |groups| > 0 {
      var i := FirstMostFrequent(groups, |groups|);
      forall j | 0 <= j < |groups| && Frequency(groups, groups[j]) == Frequency(groups, groups[i])
        ensures groups[i] in groups[..j + 1]
      {
        assert !(j < i);
        assert groups[..j + 1][i] == groups[i];
      }
    }
  }

  // ---------------------------------------------------------------- the table

  datatype CommunityRow = CommunityRow(
    communityId: nat,
    size: nat,
    patientsCount: nat,
    sitesCount: nat,
    avgDnaRate: real,
    avgAge: Option<real>,
    dominantAgeGroup: AgeGroup,
    avgAppointments: real,
    highRiskPatients: nat,
    mediumRiskPatients: nat,
    lowRiskPatients: nat,
    avgSiteDnaRate: real,
    riskScore: real)

  /** The row of community `i`; None exactly when it holds no patient (the
      loop's `continue`). */
  function AnalyzeCommunity(g: Graph, i: nat, c: seq<Node>): (r: Option<CommunityRow>)
    requires AllInGraph(g, c)
    ensures r.Some? <==> HasPatient(c)
    ensures r.Some? ==> r.value.communityId == i && r.value.size == |c|
  {
    var ks := PatientKeys(c);
    if |ks| == 0 then
      assert forall k :: Patient(k) !in c;
      None
    else
      assert Patient(ks[0]) in c;
      var cs := SiteCodes(c);
      var ps := Patients(g, ks);
      var rates := DnaRates(ps);
      var cats := Categories(ps);
      var ages := KnownAges(ps);
      Some(CommunityRow(
        i, |c|, |ks|, |cs|,
        Mean(rates),
        if |ages| > 0 then Some(Mean(ages)) else None,
        Dominant(AgeGroups(ps)),
        Mean(AppointmentCounts(ps)),
        Count(cats, IsHigh), Count(cats, IsMedium), Count(cats, IsLow),
        Mean(SiteRates(g, cs)),
        CompositeScore(rates, cats)))
  }

  lemma {:induction false} LevelCountsSplit(cats: seq<Level>)
    ensures Count(cats, IsHigh) + Count(cats, IsMedium) + Count(cats, IsLow) == |cats|
  {
    if |cats| > 0 {
      LevelCountsSplit(cats[..|cats| - 1]);
    }
  }

  /** Rates as the graph builder leaves them: every patient rate in [0, 1]. */
  ghost predicate RatesWithin(g: Graph)
  {
    forall k :: k in g.patientInfo ==> 0.0 <= g.patientInfo[k].dnaRate <= 1.0
  }

  /** A row exists exactly for a community with a patient. */
  lemma AnalyzeCommunityExists(g: Graph, i: nat, c: seq<Node>)
    requires AllInGraph(g, c)
    ensures AnalyzeCommunity(g, i, c).Some? <==> exists k :: Patient(k) in c
  {
    var ks := PatientKeys(c);
    if |ks| > 0 {
      assert Patient(ks[0]) in c;
    } else {
      assert forall k :: Patient(k) !in c;
    }
  }

  /** A row's patients and sites add up to the community's size, its
      High/Medium/Low counts add up to its patients, its dominant group is
      one of its patients' groups, and its score is the composite score of
      its patients, which lies in [0, 1] when the graph's rates do. */
  lemma AnalyzeCommunityRow(g: Graph, i: nat, c: seq<Node>)
    requires AllInGraph(g, c) && exists k :: Patient(k) in c
    ensures AnalyzeCommunity(g, i, c).Some?
    ensures var row := AnalyzeCommunity(g, i, c).value;
      var ps := Patients(g, PatientKeys(c));
      && row.communityId == i
      && row.size == |c|
      && row.patientsCount >= 1
      && row.patientsCount + row.sitesCount == row.size
      && row.highRiskPatients + row.mediumRiskPatients + row.lowRiskPatients == row.patientsCount
      && (exists j :: 0 <= j < |ps| && ps[j].ageGroup == row.dominantAgeGroup)
      && row.riskScore == CompositeScore(DnaRates(ps), Categories(ps))
      && (RatesWithin(g) ==> 0.0 <= row.riskScore <= 1.0)
  {
    AnalyzeCommunityExists(g, i, c);
    var ks := PatientKeys(c);
    KindsSplit(c);
    var ps := Patients(g, ks);
    LevelCountsSplit(Categories(ps));
    var groups := AgeGroups(ps);
    DominantIsFirstMostFrequent(groups);
    var j :| 0 <= j < |groups| && groups[j] == Dominant(groups);
    if RatesWithin(g) {
      PatientRatesWithin(g, ks);
      CompositeScoreBounds(DnaRates(ps), Categories(ps));
    }
  }

  lemma PatientRatesWithin(g: Graph, ks: seq<string>)
    requires RatesWithin(g) && forall k :: k in ks ==> k in g.patientInfo
    ensures AllWithin(DnaRates(Patients(g, ks)), 0.0, 1.0)
  {
    var ps := Patients(g, ks);
    forall i | 0 <= i < |ks| ensures 0.0 <= DnaRates(ps)[i] <= 1.0 {
      assert ks[i] in ks;
    }
  }

  /** Every community names only nodes of the graph. */
  predicate AllPlaced(g: Graph, p: Partition)
  {
    forall i :: 0 <= i < |p| ==> AllInGraph(g, p[i])
  }

  /** A community holding at least one patient node. */
  ghost predicate HasPatient(c: seq<Node>)
  {
    exists k :: Patient(k) in c
  }

  /** `analyze_community_dna_patterns` before the sort. pandas raises
      KeyError in two cases, both modelled as None: a community names a node
      the graph lacks (the `G.nodes[n]` lookup), or no community holds a
      patient, so the DataFrame built from no rows has no `risk_score` column
      for `sort_values` to use. Otherwise the result holds the rows of the
      communities with patients, in partition order. */
  function AnalyzeCommunities(g: Graph, p: Partition): (r: Option<seq<CommunityRow>>)
    ensures r.None? <==>
      || (exists i, n :: 0 <= i < |p| && n in p[i] && !InGraph(g, n))
      || (forall i :: 0 <= i < |p| ==> !HasPatient(p[i]))
    ensures r.Some? ==> |r.value| > 0
  {
    if !AllPlaced(g, p) then None
    else
      TableEmpty(g, p);
      if |Table(g, p)| == 0 then None else Some(Table(g, p))
  }

  /** The table is empty exactly when no community holds a patient. */
  lemma TableEmpty(g: Graph, p: Partition)
    requires AllPlaced(g, p)
    ensures |Table(g, p)| == 0 <==> forall i :: 0 <= i < |p| ==> !HasPatient(p[i])
  {
    if i :| 0 <= i < |p| && HasPatient(p[i]) {
      TableCoversPatients(g, p, i);
    }
    if |Table(g, p)| > 0 {
      var row := Table(g, p)[0];
      TableRowsAreAnalyses(g, p);
      AnalyzeCommunityExists(g, row.communityId, p[row.communityId]);
    }
  }

  function Table(g: Graph, p: Partition): (rows: seq<CommunityRow>)
    requires AllPlaced(g, p)
    ensures |rows| <= |p|
    ensures forall j :: 0 <= j < |rows| ==> rows[j].communityId < |p|
    ensures forall j, k :: 0 <= j < k < |rows| ==> rows[j].communityId < rows[k].communityId
  {
    if |p| == 0 then []
    else
      var q, last := p[..|p| - 1], |p| - 1;
      assert AllPlaced(g, q) by {
        forall i | 0 <= i < |q| ensures AllInGraph(g, q[i]) { assert q[i] == p[i]; }
      }
      var row := AnalyzeCommunity(g, last, p[last]);
      Table(g, q) + (if row.Some? then [row.value] else [])
  }

  /** Each row is the row of the community its id names. */
  lemma {:induction false} TableRowsAreAnalyses(g: Graph, p: Partition)
    requires AllPlaced(g, p)
    ensures forall row :: row in Table(g, p) ==>
      row.communityId < |p| && AnalyzeCommunity(g, row.communityId, p[row.communityId]) == Some(row)
  {
    if |p| > 0 {
      var q := p[..|p| - 1];
      TableRowsAreAnalyses(g, q);
      assert forall i :: 0 <= i < |q| ==> q[i] == p[i];
    }
  }

  /** Every community with a patient has its row in the table. */
  lemma {:induction false} TableCoversPatients(g: Graph, p: Partition, i: nat)
    requires AllPlaced(g, p) && i < |p| && exists k :: Patient(k) in p[i]
    ensures AnalyzeCommunity(g, i, p[i]).Some? && AnalyzeCommunity(g, i, p[i]).value in Table(g, p)
  {
    AnalyzeCommunityExists(g, i, p[i]);
    var q := p[..|p| - 1];
    if i < |p| - 1 {
      assert q[i] == p[i];
      TableCoversPatients(g, q, i);
      TablePrefix(g, p);
    } else {
      TableLast(g, p);
    }
  }

  lemma TablePrefix(g: Graph, p: Partition)
    requires AllPlaced(g, p) && |p| > 0
    ensures AllPlaced(g, p[..|p| - 1])
    ensures forall row :: row in Table(g, p[..|p| - 1]) ==> row in Table(g, p)
  {
  }

  lemma TableLast(g: Graph, p: Partition)
    requires AllPlaced(g, p) && |p| > 0
    ensures var row := AnalyzeCommunity(g, |p| - 1, p[|p| - 1]);
      row.Some? ==> row.value in Table(g, p)
  {
  }
}
