/** `generate_community_insights` (data_prep_leiden.py): one "High Risk"
    insight per High community, a "Site Performance" insight when the High
    communities' sites miss more than 20% of appointments on average, and a
    "Demographic Pattern" insight naming the dominant age group whose
    communities have the highest mean risk score. */
module Insights {
  import opened Common
  import opened BipartiteGraph
  import opened RiskScoring
  import opened Tiering

  datatype Priority = Urgent | HighPriority | MediumPriority

  datatype Insight =
    | HighRisk(communityId: nat, patientsAffected: nat, avgDnaRate: real, focusGroup: AgeGroup)
    | SitePerformance(avgSiteDnaRate: real)
    | DemographicPattern(ageGroup: AgeGroup)

  function PriorityOf(i: Insight): Priority
  {
    match i
    case HighRisk(_, _, _, _) => Urgent
    case SitePerformance(_) => HighPriority
    case DemographicPattern(_) => MediumPriority
  }

  function HighRiskInsights(high: seq<CommunityRow>): (r: seq<Insight>)
    ensures |r| == |high|
    ensures forall i :: 0 <= i < |high| ==>
      r[i] == HighRisk(high[i].communityId, high[i].patientsCount, high[i].avgDnaRate, high[i].dominantAgeGroup)
  {
    seq(|high|, i requires 0 <= i < |high| =>
      HighRisk(high[i].communityId, high[i].patientsCount, high[i].avgDnaRate, high[i].dominantAgeGroup))
  }

  function SiteRatesOf(rows: seq<CommunityRow>): (r: seq<real>)
    ensures |r| == |rows| && forall i :: 0 <= i < |rows| ==> r[i] == rows[i].avgSiteDnaRate
  {
    seq(|rows|, i requires 0 <= i < |rows| => rows[i].avgSiteDnaRate)
  }

  /** The site insight, present only for a non-empty High tier whose mean
      site rate exceeds 0.2. */
  function SiteInsight(high: seq<CommunityRow>): seq<Insight>
  {
    if |high| > 0 && Mean(SiteRatesOf(high)) > 0.2 then [SitePerformance(Mean(SiteRatesOf(high)))] else []
  }

  // ---------------------------------------------------------------- demographic pattern

  /** The age groups in the alphabetical order of their labels ('Adult',
      'Child', 'Senior', 'Unknown', 'Young Adult'), the order in which
      `groupby` lists them. */
  const AlphabeticalGroups: seq<AgeGroup> := [Adult, Child, Senior, Unknown, YoungAdult]

  function AlphaRank(a: AgeGroup): (k: nat)
    ensures k < |AlphabeticalGroups| && AlphabeticalGroups[k] == a
  {
    match a
    case Adult => 0
    case Child => 1
    case Senior => 2
    case Unknown => 3
    case YoungAdult => 4
  }

  predicate HasGroup(rows: seq<CommunityRow>, a: AgeGroup)
  {
    exists i :: 0 <= i < |rows| && rows[i].dominantAgeGroup == a
  }

  /** The scores of the rows whose dominant group is `a`. */
  function GroupScores(rows: seq<CommunityRow>, a: AgeGroup): seq<real>
  {
    if |rows| == 0 then []
    else
      var last := rows[|rows| - 1];
      GroupScores(rows[..|rows| - 1], a) + (if last.dominantAgeGroup == a then [last.riskScore] else [])
  }

  function GroupMean(rows: seq<CommunityRow>, a: AgeGroup): real
  {
    Mean(GroupScores(rows, a))
  }

  /** The groups present in the table among the first `k` labels, in
      alphabetical order. */
  function PresentGroups(rows: seq<CommunityRow>, k: nat): (r: seq<AgeGroup>)
    requires k <= |AlphabeticalGroups|
    ensures forall a :: a in r <==> AlphaRank(a) < k && HasGroup(rows, a)
    ensures forall i, j :: 0 <= i < j < |r| ==> AlphaRank(r[i]) < AlphaRank(r[j])
  {
    if k == 0 then []
    else
      var pre := PresentGroups(rows, k - 1);
      var a := AlphabeticalGroups[k - 1];
      assert AlphaRank(a) == k - 1;
      if HasGroup(rows, a) then
        assert forall i :: 0 <= i < |pre| ==> AlphaRank(pre[i]) < k - 1 by {
          forall i | 0 <= i < |pre| ensures AlphaRank(pre[i]) < k - 1 {
            assert pre[i] in pre;
          }
        }
        pre + [a]
      else pre
  }

  /** Index of the first group of `gs` with the highest mean score, as the
      descending stable sort of the group means puts first. */
  function BestGroupIndex(rows: seq<CommunityRow>, gs: seq<AgeGroup>): (i: nat)
    requires |gs| > 0
    ensures i < |gs|
    ensures forall j :: 0 <= j < |gs| ==> GroupMean(rows, gs[j]) <= GroupMean(rows, gs[i])
    ensures forall j :: 0 <= j < i ==> GroupMean(rows, gs[j]) < GroupMean(rows, gs[i])
  {
    FirstMaxIndex(gs, a => GroupMean(rows, a))
  }

  function DemographicGroup(rows: seq<CommunityRow>): AgeGroup
    requires |rows| > 0
  {
    var gs := PresentGroups(rows, |AlphabeticalGroups|);
    assert rows[0].dominantAgeGroup in gs;
    gs[BestGroupIndex(rows, gs)]
  }

  /** The named group is the dominant group of some community; no present
      group has a higher mean score, and an equally scoring group comes later
      in alphabetical order. The tie-break rests on
      `sort_values(ascending=False)` keeping tied groups in `groupby`'s
      alphabetical order, which assumes a stable argsort. numpy's default
      quicksort does not promise stability, and on some platforms it sorts
      floats with a vectorised routine that may reorder ties, so the group
      named among equal means can differ between platforms. */
  lemma DemographicGroupIsBest(rows: seq<CommunityRow>)
    requires |rows| > 0
    ensures var a := DemographicGroup(rows);
      && HasGroup(rows, a)
      && forall b :: HasGroup(rows, b) ==>
           GroupMean(rows, b) <= GroupMean(rows, a)
           && (GroupMean(rows, b) == GroupMean(rows, a) ==> AlphaRank(a) <= AlphaRank(b))
  {
    var gs := PresentGroups(rows, |AlphabeticalGroups|);
    assert rows[0].dominantAgeGroup in gs;
    var i := BestGroupIndex(rows, gs);
    var a := gs[i];
    forall b | HasGroup(rows, b)
      ensures GroupMean(rows, b) <= GroupMean(rows, a)
      ensures GroupMean(rows, b) == GroupMean(rows, a) ==> AlphaRank(a) <= AlphaRank(b)
    {
      assert b in gs;
      var j :| 0 <= j < |gs| && gs[j] == b;
      if GroupMean(rows, b) == GroupMean(rows, a) && j != i {
        assert i < j;
      }
    }
  }

  // ---------------------------------------------------------------- all insights

  function DemographicInsight(rows: seq<CommunityRow>): seq<Insight>
  {
    if |rows| > 0 then [DemographicPattern(DemographicGroup(rows))] else []
  }

  predicate IsHighRiskInsight(i: Insight) { i.HighRisk? }
  predicate IsSiteInsight(i: Insight) { i.SitePerformance? }
  predicate IsDemographicInsight(i: Insight) { i.DemographicPattern? }

  /** `generate_community_insights`: exactly one High Risk insight per High
      community, in tier order; a Site Performance insight exactly when the
      High tier is non-empty and its mean site rate exceeds 0.2; exactly one
      Demographic Pattern insight when the table is non-empty and none
      otherwise. */
  function GenerateInsights(rows: seq<CommunityRow>, tiers: Tiers): (ins: seq<Insight>)
    ensures Count(ins, IsHighRiskInsight) == |tiers.high|
    ensures forall k :: 0 <= k < |tiers.high| ==> ins[k].HighRisk? && ins[k].communityId == tiers.high[k].communityId
    ensures Count(ins, IsSiteInsight) > 0 <==> |tiers.high| > 0 && Mean(SiteRatesOf(tiers.high)) > 0.2
    ensures Count(ins, IsSiteInsight) <= 1
    ensures Count(ins, IsDemographicInsight) == (if |rows| > 0 then 1 else 0)
  {
    var h := HighRiskInsights(tiers.high);
    var si := SiteInsight(tiers.high);
    var d := DemographicInsight(rows);
    PartCounts(h, si, d);
    CountAll(h, IsHighRiskInsight);
    CountNone(h, IsSiteInsight);
    CountNone(h, IsDemographicInsight);
    SingletonCounts(si);
    SingletonCounts(d);
    h + si + d
  }

  /** What the insights say: the High Risk insights come first and describe
      the High communities in tier order; a Site Performance insight reports
      the mean site rate of the High tier; for a non-empty table the last
      insight names the demographic group of `DemographicGroupIsBest`. */
  lemma InsightContents(rows: seq<CommunityRow>, tiers: Tiers)
    ensures var ins := GenerateInsights(rows, tiers);
      var high := tiers.high;
      && (forall k :: 0 <= k < |high| ==>
            ins[k] == HighRisk(high[k].communityId, high[k].patientsCount, high[k].avgDnaRate, high[k].dominantAgeGroup))
      && (forall j :: 0 <= j < |ins| && ins[j].SitePerformance? ==> ins[j].avgSiteDnaRate == Mean(SiteRatesOf(high)))
      && (|rows| > 0 ==> |ins| > 0 && ins[|ins| - 1] == DemographicPattern(DemographicGroup(rows)))
  {
    var h := HighRiskInsights(tiers.high);
    var si := SiteInsight(tiers.high);
    var d := DemographicInsight(rows);
    var ins := h + si + d;
    assert GenerateInsights(rows, tiers) == ins;
    forall j | 0 <= j < |ins| && ins[j].SitePerformance?
      ensures ins[j].avgSiteDnaRate == Mean(SiteRatesOf(tiers.high))
    {
      if |h| <= j < |h| + |si| {
        assert ins[j] == si[j - |h|];
      }
    }
  }

  /** Counting over the three parts of the insight list. */
  lemma PartCounts(h: seq<Insight>, si: seq<Insight>, d: seq<Insight>)
    ensures Count(h + si + d, IsHighRiskInsight) == Count(h, IsHighRiskInsight) + Count(si, IsHighRiskInsight) + Count(d, IsHighRiskInsight)
    ensures Count(h + si + d, IsSiteInsight) == Count(h, IsSiteInsight) + Count(si, IsSiteInsight) + Count(d, IsSiteInsight)
    ensures Count(h + si + d, IsDemographicInsight) == Count(h, IsDemographicInsight) + Count(si, IsDemographicInsight) + Count(d, IsDemographicInsight)
  {
    CountAppend(h + si, d, IsHighRiskInsight);
    CountAppend(h, si, IsHighRiskInsight);
    CountAppend(h + si, d, IsSiteInsight);
    CountAppend(h, si, IsSiteInsight);
    CountAppend(h + si, d, IsDemographicInsight);
    CountAppend(h, si, IsDemographicInsight);
  }

  /** An empty or one-element list counts its one insight under its own kind
      only. */
  lemma SingletonCounts(s: seq<Insight>)
    requires |s| <= 1
    ensures Count(s, IsHighRiskInsight) == (if |s| == 1 && s[0].HighRisk? then 1 else 0)
    ensures Count(s, IsSiteInsight) == (if |s| == 1 && s[0].SitePerformance? then 1 else 0)
    ensures Count(s, IsDemographicInsight) == (if |s| == 1 && s[0].DemographicPattern? then 1 else 0)
  {
    if |s| == 1 {
      assert s[..0] == [];
    }
  }
}
