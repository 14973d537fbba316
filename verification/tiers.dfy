/** `identify_high_low_risk_communities`: the community table split into
    High (score at least the high threshold), Low (score at most the low
    threshold) and Medium (strictly between), with fixed thresholds 0.3/0.1
    (data_prep.py) or the table's 0.75 and 0.25 quantiles (data_prep_leiden.py
    and webapp.py). The exports instead give each row one `risk_level`,
    High taking precedence over Low. */
module Tiering {
  import opened Common
  import opened RiskScoring
  import opened Quantiles

  /** The three independent membership tests. */
  predicate InTier(score: real, low: real, high: real, l: Level)
  {
    match l
    case High => score >= high
    case Low => score <= low
    case Medium => low < score < high
  }

  /** The exports' `risk_level`: High first, then Low, else Medium. */
  function TierOf(score: real, low: real, high: real): (l: Level)
    ensures l == High <==> score >= high
    ensures l == Low <==> score < high && score <= low
    ensures l == Medium <==> low < score < high
  {
    if score >= high then High else if score <= low then Low else Medium
  }

  /** With distinct thresholds a score passes exactly one test, and that test
      names its `risk_level`; with equal thresholds a score at the threshold
      passes both High and Low and no score is Medium. */
  lemma TierTests(score: real, low: real, high: real)
    ensures low < high ==>
      && (InTier(score, low, high, High) || InTier(score, low, high, Medium) || InTier(score, low, high, Low))
      && !(InTier(score, low, high, High) && InTier(score, low, high, Low))
      && !(InTier(score, low, high, High) && InTier(score, low, high, Medium))
      && !(InTier(score, low, high, Medium) && InTier(score, low, high, Low))
      && forall l :: TierOf(score, low, high) == l <==> InTier(score, low, high, l)
    ensures low == high ==>
      && !InTier(score, low, high, Medium)
      && (score == low <==> InTier(score, low, high, High) && InTier(score, low, high, Low))
  {
  }

  /** The rows passing one test, in table order. */
  function Select(rows: seq<CommunityRow>, low: real, high: real, l: Level): (r: seq<CommunityRow>)
    ensures |r| <= |rows|
    ensures forall row :: row in r <==> row in rows && InTier(row.riskScore, low, high, l)
  {
    if |rows| == 0 then []
    else
      var last := rows[|rows| - 1];
      Select(rows[..|rows| - 1], low, high, l) + (if InTier(last.riskScore, low, high, l) then [last] else [])
  }

  /** With distinct thresholds the three selections partition the table. */
  lemma {:induction false} SelectPartition(rows: seq<CommunityRow>, low: real, high: real)
    requires low < high
    ensures |Select(rows, low, high, High)| + |Select(rows, low, high, Medium)| + |Select(rows, low, high, Low)| == |rows|
  {
    if |rows| > 0 {
      SelectPartition(rows[..|rows| - 1], low, high);
      TierTests(rows[|rows| - 1].riskScore, low, high);
    }
  }

  datatype Tiers = Tiers(high: seq<CommunityRow>, medium: seq<CommunityRow>, low: seq<CommunityRow>)

  function Identify(rows: seq<CommunityRow>, low: real, high: real): Tiers
  {
    Tiers(Select(rows, low, high, High), Select(rows, low, high, Medium), Select(rows, low, high, Low))
  }

  /** The fixed thresholds of data_prep.py (and of data_prep_leiden.py with
      `use_percentiles=False`). */
  const FixedHigh: real := 0.3
  const FixedLow: real := 0.1

  /** With the fixed thresholds every community lands in exactly one tier. */
  lemma FixedTiersPartition(rows: seq<CommunityRow>)
    ensures var t := Identify(rows, FixedLow, FixedHigh);
      |t.high| + |t.medium| + |t.low| == |rows|
  {
    SelectPartition(rows, FixedLow, FixedHigh);
  }

  function Scores(rows: seq<CommunityRow>): (s: seq<real>)
    ensures |s| == |rows| && forall i :: 0 <= i < |rows| ==> s[i] == rows[i].riskScore
  {
    seq(|rows|, i requires 0 <= i < |rows| => rows[i].riskScore)
  }

  datatype Thresholds = Thresholds(low: real, high: real)

  /** The 0.25 and 0.75 quantiles of the table's risk scores. */
  function PercentileThresholds(rows: seq<CommunityRow>): Thresholds
    requires |rows| > 0
  {
    Thresholds(Quantile(Scores(rows), 0.25), Quantile(Scores(rows), 0.75))
  }

  datatype ThresholdMode = Fixed | Percentile

  /** data_prep_leiden.py's `identify_high_low_risk_communities`: every tier
      holds rows of the table; the fixed thresholds put each community in
      exactly one tier, and the percentile thresholds leave neither the High
      nor the Low tier empty. */
  function IdentifyWithMode(rows: seq<CommunityRow>, mode: ThresholdMode): (r: Tiers)
    requires |rows| > 0
    ensures forall row :: row in r.high || row in r.medium || row in r.low ==> row in rows
    ensures mode == Fixed ==> |r.high| + |r.medium| + |r.low| == |rows|
    ensures mode == Percentile ==> |r.high| > 0 && |r.low| > 0
  {
    match mode
    case Fixed =>
      FixedTiersPartition(rows);
      Identify(rows, FixedLow, FixedHigh)
    case Percentile =>
      var t := PercentileThresholds(rows);
      PercentileThresholdsOrdered(rows);
      Identify(rows, t.low, t.high)
  }

  /** The percentile thresholds are ordered and lie within the range of the
      scores, so some community is High and some is Low. */
  lemma PercentileThresholdsOrdered(rows: seq<CommunityRow>)
    requires |rows| > 0
    ensures var t := PercentileThresholds(rows);
      && t.low <= t.high
      && (exists i :: 0 <= i < |rows| && rows[i].riskScore <= t.low)
      && (exists j :: 0 <= j < |rows| && t.high <= rows[j].riskScore)
      && |Select(rows, t.low, t.high, High)| > 0
      && |Select(rows, t.low, t.high, Low)| > 0
  {
    var s := Scores(rows);
    var t := PercentileThresholds(rows);
    QuantileMonotone(s, 0.25, 0.75);
    var i :| 0 <= i < |s| && s[i] <= t.low;
    var j :| 0 <= j < |s| && t.high <= s[j];
    assert rows[i] in Select(rows, t.low, t.high, Low);
    assert rows[j] in Select(rows, t.low, t.high, High);
  }

  /** A table of one community makes the two percentile thresholds
      coincide with its score. */
  lemma SingleRowThresholdsCoincide(row: CommunityRow)
    ensures PercentileThresholds([row]) == Thresholds(row.riskScore, row.riskScore)
  {
    var s := Scores([row]);
    assert Sort(s) == [row.riskScore] by {
      assert multiset(Sort(s)) == multiset{row.riskScore};
      assert Sort(s)[0] in multiset(Sort(s));
    }
    VirtualIndexEnds(1);
    assert VirtualIndex(1, 0.25) == 0.0 && VirtualIndex(1, 0.75) == 0.0;
  }
}
